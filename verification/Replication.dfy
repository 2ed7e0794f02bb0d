/**
 Replication: the updates a book emits are a legal stream, and feeding them to a replica
 reproduces the book, except for the quantity of orders that were partly filled on entry.
 */
module Replication {
  import opened MarketTypes
  import opened Sequences
  import opened PriceTimeBook
  import opened BookSafety
  import opened Lifecycle
  import opened ReplicaBook

  /** Market order id to the quantity a replica shows for it instead of the true one. */
  type Stale = map<nat, nat>

  function ShownOrder(o: Order, stale: Stale): Order {
    o.(owner := Public(o.id), qty := if o.id in stale then stale[o.id] else o.qty)
  }

  function Shown(s: seq<Order>, stale: Stale): (r: seq<Order>)
    ensures |r| == |s|
    ensures forall i :: 0 <= i < |s| ==> r[i] == ShownOrder(s[i], stale)
  {
    if s == [] then [] else [ShownOrder(s[0], stale)] + Shown(s[1..], stale)
  }

  function View(b: Book, stale: Stale): Replica {
    Replica(Shown(b.bids, stale), Shown(b.asks, stale))
  }

  /** A MODIFY brings the true quantity; a CANCEL ends the matter. */
  function Corrected(stale: Stale, us: seq<MarketUpdate>): Stale {
    if us == [] then stale
    else
      var u := us[|us| - 1];
      var before := Corrected(stale, us[..|us| - 1]);
      if u.kind == MODIFY || u.kind == CANCEL then before - {u.orderId} else before
  }

  /** Something it crosses rests, but less than it asks for. */
  predicate PartlyFilledOnEntry(b: Book, r: Request) {
    r.NewOrder? && 0 < Volume(r.side, r.price, Resting(b, Opposite(r.side))) < r.qty
  }

  /** What is shown wrongly after a request: what was and has not been hit, and a remainder smaller than its entry. */
  function StaleNext(ticker: nat, b: Book, r: Request, stale: Stale): Stale {
    var rest := Corrected(stale, Process(ticker, b, r).updates);
    if PartlyFilledOnEntry(b, r) then rest[b.nextId := r.qty] else rest
  }

  ghost function StaleAfter(ticker: nat, rs: seq<Request>): Stale {
    if rs == [] then map[]
    else
      var init := rs[..|rs| - 1];
      StaleNext(ticker, Run(ticker, init).book, rs[|rs| - 1], StaleAfter(ticker, init))
  }

  lemma CorrectedStep(stale: Stale, us: seq<MarketUpdate>, u: MarketUpdate)
    ensures Corrected(stale, us + [u])
         == if u.kind == MODIFY || u.kind == CANCEL then Corrected(stale, us) - {u.orderId} else Corrected(stale, us)
  {
    assert (us + [u])[..|us|] == us;
  }

  lemma {:induction false} CorrectedShrinks(stale: Stale, us: seq<MarketUpdate>)
    ensures Corrected(stale, us).Keys <= stale.Keys
    ensures forall id :: id in Corrected(stale, us) ==> Corrected(stale, us)[id] == stale[id]
  {
    if us != [] {
      CorrectedShrinks(stale, us[..|us| - 1]);
    }
  }

  // ---------- one change to one order ----------

  lemma ShownUnaffected(s: seq<Order>, stale: Stale, id: nat)
    requires forall i :: 0 <= i < |s| ==> s[i].id != id
    ensures Shown(s, stale - {id}) == Shown(s, stale)
  {
    forall i | 0 <= i < |s| ensures ShownOrder(s[i], stale - {id}) == ShownOrder(s[i], stale) {
      OrderUnaffected(s[i], stale, id);
    }
  }

  lemma OrderUnaffected(o: Order, stale: Stale, id: nat)
    requires o.id != id
    ensures ShownOrder(o, stale - {id}) == ShownOrder(o, stale)
  {
  }

  lemma ShownWithNew(s: seq<Order>, stale: Stale, id: nat, qty: nat)
    requires forall i :: 0 <= i < |s| ==> s[i].id != id
    ensures Shown(s, stale[id := qty]) == Shown(s, stale)
  {
    assert forall i :: 0 <= i < |s| ==> ShownOrder(s[i], stale[id := qty]) == ShownOrder(s[i], stale);
  }

  lemma ShownRemove(s: seq<Order>, k: nat, stale: Stale)
    requires k < |s| && forall i :: 0 <= i < |s| && i != k ==> s[i].id != s[k].id
    ensures RemoveAt(Shown(s, stale), k) == Shown(RemoveAt(s, k), stale - {s[k].id})
  {
    ShownUnaffected(RemoveAt(s, k), stale, s[k].id);
  }

  lemma ShownRequantified(s: seq<Order>, k: nat, qty: nat, stale: Stale)
    requires k < |s| && forall i :: 0 <= i < |s| && i != k ==> s[i].id != s[k].id
    ensures Shown(s, stale)[k := Shown(s, stale)[k].(qty := qty)] == Shown(s[k := s[k].(qty := qty)], stale - {s[k].id})
  {
    var stale' := stale - {s[k].id};
    assert forall i :: 0 <= i < |s| && i != k ==> ShownOrder(s[i], stale') == ShownOrder(s[i], stale);
  }

  /** The replica holds this side and the other one as shown. */
  ghost predicate Holds(r: Replica, side: Side, s: seq<Order>, own: seq<Order>, stale: Stale) {
    side != NO_SIDE && Of(r, side) == Shown(s, stale) && Of(r, Opposite(side)) == Shown(own, stale)
  }

  /** No other order, on either side, has the id at position `k`. */
  ghost predicate OnlyOne(s: seq<Order>, k: nat, own: seq<Order>) {
    && k < |s|
    && (forall i :: 0 <= i < |s| && i != k ==> s[i].id != s[k].id)
    && (forall i :: 0 <= i < |own| ==> own[i].id != s[k].id)
  }

  lemma FoundShown(r: Replica, side: Side, s: seq<Order>, own: seq<Order>, stale: Stale, k: nat, u: MarketUpdate)
    requires Holds(r, side, s, own, stale) && OnlyOne(s, k, own) && u.side == side && SameOrder(s[k], u)
    ensures SideOf(r, s[k].id) == side && Seek(Of(r, side), s[k].id) == k && Names(r, u)
  {
    SeekOnly(Of(r, side), k);
    assert SameOrder(Of(r, side)[k], u);
    assert forall i :: 0 <= i < |own| ==> Of(r, Opposite(side))[i].id != s[k].id;
  }

  lemma CancelShown(r: Replica, side: Side, s: seq<Order>, own: seq<Order>, stale: Stale, k: nat, u: MarketUpdate)
    requires Holds(r, side, s, own, stale) && OnlyOne(s, k, own)
    requires u.kind == CANCEL && u.side == side && SameOrder(s[k], u)
    ensures LegalNext(r, u) && Holds(Apply(r, u), side, RemoveAt(s, k), own, stale - {s[k].id})
  {
    FoundShown(r, side, s, own, stale, k, u);
    ShownUnaffected(own, stale, s[k].id);
    ShownRemove(s, k, stale);
  }

  lemma ModifyShown(r: Replica, side: Side, s: seq<Order>, own: seq<Order>, stale: Stale, k: nat, u: MarketUpdate)
    requires Holds(r, side, s, own, stale) && OnlyOne(s, k, own)
    requires u.kind == MODIFY && u.side == side && SameOrder(s[k], u)
    ensures LegalNext(r, u) && Holds(Apply(r, u), side, s[k := s[k].(qty := u.qty)], own, stale - {s[k].id})
  {
    FoundShown(r, side, s, own, stale, k, u);
    ShownUnaffected(own, stale, s[k].id);
    ShownRequantified(s, k, u.qty, stale);
  }

  /** Insertion goes by side and price alone, so it commutes with showing. */
  lemma {:induction false} ShownInsert(s: seq<Order>, o: Order, stale: Stale)
    ensures Shown(Insert(s, o), stale) == Insert(Shown(s, stale), ShownOrder(o, stale))
  {
    if s != [] && !Better(o.side, o.price, s[0].price) {
      ShownInsert(s[1..], o, stale);
      assert Insert(s, o)[1..] == Insert(s[1..], o);
    } else {
      assert Insert(s, o)[1..] == s;
    }
  }

  // ---------- a sweep ----------

  /** Mid-sweep, the updates so far are legal and have brought the replica to where the sweep is. */
  ghost predicate InStep(r: Replica, own: seq<Order>, t: Taker, s: Sweep, stale: Stale) {
    && LegalTo(r, s.updates)
    && Holds(Replay(r, s.updates), Opposite(t.side), s.resting, own, Corrected(stale, s.updates))
  }

  ghost predicate OfSide(side: Side, s: seq<Order>) {
    forall i :: 0 <= i < |s| ==> s[i].side == side
  }

  /** The maker's update does to the replica what the fill did to the side. */
  lemma MakerFeed(ticker: nat, r: Replica, side: Side, s: seq<Order>, own: seq<Order>, stale: Stale, fill: nat)
    requires Holds(r, side, s, own, stale) && OnlyOne(s, 0, own) && s[0].side == side && 0 < fill <= s[0].qty
    ensures var u := MakerUpdate(ticker, s[0], s[0].qty - fill);
            && LegalNext(r, u)
            && Holds(Apply(r, u), side,
                     if s[0].qty == fill then s[1..] else [s[0].(qty := s[0].qty - fill)] + s[1..], own,
                     stale - {s[0].id})
  {
    var u := MakerUpdate(ticker, s[0], s[0].qty - fill);
    if s[0].qty == fill {
      CancelShown(r, side, s, own, stale, 0, u);
      assert RemoveAt(s, 0) == s[1..];
    } else {
      ModifyShown(r, side, s, own, stale, 0, u);
      assert s[0 := s[0].(qty := u.qty)] == [s[0].(qty := u.qty)] + s[1..];
    }
  }

  /** `s1` is `s` with one fill's trade and change sent. */
  lemma FillFeed(r: Replica, own: seq<Order>, t: Taker, s: Sweep, s1: Sweep, stale: Stale, trade: MarketUpdate,
                 change: MarketUpdate)
    requires trade.kind == TRADE && change.kind in {MODIFY, CANCEL} && s1.updates == s.updates + [trade, change]
    requires LegalTo(r, s.updates) && LegalNext(Replay(r, s.updates), change)
    requires Holds(Apply(Replay(r, s.updates), change), Opposite(t.side), s1.resting, own,
                   Corrected(stale, s.updates) - {change.orderId})
    ensures InStep(r, own, t, s1, stale)
  {
    var us := s.updates;
    assert s1.updates == us + [trade] + [change];
    CorrectedStep(stale, us, trade);
    CorrectedStep(stale, us + [trade], change);
    LegalStep(r, us, Replay(r, us), trade);
    LegalStep(r, us + [trade], Replay(r, us), change);
  }

  lemma MatchHeadFeed(ticker: nat, r: Replica, own: seq<Order>, t: Taker, s: Sweep, stale: Stale)
    requires OnlyOne(s.resting, 0, own) && s.resting[0].side == Opposite(t.side)
    requires s.resting[0].qty > 0 && Matchable(t, s)
    requires InStep(r, own, t, s, stale)
    ensures InStep(r, own, t, MatchHead(ticker, t, s), stale)
  {
    var maker := s.resting[0];
    var fill := Min(maker.qty, s.left);
    MakerFeed(ticker, Replay(r, s.updates), Opposite(t.side), s.resting, own, Corrected(stale, s.updates), fill);
    FillFeed(r, own, t, s, MatchHead(ticker, t, s), stale,
             TradeUpdate(ticker, t, maker, fill), MakerUpdate(ticker, maker, maker.qty - fill));
  }

  lemma HeadIsOnlyOne(own: seq<Order>, t: Taker, s: Sweep)
    requires MidSweepInv(own, t, s) && s.resting != []
    ensures OnlyOne(s.resting, 0, own) && s.resting[0].qty > 0
  {
  }

  lemma {:induction false} SweepFeed(ticker: nat, r: Replica, own: seq<Order>, t: Taker, s: Sweep, stale: Stale)
    requires MidSweepInv(own, t, s) && OfSide(Opposite(t.side), s.resting) && InStep(r, own, t, s, stale)
    ensures InStep(r, own, t, SweepAll(ticker, t, s), stale)
    decreases |s.resting|, s.left
  {
    if Matchable(t, s) {
      MatchHeadKeepsInv(ticker, own, t, s);
      HeadIsOnlyOne(own, t, s);
      MatchHeadFeed(ticker, r, own, t, s, stale);
      SweepFeed(ticker, r, own, t, MatchHead(ticker, t, s), stale);
    }
  }

  // ---------- the two requests ----------

  ghost predicate StaleOld(stale: Stale, b: Book) {
    forall id :: id in stale ==> id < b.nextId
  }

  lemma SweptFeed(ticker: nat, b: Book, r: Request, stale: Stale)
    requires BookInv(b) && r.NewOrder? && r.side != NO_SIDE
    ensures var us := Swept(ticker, b, r).updates;
            LegalTo(View(b, stale), us)
                && Replay(View(b, stale), us) == View(SweptBook(ticker, b, r), Corrected(stale, us))
  {
    var own, opp := Resting(b, r.side), Opposite(r.side);
    var s := Sweep(Resting(b, opp), r.qty, [Accepted(ticker, b, r)], []);
    SweepFeed(ticker, View(b, stale), own, TakerOf(b, r), s, stale);
    SweptBookSides(ticker, b, r);
  }

  ghost predicate Youngest(b: Book, o: Order) {
    && o.side != NO_SIDE
    && IdsBelow(b.bids, o.id) && IdsBelow(b.asks, o.id)
    && (forall i :: 0 <= i < |Resting(b, o.side)| && Resting(b, o.side)[i].price == o.price ==>
       Resting(b, o.side)[i].priority < o.priority)
  }

  lemma SideFacts(side: Side, s: seq<Order>, nextId: nat)
    requires SideInv(side, s, nextId)
    ensures IdsBelow(s, nextId) && AllPositive(s) && Sorted(side, s)
  {
  }

  lemma RemainderIsYoungest(ticker: nat, b: Book, r: Request)
    requires BookInv(b) && r.NewOrder? && r.side != NO_SIDE && Swept(ticker, b, r).left > 0
    ensures Youngest(SweptBook(ticker, b, r), Remainder(ticker, b, r))
  {
    SideFacts(BUY, b.bids, b.nextId);
    SideFacts(SELL, b.asks, b.nextId);
    SweptIsOlder(ticker, b, r);
    SweptBookSides(ticker, b, r);
    NextPriorityIsAbove(Resting(b, r.side), r.side, r.price);
  }

  lemma SweptIsOlder(ticker: nat, b: Book, r: Request)
    requires r.NewOrder? && IdsBelow(Resting(b, Opposite(r.side)), b.nextId)
    requires AllPositive(Resting(b, Opposite(r.side)))
    ensures IdsBelow(Swept(ticker, b, r).resting, b.nextId)
  {
    SweptTrims(ticker, b, r);
    TrimmedIds(Swept(ticker, b, r).resting, Resting(b, Opposite(r.side)), b.nextId);
  }

  lemma TrimmedIds(t: seq<Order>, s: seq<Order>, id: nat)
    requires Trimmed(t, s) && IdsBelow(s, id)
    ensures IdsBelow(t, id)
  {
  }

  /** Publishing the youngest order is legal and rests it in the replica with its entry quantity. */
  lemma RestFeed(ticker: nat, b: Book, o: Order, entryQty: nat, stale: Stale)
    requires Youngest(b, o) && o.id !in stale && o.qty <= entryQty
    ensures var u := AddUpdate(ticker, o, entryQty);
            && LegalNext(View(b, stale), u)
            && Apply(View(b, stale), u) == View(WithSide(b, o.side, Insert(Resting(b, o.side), o)),
                                                if o.qty < entryQty then stale[o.id := entryQty] else stale)
  {
    RestedView(b, o, entryQty, stale);
  }

  lemma AddFeed(ticker: nat, b: Book, r: Request, stale: Stale)
    requires BookInv(b) && r.NewOrder? && r.side != NO_SIDE && StaleOld(stale, b)
    ensures var out := Add(ticker, b, r);
            LegalTo(View(b, stale), out.updates)
                && Replay(View(b, stale), out.updates) == View(out.book, StaleNext(ticker, b, r, stale))
  {
    SweptFeed(ticker, b, r, stale);
    RemainderShrinks(ticker, b, r);
    if Swept(ticker, b, r).left > 0 {
      RemainderFeed(ticker, b, r, stale, Swept(ticker, b, r).updates);
    }
  }

  lemma RemainderFeed(ticker: nat, b: Book, r: Request, stale: Stale, us: seq<MarketUpdate>)
    requires BookInv(b) && r.NewOrder? && r.side != NO_SIDE && StaleOld(stale, b)
    requires us == Swept(ticker, b, r).updates && Swept(ticker, b, r).left > 0
    requires LegalTo(View(b, stale), us)
    requires Replay(View(b, stale), us) == View(SweptBook(ticker, b, r), Corrected(stale, us))
    ensures var out := Add(ticker, b, r);
            LegalTo(View(b, stale), out.updates)
                && Replay(View(b, stale), out.updates) == View(out.book, StaleNext(ticker, b, r, stale))
  {
    var mid, o, st := SweptBook(ticker, b, r), Remainder(ticker, b, r), Corrected(stale, us);
    var u := AddUpdate(ticker, o, r.qty);
    RemainderIsYoungest(ticker, b, r);
    CorrectedShrinks(stale, us);
    CorrectedStep(stale, us, u);
    RemainderShrinks(ticker, b, r);
    RestFeed(ticker, mid, o, r.qty, st);
    LegalStep(View(b, stale), us, View(mid, st), u);
  }

  /** The remainder is less than what was asked for exactly when something was filled. */
  lemma RemainderShrinks(ticker: nat, b: Book, r: Request)
    requires BookInv(b) && r.NewOrder?
    ensures Swept(ticker, b, r).left <= r.qty
    ensures PartlyFilledOnEntry(b, r) <==> 0 < Swept(ticker, b, r).left < r.qty
  {
    SweepClosedForm(ticker, TakerOf(b, r), Sweep(Resting(b, Opposite(r.side)), r.qty, [Accepted(ticker, b, r)], []));
  }

  /** Resting an order shown with its entry quantity marks it exactly when that is not its quantity. */
  lemma RestedView(b: Book, o: Order, entryQty: nat, stale: Stale)
    requires o.side != NO_SIDE && o.id !in stale && o.qty <= entryQty
    requires forall i :: 0 <= i < |b.bids| ==> b.bids[i].id != o.id
    requires forall i :: 0 <= i < |b.asks| ==> b.asks[i].id != o.id
    ensures var stale' := if o.qty < entryQty then stale[o.id := entryQty] else stale;
            var shown := o.(owner := Public(o.id), qty := entryQty);
            With(View(b, stale), o.side, Insert(Of(View(b, stale), o.side), shown))
            == View(WithSide(b, o.side, Insert(Resting(b, o.side), o)), stale')
  {
    var stale' := if o.qty < entryQty then stale[o.id := entryQty] else stale;
    ShownWithNew(b.bids, stale, o.id, entryQty);
    ShownWithNew(b.asks, stale, o.id, entryQty);
    ShownInsert(Resting(b, o.side), o, stale');
  }

  lemma WithdrawnFeed(ticker: nat, b: Book, side: Side, k: nat, stale: Stale)
    requires BookInv(b) && side != NO_SIDE && k < |Resting(b, side)|
    ensures var out := Withdrawn(ticker, b, side, k);
            LegalTo(View(b, stale), out.updates)
                && Replay(View(b, stale), out.updates) == View(out.book, Corrected(stale, out.updates))
  {
    var u := Withdrawn(ticker, b, side, k).updates[0];
    CancelShown(View(b, stale), side, Resting(b, side), Resting(b, Opposite(side)), stale, k, u);
    LegalStep(View(b, stale), [], View(b, stale), u);
    CorrectedStep(stale, [], u);
    assert [] + [u] == [u];
  }

  lemma ProcessFeed(ticker: nat, b: Book, r: Request, stale: Stale)
    requires BookInv(b) && Acceptable(ticker, b, r) && StaleOld(stale, b)
    ensures var out := Process(ticker, b, r);
            && LegalTo(View(b, stale), out.updates)
            && Replay(View(b, stale), out.updates) == View(out.book, StaleNext(ticker, b, r, stale))
            && StaleOld(StaleNext(ticker, b, r, stale), out.book)
  {
    CorrectedShrinks(stale, Process(ticker, b, r).updates);
    if r.NewOrder? {
      AddFeed(ticker, b, r, stale);
      SweptBookSides(ticker, b, r);
    } else {
      var owner := Client(r.client, r.orderId);
      if Owns(b.bids, owner) {
        WithdrawnFeed(ticker, b, BUY, Locate(b.bids, owner), stale);
      } else if Owns(b.asks, owner) {
        WithdrawnFeed(ticker, b, SELL, Locate(b.asks, owner), stale);
      }
    }
  }

  /** Over any history: the stream is legal, and a replica fed with it shows the book. */
  lemma {:induction false} RunFeed(ticker: nat, rs: seq<Request>)
    requires Admitted(ticker, rs)
    ensures LegalTo(BLANK, Run(ticker, rs).updates)
    ensures Replay(BLANK, Run(ticker, rs).updates) == View(Run(ticker, rs).book, StaleAfter(ticker, rs))
    ensures StaleOld(StaleAfter(ticker, rs), Run(ticker, rs).book)
  {
    if rs != [] {
      var init, last := rs[..|rs| - 1], rs[|rs| - 1];
      var before := Run(ticker, init);
      RunFeed(ticker, init);
      RunKeepsInv(ticker, init);
      ProcessFeed(ticker, before.book, last, StaleAfter(ticker, init));
      var us := Process(ticker, before.book, last).updates;
      LegalConcat(BLANK, before.updates, us);
      ReplayConcat(BLANK, before.updates, us);
    }
  }

  // ---------- where the replica is exact ----------

  /** Every marked order that still rests is shown with more than it has. */
  ghost predicate Overstated(s: seq<Order>, stale: Stale) {
    forall i :: 0 <= i < |s| && s[i].id in stale ==> stale[s[i].id] > s[i].qty
  }

  lemma {:induction false} SweepKeepsOverstated(ticker: nat, own: seq<Order>, t: Taker, s: Sweep, stale: Stale)
    requires MidSweepInv(own, t, s) && Overstated(s.resting, Corrected(stale, s.updates))
    requires Overstated(own, Corrected(stale, s.updates))
    ensures var e := SweepAll(ticker, t, s);
            Overstated(e.resting, Corrected(stale, e.updates)) && Overstated(own, Corrected(stale, e.updates))
    decreases |s.resting|, s.left
  {
    if Matchable(t, s) {
      var s1 := MatchHead(ticker, t, s);
      var maker, us := s.resting[0], s.updates;
      var fill := Min(maker.qty, s.left);
      var trade, change := TradeUpdate(ticker, t, maker, fill), MakerUpdate(ticker, maker, maker.qty - fill);
      assert s1.updates == us + [trade] + [change];
      CorrectedStep(stale, us, trade);
      CorrectedStep(stale, us + [trade], change);
      MatchHeadKeepsInv(ticker, own, t, s);
      SweepKeepsOverstated(ticker, own, t, s1, stale);
    }
  }

  ghost predicate BookOverstated(b: Book, stale: Stale) {
    Overstated(b.bids, stale) && Overstated(b.asks, stale)
  }

  lemma AddKeepsOverstated(ticker: nat, b: Book, r: Request, stale: Stale)
    requires BookInv(b) && r.NewOrder? && Acceptable(ticker, b, r) && StaleOld(stale, b) && BookOverstated(b, stale)
    ensures BookOverstated(Add(ticker, b, r).book, StaleNext(ticker, b, r, stale))
  {
    var s := Swept(ticker, b, r);
    SweepKeepsOverstated(ticker, Resting(b, r.side), TakerOf(b, r),
                         Sweep(Resting(b, Opposite(r.side)), r.qty, [Accepted(ticker, b, r)], []), stale);
    SweptBookSides(ticker, b, r);
    RemainderShrinks(ticker, b, r);
    if s.left > 0 {
      RemainderKeepsOverstated(ticker, b, r, stale);
    }
  }

  lemma RemainderKeepsOverstated(ticker: nat, b: Book, r: Request, stale: Stale)
    requires BookInv(b) && r.NewOrder? && Acceptable(ticker, b, r) && StaleOld(stale, b) && Swept(ticker, b, r).left > 0
    requires var st := Corrected(stale, Swept(ticker, b, r).updates);
             Overstated(Swept(ticker, b, r).resting, st) && Overstated(Resting(b, r.side), st)
    ensures BookOverstated(Add(ticker, b, r).book, StaleNext(ticker, b, r, stale))
  {
    var us, o := Swept(ticker, b, r).updates, Remainder(ticker, b, r);
    RemainderIsYoungest(ticker, b, r);
    SweptBookSides(ticker, b, r);
    CorrectedStep(stale, us, AddUpdate(ticker, o, r.qty));
    CorrectedShrinks(stale, us);
    RemainderShrinks(ticker, b, r);
    InsertKeepsOverstated(Resting(b, r.side), o, Corrected(stale, us), r.qty);
    OverstatedWithNew(Swept(ticker, b, r).resting, Corrected(stale, us), o.id, r.qty);
  }

  lemma OverstatedWithNew(s: seq<Order>, stale: Stale, id: nat, qty: nat)
    requires Overstated(s, stale) && IdsBelow(s, id)
    ensures Overstated(s, stale[id := qty])
  {
  }

  lemma {:induction false} InsertKeepsOverstated(s: seq<Order>, o: Order, stale: Stale, entryQty: nat)
    requires Overstated(s, stale) && IdsBelow(s, o.id) && o.id !in stale && o.qty <= entryQty
    ensures Overstated(Insert(s, o), if o.qty < entryQty then stale[o.id := entryQty] else stale)
  {
    if s != [] && !Better(o.side, o.price, s[0].price) {
      InsertKeepsOverstated(s[1..], o, stale, entryQty);
    }
  }

  lemma ProcessKeepsOverstated(ticker: nat, b: Book, r: Request, stale: Stale)
    requires BookInv(b) && Acceptable(ticker, b, r) && StaleOld(stale, b) && BookOverstated(b, stale)
    ensures BookOverstated(Process(ticker, b, r).book, StaleNext(ticker, b, r, stale))
  {
    CorrectedShrinks(stale, Process(ticker, b, r).updates);
    if r.NewOrder? {
      AddKeepsOverstated(ticker, b, r, stale);
    }
  }

  lemma {:induction false} RunOverstates(ticker: nat, rs: seq<Request>)
    requires Admitted(ticker, rs)
    ensures BookOverstated(Run(ticker, rs).book, StaleAfter(ticker, rs))
  {
    if rs != [] {
      var init := rs[..|rs| - 1];
      RunOverstates(ticker, init);
      RunFeed(ticker, init);
      RunKeepsInv(ticker, init);
      ProcessKeepsOverstated(ticker, Run(ticker, init).book, rs[|rs| - 1], StaleAfter(ticker, init));
    }
  }

  ghost predicate Marked(s: seq<Order>, stale: Stale) {
    exists i :: 0 <= i < |s| && s[i].id in stale
  }

  lemma ShownExactly(s: seq<Order>, stale: Stale)
    requires Overstated(s, stale)
    ensures Shown(s, stale) == Shown(s, map[]) <==> !Marked(s, stale)
  {
    if Marked(s, stale) {
      var i :| 0 <= i < |s| && s[i].id in stale;
      assert Shown(s, stale)[i] != Shown(s, map[])[i];
    }
  }

  /** After any history the replica is the book itself, quantities included, exactly when no marked order rests. */
  lemma RunExactlyWhenUnmarked(ticker: nat, rs: seq<Request>)
    requires Admitted(ticker, rs)
    ensures var b, stale := Run(ticker, rs).book, StaleAfter(ticker, rs);
            Replay(BLANK, Run(ticker, rs).updates) == View(b, map[]) <==>
                !Marked(b.bids, stale) && !Marked(b.asks, stale)
  {
    RunFeed(ticker, rs);
    RunOverstates(ticker, rs);
    ShownExactly(Run(ticker, rs).book.bids, StaleAfter(ticker, rs));
    ShownExactly(Run(ticker, rs).book.asks, StaleAfter(ticker, rs));
  }

  lemma {:induction false} InsertHolds(s: seq<Order>, o: Order)
    ensures exists i :: 0 <= i < |Insert(s, o)| && Insert(s, o)[i] == o
  {
    if s != [] && !Better(o.side, o.price, s[0].price) {
      InsertHolds(s[1..], o);
      var i :| 0 <= i < |Insert(s[1..], o)| && Insert(s[1..], o)[i] == o;
      assert Insert(s, o)[i + 1] == o;
    } else {
      assert Insert(s, o)[0] == o;
    }
  }

  /** From an exact replica, one request leaves it exact if and only if it does not rest partly filled. */
  lemma ExactUnlessPartlyFilled(ticker: nat, b: Book, r: Request)
    requires BookInv(b) && Acceptable(ticker, b, r)
    ensures Replay(View(b, map[]), Process(ticker, b, r).updates) == View(Process(ticker, b, r).book, map[])
            <==> !PartlyFilledOnEntry(b, r)
  {
    var b', stale := Process(ticker, b, r).book, StaleNext(ticker, b, r, map[]);
    ProcessFeed(ticker, b, r, map[]);
    ProcessKeepsOverstated(ticker, b, r, map[]);
    CorrectedShrinks(map[], Process(ticker, b, r).updates);
    ShownExactly(b'.bids, stale);
    ShownExactly(b'.asks, stale);
    if PartlyFilledOnEntry(b, r) {
      PartlyFilledIsMarked(ticker, b, r, stale);
    }
  }

  lemma PartlyFilledIsMarked(ticker: nat, b: Book, r: Request, stale: Stale)
    requires BookInv(b) && PartlyFilledOnEntry(b, r) && r.side != NO_SIDE && b.nextId in stale
    ensures Marked(Resting(Add(ticker, b, r).book, r.side), stale)
  {
    RemainderShrinks(ticker, b, r);
    SweptBookSides(ticker, b, r);
    InsertHolds(Resting(b, r.side), Remainder(ticker, b, r));
  }

  /** A buyer of 8 meets a seller of 5: the book rests 3, the replica shows 8. */
  lemma PartlyFilledOrderIsOverstated()
    ensures var sell, buy := NewOrder(1, 1, SELL, 10, 5), NewOrder(2, 1, BUY, 10, 8);
            && Admitted(0, [sell, buy])
            && Run(0, [sell, buy]).book.bids == [Order(2, Client(2, 1), BUY, 10, 3, 1)]
            && Replay(BLANK, Run(0, [sell, buy]).updates).bids == [Order(2, Public(2), BUY, 10, 8, 1)]
  {
    var sell, buy := NewOrder(1, 1, SELL, 10, 5), NewOrder(2, 1, BUY, 10, 8);
    var b := Book([], [Order(1, Client(1, 1), SELL, 10, 5, 1)], 2);
    SellerRests(sell, b);
    BuyerIsPartlyFilled(buy, b);
    TwoRequests(0, sell, buy);
    RunFeed(0, [sell, buy]);
    assert Replay(BLANK, Run(0, [sell, buy]).updates) == View(Run(0, [sell, buy]).book, StaleAfter(0, [sell, buy]));
  }

  lemma SellerRests(sell: Request, b: Book)
    requires sell == NewOrder(1, 1, SELL, 10, 5) && b == Book([], [Order(1, Client(1, 1), SELL, 10, 5, 1)], 2)
    ensures Acceptable(0, EMPTY, sell) && Process(0, EMPTY, sell).book == b && StaleNext(0, EMPTY, sell, map[]) == map[]
  {
    CorrectedShrinks(map[], Process(0, EMPTY, sell).updates);
  }

  lemma BuyerIsPartlyFilled(buy: Request, b: Book)
    requires buy == NewOrder(2, 1, BUY, 10, 8) && b == Book([], [Order(1, Client(1, 1), SELL, 10, 5, 1)], 2)
    ensures Acceptable(0, b, buy) && Process(0, b, buy).book.bids == [Order(2, Client(2, 1), BUY, 10, 3, 1)]
    ensures StaleNext(0, b, buy, map[]) == map[2 := 8]
  {
    assert MatchHead(0, TakerOf(b, buy), Sweep(b.asks, 8, [Accepted(0, b, buy)], [])).resting == [];
    assert Swept(0, b, buy).resting == [] && Swept(0, b, buy).left == 3;
    CorrectedShrinks(map[], Process(0, b, buy).updates);
  }

  /** A history of two, request by request. */
  lemma TwoRequests(ticker: nat, first: Request, second: Request)
    requires Acceptable(ticker, EMPTY, first) && Acceptable(ticker, Process(ticker, EMPTY, first).book, second)
    ensures Admitted(ticker, [first, second])
    ensures Run(ticker, [first, second]).book == Process(ticker, Process(ticker, EMPTY, first).book, second).book
    ensures StaleAfter(ticker, [first, second])
         == StaleNext(ticker, Process(ticker, EMPTY, first).book, second, StaleNext(ticker, EMPTY, first, map[]))
  {
    OneRequest(ticker, first);
    assert [first, second][..|[first, second]| - 1] == [first];
  }

  lemma OneRequest(ticker: nat, r: Request)
    requires Acceptable(ticker, EMPTY, r)
    ensures Admitted(ticker, [r]) && Run(ticker, [r]).book == Process(ticker, EMPTY, r).book
    ensures StaleAfter(ticker, [r]) == StaleNext(ticker, EMPTY, r, map[])
  {
    assert [r][..|[r]| - 1] == [];
    assert Run(ticker, []).book == EMPTY && StaleAfter(ticker, []) == map[];
  }
}

/**
 The synthesizer's table follows the engine's stream without ever meeting an order it does not
 expect, and a snapshot of it followed by the rest of the stream rebuilds every replica.
 */
module LateJoiner {
  import opened MarketTypes
  import opened Sequences
  import opened PriceTimeBook
  import opened BookSafety
  import opened Lifecycle
  import opened ReplicaBook
  import opened Replication
  import opened MarketFeed

  // ---------- the replica, order by order ----------

  function Find(r: Replica, id: nat): Option<Order> {
    var side := SideOf(r, id);
    if side == NO_SIDE then None else Some(Of(r, side)[Seek(Of(r, side), id)])
  }

  predicate Has(r: Replica, o: Order) {
    o in r.bids || o in r.asks
  }

  lemma FindIff(r: Replica, id: nat)
    requires ReplicaInv(r)
    ensures forall o :: Find(r, id) == Some(o) <==> Has(r, o) && o.id == id
  {
    forall o | Has(r, o) && o.id == id ensures Find(r, id) == Some(o) {
      var side := if o in r.bids then BUY else SELL;
      var k :| 0 <= k < |Of(r, side)| && Of(r, side)[k] == o;
      FoundAt(r, side, k);
    }
  }

  /** With no id twice, `Find` is settled by what the replica holds. */
  lemma FindIs(r: Replica, id: nat, x: Option<Order>)
    requires ReplicaInv(r)
    requires x.Some? ==> Has(r, x.value) && x.value.id == id
    requires x.None? ==> forall o :: Has(r, o) ==> o.id != id
    ensures Find(r, id) == x
  {
    FindIff(r, id);
  }

  lemma {:induction false} InsertMembers(s: seq<Order>, o: Order)
    ensures forall x :: x in Insert(s, o) <==> x in s || x == o
  {
    if s != [] && !Better(o.side, o.price, s[0].price) {
      InsertMembers(s[1..], o);
    }
  }

  lemma RemoveMembers(s: seq<Order>, k: nat)
    requires k < |s| && forall i, j :: 0 <= i < j < |s| ==> s[i].id != s[j].id
    ensures forall x :: x in RemoveAt(s, k) <==> x in s && x.id != s[k].id
  {
    forall x | x in s && x.id != s[k].id ensures x in RemoveAt(s, k) {
      var i :| 0 <= i < |s| && s[i] == x;
      assert RemoveAt(s, k)[if i > k then i - 1 else i] == x;
    }
    forall x | x in RemoveAt(s, k) ensures x in s && x.id != s[k].id {
      var i :| 0 <= i < |RemoveAt(s, k)| && RemoveAt(s, k)[i] == x;
      assert s[if i >= k then i + 1 else i] == x;
    }
  }

  lemma RequantifiedMembers(s: seq<Order>, k: nat, qty: nat)
    requires k < |s| && forall i, j :: 0 <= i < j < |s| ==> s[i].id != s[j].id
    ensures forall x :: x in s[k := s[k].(qty := qty)] <==> (x in s && x.id != s[k].id) || x == s[k].(qty := qty)
  {
    var t := s[k := s[k].(qty := qty)];
    forall x | x in s && x.id != s[k].id ensures x in t {
      var i :| 0 <= i < |s| && s[i] == x;
      assert t[i] == x;
    }
    assert t[k] == s[k].(qty := qty);
  }

  /** What one legal update does to the order under each id. */
  function FindNext(r: Replica, u: MarketUpdate, id: nat): Option<Order> {
    if id != u.orderId then Find(r, id)
    else match u.kind
      case ADD => Some(OrderIn(u))
      case MODIFY => if Find(r, id).Some? then Some(Find(r, id).value.(qty := u.qty)) else None
      case CANCEL => None
      case _ => Find(r, id)
  }

  lemma NamedIsFound(r: Replica, u: MarketUpdate)
    requires ReplicaInv(r) && Names(r, u)
    ensures SideOf(r, u.orderId) == u.side && Find(r, u.orderId).Some? && SameOrder(Find(r, u.orderId).value, u)
    ensures Find(r, u.orderId).value.side == u.side
  {
    var k :| 0 <= k < |Of(r, u.side)| && SameOrder(Of(r, u.side)[k], u);
    FoundAt(r, u.side, k);
  }

  lemma ChangesSide(r: Replica, u: MarketUpdate, side: Side, k: nat)
    requires ReplicaInv(r) && u.kind in {MODIFY, CANCEL} && side != NO_SIDE
    requires k < |Of(r, side)| && Of(r, side)[k].id == u.orderId
    ensures var s := Of(r, side);
            Of(Apply(r, u), side) == if u.kind == CANCEL then RemoveAt(s, k) else s[k := s[k].(qty := u.qty)]
    ensures Of(Apply(r, u), Opposite(side)) == Of(r, Opposite(side))
    ensures forall x :: x in Of(r, Opposite(side)) ==> x.id != u.orderId
    ensures forall i, j :: 0 <= i < j < |Of(r, side)| ==> Of(r, side)[i].id != Of(r, side)[j].id
  {
    FoundAt(r, side, k);
  }

  lemma ChangesOne(r: Replica, u: MarketUpdate, o: Order)
    requires ReplicaInv(r) && u.kind in {MODIFY, CANCEL} && Has(r, o) && o.id == u.orderId
    ensures forall x :: Has(Apply(r, u), x)
                        <==> (Has(r, x) && x.id != u.orderId) || (u.kind == MODIFY && x == o.(qty := u.qty))
  {
    var side := if o in r.bids then BUY else SELL;
    var s := Of(r, side);
    var k :| 0 <= k < |s| && s[k] == o;
    ChangesSide(r, u, side, k);
    if u.kind == CANCEL {
      RemoveMembers(s, k);
    } else {
      RequantifiedMembers(s, k, u.qty);
    }
  }

  lemma ChangeMembers(r: Replica, u: MarketUpdate)
    requires ReplicaInv(r) && Names(r, u) && u.kind in {MODIFY, CANCEL}
    ensures Find(r, u.orderId).Some?
    ensures forall x :: Has(Apply(r, u), x)
                        <==> (Has(r, x) && x.id != u.orderId)
                             || (u.kind == MODIFY && x == Find(r, u.orderId).value.(qty := u.qty))
  {
    NamedIsFound(r, u);
    FindIff(r, u.orderId);
    ChangesOne(r, u, Find(r, u.orderId).value);
  }

  /**
   Any change, named rightly or not: it is to the one order under that id, and to its quantity alone; or to nothing.
   */
  lemma ChangesById(r: Replica, u: MarketUpdate)
    requires ReplicaInv(r) && u.kind in {MODIFY, CANCEL}
    ensures (forall o :: Has(r, o) ==> o.id != u.orderId) ==> Apply(r, u) == r
    ensures forall o :: Has(r, o) && o.id == u.orderId ==>
              forall x :: Has(Apply(r, u), x)
                          <==> (Has(r, x) && x.id != u.orderId) || (u.kind == MODIFY && x == o.(qty := u.qty))
  {
    forall o | Has(r, o) && o.id == u.orderId
      ensures forall x :: Has(Apply(r, u), x)
                          <==> (Has(r, x) && x.id != u.orderId) || (u.kind == MODIFY && x == o.(qty := u.qty))
    {
      ChangesOne(r, u, o);
    }
  }

  lemma FindAfterAdd(r: Replica, u: MarketUpdate, id: nat)
    requires ReplicaInv(r) && u.kind == ADD && LegalNext(r, u)
    ensures Find(Apply(r, u), id) == FindNext(r, u, id)
  {
    FindIff(r, id);
    AddedInv(r, u);
    InsertMembers(Of(r, u.side), OrderIn(u));
    FindIs(Apply(r, u), id, FindNext(r, u, id));
  }

  lemma FindAfterChange(r: Replica, u: MarketUpdate, id: nat)
    requires ReplicaInv(r) && u.kind in {MODIFY, CANCEL} && LegalNext(r, u)
    ensures Find(Apply(r, u), id) == FindNext(r, u, id)
  {
    FindIff(r, id);
    ApplyKeepsInv(r, u);
    ChangeMembers(r, u);
    FindIff(r, u.orderId);
    FindIs(Apply(r, u), id, FindNext(r, u, id));
  }

  lemma FindAfter(r: Replica, u: MarketUpdate, id: nat)
    requires ReplicaInv(r) && LegalNext(r, u)
    ensures Find(Apply(r, u), id) == FindNext(r, u, id)
  {
    if u.kind == ADD {
      FindAfterAdd(r, u, id);
    } else if u.kind != TRADE {
      FindAfterChange(r, u, id);
    }
  }

  // ---------- the table follows ----------

  function AsAdd(ticker: nat, o: Order): MarketUpdate {
    MarketUpdate(ADD, o.id, ticker, o.side, o.price, o.qty, o.priority)
  }

  function Listed(ticker: nat, x: Option<Order>): Option<MarketUpdate> {
    if x.Some? then Some(AsAdd(ticker, x.value)) else None
  }

  /** The table's entries for a ticker are the replica's orders. */
  ghost predicate Lists(t: Table, ticker: nat, r: Replica) {
    forall id: nat :: Get(t, Key(ticker, id)) == Listed(ticker, Find(r, id))
  }

  /** The conditions the synthesizer asserts before it changes its table. */
  predicate Expected(t: Table, u: MarketUpdate) {
    match u.kind
    case ADD => KeyOf(u) !in t
    case MODIFY => KeyOf(u) in t && t[KeyOf(u)].orderId == u.orderId && t[KeyOf(u)].side == u.side
    case CANCEL => KeyOf(u) in t && t[KeyOf(u)].orderId == u.orderId && t[KeyOf(u)].side == u.side
    case _ => true
  }

  /** The update's ticker and order id are within the table's bounds. */
  predicate InRange(u: MarketUpdate) {
    u.ticker < MAX_TICKERS && (u.kind in {ADD, MODIFY, CANCEL} ==> u.orderId < MAX_ORDER_IDS)
  }

  lemma FreshIdIsUnknown(r: Replica, u: MarketUpdate)
    requires ReplicaInv(r) && u.kind == ADD && LegalNext(r, u)
    ensures Find(r, u.orderId) == None
  {
  }

  lemma ExpectedNext(t: Table, ticker: nat, r: Replica, u: MarketUpdate)
    requires ReplicaInv(r) && LegalNext(r, u) && Get(t, KeyOf(u)) == Listed(ticker, Find(r, u.orderId))
    ensures Expected(t, u)
    ensures u.kind in {MODIFY, CANCEL} ==> Find(r, u.orderId).Some? && SameOrder(Find(r, u.orderId).value, u)
  {
    if u.kind == ADD {
      FreshIdIsUnknown(r, u);
    } else if u.kind != TRADE {
      NamedIsFound(r, u);
    }
  }

  /** What an update does to one entry of the table is what it does to the order. */
  lemma EntryNext(t: Table, ticker: nat, r: Replica, u: MarketUpdate, id: nat)
    requires u.ticker == ticker && u.kind in {ADD, MODIFY, CANCEL, TRADE}
    requires u.kind == MODIFY ==> Find(r, u.orderId).Some? && SameOrder(Find(r, u.orderId).value, u)
    requires Get(t, Key(ticker, id)) == Listed(ticker, Find(r, id))
    ensures Get(Fold(t, u), Key(ticker, id)) == Listed(ticker, FindNext(r, u, id))
  {
  }

  lemma ListsNext(t: Table, ticker: nat, r: Replica, u: MarketUpdate)
    requires ReplicaInv(r) && LegalNext(r, u) && u.ticker == ticker && Lists(t, ticker, r)
    ensures Expected(t, u) && Lists(Fold(t, u), ticker, Apply(r, u))
  {
    assert Get(t, Key(ticker, u.orderId)) == Listed(ticker, Find(r, u.orderId));
    ExpectedNext(t, ticker, r, u);
    forall id: nat ensures Get(Fold(t, u), Key(ticker, id)) == Listed(ticker, Find(Apply(r, u), id)) {
      assert Get(t, Key(ticker, id)) == Listed(ticker, Find(r, id));
      EntryNext(t, ticker, r, u, id);
      FindAfter(r, u, id);
    }
  }

  function Only(us: seq<MarketUpdate>, ticker: nat): seq<MarketUpdate> {
    if us == [] then []
    else if us[|us| - 1].ticker == ticker then Only(us[..|us| - 1], ticker) + [us[|us| - 1]]
    else Only(us[..|us| - 1], ticker)
  }

  lemma {:induction false} OnlyConcat(us: seq<MarketUpdate>, vs: seq<MarketUpdate>, ticker: nat)
    ensures Only(us + vs, ticker) == Only(us, ticker) + Only(vs, ticker)
  {
    if vs == [] {
      assert us + vs == us;
    } else {
      OnlyConcat(us, vs[..|vs| - 1], ticker);
      ConcatInit(us, vs);
    }
  }

  /** Updates of several tickers interleaved in any way, each ticker's own being legal. */
  ghost predicate LegalMarket(us: seq<MarketUpdate>) {
    && (forall i :: 0 <= i < |us| ==> InRange(us[i]))
    && forall ticker :: 0 <= ticker < MAX_TICKERS ==> LegalTo(BLANK, Only(us, ticker))
  }

  ghost function ReplicaAt(us: seq<MarketUpdate>, ticker: nat): Replica {
    Replay(BLANK, Only(us, ticker))
  }

  lemma LegalMarketInit(us: seq<MarketUpdate>)
    requires LegalMarket(us) && us != []
    ensures LegalMarket(us[..|us| - 1])
    ensures var u := us[|us| - 1];
            && LegalNext(ReplicaAt(us[..|us| - 1], u.ticker), u)
            && ReplicaAt(us, u.ticker) == Apply(ReplicaAt(us[..|us| - 1], u.ticker), u)
    ensures forall ticker :: 0 <= ticker != us[|us| - 1].ticker ==>
            ReplicaAt(us, ticker) == ReplicaAt(us[..|us| - 1], ticker)
  {
    var init, u := us[..|us| - 1], us[|us| - 1];
    assert InRange(u);
    forall ticker | 0 <= ticker < MAX_TICKERS ensures LegalTo(BLANK, Only(init, ticker)) {
      assert LegalTo(BLANK, Only(us, ticker));
      assert (Only(init, ticker) + [u])[..|Only(init, ticker)|] == Only(init, ticker);
      assert Only(init, ticker) + [] == Only(init, ticker);
    }
    assert LegalTo(BLANK, Only(us, u.ticker));
    assert Only(us, u.ticker) == Only(init, u.ticker) + [u];
    assert (Only(init, u.ticker) + [u])[..|Only(init, u.ticker)|] == Only(init, u.ticker);
    forall ticker | 0 <= ticker != u.ticker ensures ReplicaAt(us, ticker) == ReplicaAt(init, ticker) {
      assert Only(init, ticker) + [] == Only(init, ticker);
    }
  }

  /** The table lists the ticker's replica, which is sorted and free of duplicates. */
  ghost predicate Follows(us: seq<MarketUpdate>, ticker: nat) {
    ReplicaInv(ReplicaAt(us, ticker)) && Lists(FoldAll(map[], us), ticker, ReplicaAt(us, ticker))
  }

  lemma FollowsNext(us: seq<MarketUpdate>, ticker: nat)
    requires LegalMarket(us) && us != [] && ticker < MAX_TICKERS && Follows(us[..|us| - 1], ticker)
    ensures Follows(us, ticker)
    ensures ticker == us[|us| - 1].ticker ==> Expected(FoldAll(map[], us[..|us| - 1]), us[|us| - 1])
  {
    var init, u := us[..|us| - 1], us[|us| - 1];
    LegalMarketInit(us);
    ReplayKeepsInv(BLANK, Only(us, ticker));
    if ticker == u.ticker {
      ListsNext(FoldAll(map[], init), ticker, ReplicaAt(init, ticker), u);
    } else {
      ListsOther(FoldAll(map[], init), u, ticker, ReplicaAt(init, ticker));
    }
  }

  /** After any legal market stream the table is well formed, lists every replica, and met nothing unexpected. */
  lemma {:induction false} TableFollows(us: seq<MarketUpdate>)
    requires LegalMarket(us)
    ensures TableOk(FoldAll(map[], us))
    ensures forall ticker {:trigger Follows(us, ticker)} :: 0 <= ticker < MAX_TICKERS ==> Follows(us, ticker)
    ensures us != [] ==> Expected(FoldAll(map[], us[..|us| - 1]), us[|us| - 1])
  {
    if us == [] {
      forall ticker | 0 <= ticker < MAX_TICKERS ensures Follows(us, ticker) {
        assert Lists(map[], ticker, BLANK);
      }
    } else {
      var init, u := us[..|us| - 1], us[|us| - 1];
      LegalMarketInit(us);
      TableFollows(init);
      forall ticker | 0 <= ticker < MAX_TICKERS ensures Follows(us, ticker) {
        assert Follows(init, ticker);
        FollowsNext(us, ticker);
      }
      assert InRange(u) && Follows(init, u.ticker);
      FollowsNext(us, u.ticker);
      FoldKeepsOk(FoldAll(map[], init), u);
    }
  }

  lemma FoldKeepsOk(t: Table, u: MarketUpdate)
    requires TableOk(t) && InRange(u)
    ensures TableOk(Fold(t, u))
  {
  }

  lemma ListsOther(t: Table, u: MarketUpdate, ticker: nat, r: Replica)
    requires Lists(t, ticker, r) && u.ticker != ticker
    ensures Lists(Fold(t, u), ticker, r)
  {
    forall id: nat ensures Get(Fold(t, u), Key(ticker, id)) == Listed(ticker, Find(r, id)) {
      assert Get(t, Key(ticker, id)) == Listed(ticker, Find(r, id));
    }
  }

  // ---------- a snapshot rebuilds the replica ----------

  /** The orders with ids below `n`, in place. */
  function Below(s: seq<Order>, n: nat): seq<Order> {
    if s == [] then []
    else if s[0].id < n then [s[0]] + Below(s[1..], n)
    else Below(s[1..], n)
  }

  lemma {:induction false} BelowMembers(s: seq<Order>, n: nat)
    ensures forall x :: x in Below(s, n) ==> x in s && x.id < n
  {
    if s != [] {
      BelowMembers(s[1..], n);
    }
  }

  lemma {:induction false} BelowAll(s: seq<Order>, n: nat)
    requires forall i :: 0 <= i < |s| ==> s[i].id < n
    ensures Below(s, n) == s
  {
    if s != [] {
      BelowAll(s[1..], n);
    }
  }

  lemma {:induction false} BelowSkips(s: seq<Order>, n: nat)
    requires forall i :: 0 <= i < |s| ==> s[i].id != n
    ensures Below(s, n + 1) == Below(s, n)
  {
    if s != [] {
      BelowSkips(s[1..], n);
    }
  }

  lemma InsertBehind(h: Order, s: seq<Order>, o: Order)
    requires !Better(o.side, o.price, h.price)
    ensures Insert([h] + s, o) == [h] + Insert(s, o)
  {
    assert ([h] + s)[1..] == s;
  }

  /** The next id goes exactly where insertion puts it: ascending id is time priority within a price. */
  lemma {:induction false} BelowInserts(side: Side, s: seq<Order>, k: nat)
    requires side != NO_SIDE && OneSide(side, s) && k < |s|
    ensures Below(s, s[k].id + 1) == Insert(Below(s, s[k].id), s[k])
  {
    if k > 0 {
      var o := s[k];
      assert s[0].id != o.id && Before(side, s[0], o);
      TailOneSide(side, s);
      BelowInserts(side, s[1..], k - 1);
      InsertBehind(s[0], Below(s[1..], o.id), o);
    } else {
      TailBehindHead(side, s);
      HeadIsKept(s, s[0], Below(s, s[0].id));
    }
  }

  /** Behind the head, an order with a smaller id has a strictly worse price. */
  ghost predicate BehindHead(o: Order, x: Order) {
    x.id != o.id && (x.id < o.id ==> Better(o.side, o.price, x.price))
  }

  ghost predicate AllBehind(o: Order, tail: seq<Order>) {
    forall x {:trigger BehindHead(o, x)} :: x in tail ==> BehindHead(o, x)
  }

  lemma TailBehindHead(side: Side, s: seq<Order>)
    requires OneSide(side, s) && s != []
    ensures AllBehind(s[0], s[1..])
  {
    forall x | x in s[1..] ensures BehindHead(s[0], x) {
      var i :| 1 <= i < |s| && s[i] == x;
      assert Before(side, s[0], s[i]) && s[0].id != s[i].id;
    }
  }

  lemma GoesFirst(o: Order, tail: seq<Order>, before: seq<Order>)
    requires AllBehind(o, tail) && before == Below(tail, o.id)
    ensures Insert(before, o) == [o] + Below(tail, o.id + 1)
  {
    forall i | 0 <= i < |tail| ensures tail[i].id != o.id {
      assert BehindHead(o, tail[i]);
    }
    BelowSkips(tail, o.id);
    BelowMembers(tail, o.id);
    if before != [] {
      assert before[0] in tail && BehindHead(o, before[0]);
    }
    InsertFirst(before, o);
  }

  lemma HeadIsKept(s: seq<Order>, o: Order, before: seq<Order>)
    requires s != [] && s[0] == o && before == Below(s, o.id) && AllBehind(o, s[1..])
    ensures Below(s, o.id + 1) == Insert(before, o)
  {
    GoesFirst(o, s[1..], before);
  }

  lemma InsertFirst(s: seq<Order>, o: Order)
    requires s != [] ==> Better(o.side, o.price, s[0].price)
    ensures Insert(s, o) == [o] + s
  {
  }

  lemma TailOneSide(side: Side, s: seq<Order>)
    requires OneSide(side, s) && s != []
    ensures OneSide(side, s[1..])
  {
    var t := s[1..];
    forall i, j | 0 <= i < j < |t| ensures Before(side, t[i], t[j]) && t[i].id != t[j].id {
      assert Before(side, s[i + 1], s[j + 1]);
    }
  }

  function BelowBoth(r: Replica, n: nat): Replica {
    Replica(Below(r.bids, n), Below(r.asks, n))
  }

  lemma BelowNextSide(r: Replica, side: Side, n: nat)
    requires ReplicaInv(r) && side != NO_SIDE
    ensures Below(Of(r, side), n + 1)
         == if Find(r, n).Some? && Find(r, n).value.side == side then Insert(Below(Of(r, side), n), Find(r, n).value)
            else Below(Of(r, side), n)
  {
    FindIff(r, n);
    if SideOf(r, n) == side {
      BelowInserts(side, Of(r, side), Seek(Of(r, side), n));
    } else {
      BelowSkips(Of(r, side), n);
    }
  }

  /** The table's next id either adds its order or changes nothing. */
  ghost predicate Grows(t: Table, ticker: nat, r: Replica, n: nat) {
    BelowBoth(r, n + 1) == if Key(ticker, n) in t then Apply(BelowBoth(r, n), t[Key(ticker, n)]) else BelowBoth(r, n)
  }

  lemma BelowNext(t: Table, ticker: nat, r: Replica, n: nat)
    requires ReplicaInv(r) && Lists(t, ticker, r)
    ensures Grows(t, ticker, r, n)
  {
    assert Get(t, Key(ticker, n)) == Listed(ticker, Find(r, n));
    BelowNextSide(r, BUY, n);
    BelowNextSide(r, SELL, n);
    if Find(r, n).Some? {
      FoundIsListed(r, ticker, n);
    }
  }

  lemma FoundIsListed(r: Replica, ticker: nat, id: nat)
    requires ReplicaInv(r) && Find(r, id).Some?
    ensures OrderIn(AsAdd(ticker, Find(r, id).value)) == Find(r, id).value && Find(r, id).value.side != NO_SIDE
  {
  }

  lemma StoredReplay(t: Table, ticker: nat, n: nat)
    ensures Replay(BLANK, Stored(t, ticker, n + 1))
         == if Key(ticker, n) in t then Apply(Replay(BLANK, Stored(t, ticker, n)), t[Key(ticker, n)])
            else Replay(BLANK, Stored(t, ticker, n))
  {
    if Key(ticker, n) in t {
      ReplayStep(BLANK, Stored(t, ticker, n), t[Key(ticker, n)]);
    }
  }

  lemma {:induction false} EmptyBelow(s: seq<Order>)
    ensures Below(s, 0) == []
  {
    if s != [] {
      EmptyBelow(s[1..]);
    }
  }

  /** Replaying the stored orders below `n` builds exactly that part of the replica. */
  ghost predicate Rebuilt(t: Table, ticker: nat, r: Replica, n: nat) {
    Replay(BLANK, Stored(t, ticker, n)) == BelowBoth(r, n)
  }

  lemma NothingRebuilt(t: Table, ticker: nat, r: Replica)
    ensures Rebuilt(t, ticker, r, 0)
  {
    EmptyBelow(r.bids);
    EmptyBelow(r.asks);
  }

  ghost predicate RebuildsNext(t: Table, ticker: nat, r: Replica, n: nat) {
    Rebuilt(t, ticker, r, n) ==> Rebuilt(t, ticker, r, n + 1)
  }

  lemma GrowingRebuilds(t: Table, ticker: nat, r: Replica, n: nat)
    requires Grows(t, ticker, r, n)
    ensures RebuildsNext(t, ticker, r, n)
  {
    StoredReplay(t, ticker, n);
  }

  lemma {:induction false} RebuiltUpTo(t: Table, ticker: nat, r: Replica, n: nat)
    requires Rebuilt(t, ticker, r, 0)
    requires forall m: nat {:trigger RebuildsNext(t, ticker, r, m)} :: RebuildsNext(t, ticker, r, m)
    ensures Rebuilt(t, ticker, r, n)
  {
    if n > 0 {
      RebuiltUpTo(t, ticker, r, n - 1);
      assert RebuildsNext(t, ticker, r, n - 1);
    }
  }

  /** Replaying the stored orders below `n` builds exactly that part of the replica, in its own order. */
  lemma StoredRebuilds(t: Table, ticker: nat, r: Replica, n: nat)
    requires ReplicaInv(r) && Lists(t, ticker, r)
    ensures Replay(BLANK, Stored(t, ticker, n)) == BelowBoth(r, n)
  {
    forall m: nat ensures RebuildsNext(t, ticker, r, m) {
      BelowNext(t, ticker, r, m);
      GrowingRebuilds(t, ticker, r, m);
    }
    NothingRebuilt(t, ticker, r);
    RebuiltUpTo(t, ticker, r, n);
  }

  lemma {:induction false} OnlyStored(t: Table, ticker: nat, n: nat, other: nat)
    requires TableOk(t)
    ensures Only(Stored(t, ticker, n), other) == if ticker == other then Stored(t, ticker, n) else []
  {
    if n > 0 {
      OnlyStored(t, ticker, n - 1, other);
      var k := Key(ticker, n - 1);
      if k in t {
        OnlyConcat(Stored(t, ticker, n - 1), [t[k]], other);
        OnlyOneUpdate(t[k], other);
      }
    }
  }

  lemma OnlyOneUpdate(u: MarketUpdate, ticker: nat)
    ensures Only([u], ticker) == if u.ticker == ticker then [u] else []
  {
    assert [u][..0] == [];
  }

  lemma OnlyBlock(t: Table, n: nat, ticker: nat)
    requires TableOk(t)
    ensures Only([ClearOf(n)] + Stored(t, n, MAX_ORDER_IDS), ticker)
         == if ticker == n then [ClearOf(ticker)] + Stored(t, ticker, MAX_ORDER_IDS) else []
  {
    OnlyConcat([ClearOf(n)], Stored(t, n, MAX_ORDER_IDS), ticker);
    OnlyOneUpdate(ClearOf(n), ticker);
    OnlyStored(t, n, MAX_ORDER_IDS, ticker);
  }

  lemma OnlyNextBody(t: Table, n: nat, ticker: nat)
    requires TableOk(t)
    ensures Only(Bodies(t, n + 1), ticker)
         == Only(Bodies(t, n), ticker)
            + (if ticker == n then [ClearOf(ticker)] + Stored(t, ticker, MAX_ORDER_IDS) else [])
  {
    OnlyConcat(Bodies(t, n), [ClearOf(n)] + Stored(t, n, MAX_ORDER_IDS), ticker);
    OnlyBlock(t, n, ticker);
  }

  /** At step `m` the block is appended if it is the ticker's step, and nothing otherwise. */
  ghost predicate Appends(f: nat -> seq<MarketUpdate>, ticker: nat, block: seq<MarketUpdate>, m: nat) {
    f(m + 1) == f(m) + if ticker == m then block else []
  }

  /** What is built up by appending one block at one step is that block. */
  lemma {:induction false} OneBlock(f: nat -> seq<MarketUpdate>, ticker: nat, block: seq<MarketUpdate>, n: nat)
    requires f(0) == []
    requires forall m: nat {:trigger Appends(f, ticker, block, m)} :: Appends(f, ticker, block, m)
    ensures f(n) == if ticker < n then block else []
  {
    if n > 0 {
      OneBlock(f, ticker, block, n - 1);
      assert Appends(f, ticker, block, n - 1);
    }
  }

  lemma OnlyBodies(t: Table, n: nat, ticker: nat)
    requires TableOk(t)
    ensures Only(Bodies(t, n), ticker)
         == if ticker < n then [ClearOf(ticker)] + Stored(t, ticker, MAX_ORDER_IDS) else []
  {
    var f := (m: nat) => Only(Bodies(t, m), ticker);
    var block := [ClearOf(ticker)] + Stored(t, ticker, MAX_ORDER_IDS);
    forall m: nat ensures Appends(f, ticker, block, m) {
      OnlyNextBody(t, m, ticker);
    }
    OneBlock(f, ticker, block, n);
  }

  lemma ListedIdsInRange(t: Table, ticker: nat, r: Replica)
    requires TableOk(t) && ReplicaInv(r) && Lists(t, ticker, r)
    ensures BelowBoth(r, MAX_ORDER_IDS) == r
  {
    forall o | Has(r, o) ensures o.id < MAX_ORDER_IDS {
      FindIff(r, o.id);
      assert Get(t, Key(ticker, o.id)) == Listed(ticker, Find(r, o.id));
    }
    BelowAll(r.bids, MAX_ORDER_IDS);
    BelowAll(r.asks, MAX_ORDER_IDS);
  }

  lemma ClearBlanks(r: Replica, ticker: nat)
    ensures Replay(r, [ClearOf(ticker)]) == BLANK
  {
    assert [ClearOf(ticker)][..0] == [];
  }

  /** A snapshot's body brings a replica of any ticker, whatever it held, to what was published. */
  lemma SnapshotRebuilds(t: Table, ticker: nat, r: Replica, before: Replica)
    requires ticker < MAX_TICKERS && TableOk(t) && ReplicaInv(r) && Lists(t, ticker, r)
    ensures Replay(before, Only(SnapshotBody(t), ticker)) == r
  {
    OnlyBodies(t, MAX_TICKERS, ticker);
    ReplayConcat(before, [ClearOf(ticker)], Stored(t, ticker, MAX_ORDER_IDS));
    ClearBlanks(before, ticker);
    StoredRebuilds(t, ticker, r, MAX_ORDER_IDS);
    ListedIdsInRange(t, ticker, r);
  }

  lemma {:induction false} LegalMarketPrefix(us: seq<MarketUpdate>, n: nat)
    requires LegalMarket(us) && n <= |us|
    ensures LegalMarket(us[..n])
    decreases |us|
  {
    if n < |us| {
      LegalMarketInit(us);
      LegalMarketPrefix(us[..|us| - 1], n);
      assert us[..|us| - 1][..n] == us[..n];
    } else {
      assert us[..n] == us;
    }
  }

  /**
   A late joiner: a snapshot taken after any `n` updates, then the updates that follow it, gives
   every ticker the same levels, queues and quantities as the whole stream.
   */
  lemma LateJoinerCatchesUp(us: seq<MarketUpdate>, n: nat, ticker: nat)
    requires LegalMarket(us) && n <= |us| && ticker < MAX_TICKERS
    ensures Replay(BLANK, Only(SnapshotBody(FoldAll(map[], us[..n])) + us[n..], ticker))
         == Replay(BLANK, Only(us, ticker))
  {
    var t := FoldAll(map[], us[..n]);
    LegalMarketPrefix(us, n);
    TableFollows(us[..n]);
    assert Follows(us[..n], ticker);
    SnapshotRebuilds(t, ticker, ReplicaAt(us[..n], ticker), BLANK);
    OnlyConcat(SnapshotBody(t), us[n..], ticker);
    OnlyConcat(us[..n], us[n..], ticker);
    SplitJoins(us, n);
    ReplayConcat(BLANK, Only(SnapshotBody(t), ticker), Only(us[n..], ticker));
    ReplayConcat(BLANK, Only(us[..n], ticker), Only(us[n..], ticker));
  }

  // ---------- the engine's own stream ----------

  /** Updates of one ticker naming only ids below `n`. */
  ghost predicate FromBook(ticker: nat, us: seq<MarketUpdate>, n: nat) {
    forall i :: 0 <= i < |us| ==> us[i].ticker == ticker && (us[i].kind in {ADD, MODIFY, CANCEL} ==> us[i].orderId < n)
  }

  lemma {:induction false} SweepFromBook(ticker: nat, own: seq<Order>, t: Taker, s: Sweep)
    requires MidSweepInv(own, t, s) && FromBook(ticker, s.updates, t.id)
    ensures FromBook(ticker, SweepAll(ticker, t, s).updates, t.id)
    decreases |s.resting|, s.left
  {
    if Matchable(t, s) {
      MatchHeadKeepsInv(ticker, own, t, s);
      SweepFromBook(ticker, own, t, MatchHead(ticker, t, s));
    }
  }

  lemma AddFromBook(ticker: nat, b: Book, r: Request)
    requires BookInv(b) && r.NewOrder? && r.side != NO_SIDE
    ensures FromBook(ticker, Add(ticker, b, r).updates, b.nextId + 1)
  {
    var own, t := Resting(b, r.side), TakerOf(b, r);
    SweepFromBook(ticker, own, t, Sweep(Resting(b, Opposite(r.side)), r.qty, [Accepted(ticker, b, r)], []));
  }

  lemma ProcessFromBook(ticker: nat, b: Book, r: Request)
    requires BookInv(b) && Acceptable(ticker, b, r)
    ensures FromBook(ticker, Process(ticker, b, r).updates, Process(ticker, b, r).book.nextId)
    ensures b.nextId <= Process(ticker, b, r).book.nextId
  {
    if r.NewOrder? {
      AddFromBook(ticker, b, r);
      SweptBookSides(ticker, b, r);
    }
  }

  lemma {:induction false} RunFromBook(ticker: nat, rs: seq<Request>)
    requires Admitted(ticker, rs)
    ensures FromBook(ticker, Run(ticker, rs).updates, Run(ticker, rs).book.nextId)
  {
    if rs != [] {
      RunFromBook(ticker, rs[..|rs| - 1]);
      RunKeepsInv(ticker, rs[..|rs| - 1]);
      ProcessFromBook(ticker, Run(ticker, rs[..|rs| - 1]).book, rs[|rs| - 1]);
    }
  }

  /** One history a ticker, each admitted and within the id tables. */
  ghost predicate Histories(hs: seq<seq<Request>>) {
    && |hs| == MAX_TICKERS
    && forall ticker :: 0 <= ticker < MAX_TICKERS ==>
         Admitted(ticker, hs[ticker]) && Run(ticker, hs[ticker]).book.nextId <= MAX_ORDER_IDS
  }

  /** The tickers' streams, interleaved in any way. */
  ghost predicate Interleaves(us: seq<MarketUpdate>, hs: seq<seq<Request>>)
    requires Histories(hs)
  {
    && (forall i :: 0 <= i < |us| ==> us[i].ticker < MAX_TICKERS)
    && forall ticker :: 0 <= ticker < MAX_TICKERS ==> Only(us, ticker) == Run(ticker, hs[ticker]).updates
  }

  lemma {:induction false} OnlyHas(us: seq<MarketUpdate>, i: nat)
    requires i < |us|
    ensures us[i] in Only(us, us[i].ticker)
  {
    if i < |us| - 1 {
      OnlyHas(us[..|us| - 1], i);
    }
  }

  lemma EngineIsLegal(us: seq<MarketUpdate>, hs: seq<seq<Request>>)
    requires Histories(hs) && Interleaves(us, hs)
    ensures LegalMarket(us)
  {
    forall ticker | 0 <= ticker < MAX_TICKERS ensures LegalTo(BLANK, Only(us, ticker)) {
      RunFeed(ticker, hs[ticker]);
    }
    forall i | 0 <= i < |us| ensures InRange(us[i]) {
      var ticker := us[i].ticker;
      OnlyHas(us, i);
      RunFromBook(ticker, hs[ticker]);
    }
  }

  /** No update of a legal market stream fails an assertion of the synthesizer. */
  lemma EveryUpdateExpected(us: seq<MarketUpdate>)
    requires LegalMarket(us)
    ensures forall n :: 0 <= n < |us| ==> Expected(FoldAll(map[], us[..n]), us[n]) && InRange(us[n])
  {
    forall n | 0 <= n < |us| ensures Expected(FoldAll(map[], us[..n]), us[n]) && InRange(us[n]) {
      LegalMarketPrefix(us, n + 1);
      TableFollows(us[..n + 1]);
      assert us[..n + 1][..n] == us[..n];
    }
  }

  /**
   Over any interleaving of eight histories: every condition the synthesizer asserts holds at every
   update, and its table ends up holding exactly the resting orders, as published.
   */
  lemma TableHoldsTheBooks(us: seq<MarketUpdate>, hs: seq<seq<Request>>)
    requires Histories(hs) && Interleaves(us, hs)
    ensures forall n :: 0 <= n < |us| ==> Expected(FoldAll(map[], us[..n]), us[n]) && InRange(us[n])
    ensures forall ticker :: 0 <= ticker < MAX_TICKERS ==>
              Lists(FoldAll(map[], us), ticker, View(Run(ticker, hs[ticker]).book, StaleAfter(ticker, hs[ticker])))
  {
    EngineIsLegal(us, hs);
    EveryUpdateExpected(us);
    TableFollows(us);
    forall ticker | 0 <= ticker < MAX_TICKERS
      ensures Lists(FoldAll(map[], us), ticker, View(Run(ticker, hs[ticker]).book, StaleAfter(ticker, hs[ticker])))
    {
      assert Follows(us, ticker);
      RunFeed(ticker, hs[ticker]);
    }
  }

  /** A late joiner of the engine's own stream sees every ticker's book as any other participant does. */
  lemma LateJoinerSeesTheBook(us: seq<MarketUpdate>, hs: seq<seq<Request>>, n: nat, ticker: nat)
    requires Histories(hs) && Interleaves(us, hs) && n <= |us| && ticker < MAX_TICKERS
    ensures Replay(BLANK, Only(SnapshotBody(FoldAll(map[], us[..n])) + us[n..], ticker))
         == View(Run(ticker, hs[ticker]).book, StaleAfter(ticker, hs[ticker]))
  {
    EngineIsLegal(us, hs);
    LateJoinerCatchesUp(us, n, ticker);
    RunFeed(ticker, hs[ticker]);
  }
}

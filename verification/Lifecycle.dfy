/**
 The life of each market order as its responses tell it, the quantity ledger that
 follows, and what a sweep promises the orders it meets.
 */
module Lifecycle {
  import opened MarketTypes
  import opened PriceTimeBook
  import opened Sequences
  import opened BookSafety

  // ---------- one order's life ----------

  /** What the responses so far say of one market order; `Violated` is a message out of turn. */
  datatype Phase = Unborn | Open(left: nat) | Done | Violated

  function OpenOrDone(left: nat): Phase {
    if left == 0 then Done else Open(left)
  }

  /** The only legal turns: accepted once, then fills that account for themselves, then the end. */
  function Turn(p: Phase, r: Response): Phase {
    match r.kind
    case ACCEPTED => if p.Unborn? && r.execQty == 0 then OpenOrDone(r.leftQty) else Violated
    case FILLED =>
      if p.Open? && 0 < r.execQty <= p.left && r.leftQty == p.left - r.execQty then OpenOrDone(r.leftQty)
      else Violated
    case CANCELLED => if p.Open? && r.leftQty == p.left then Done else Violated
    case CANCEL_REJECTED => p
  }

  function Life(log: seq<Response>, id: nat): Phase {
    if log == [] then Unborn
    else
      var p := Life(log[..|log| - 1], id);
      var r := log[|log| - 1];
      if r.marketOrderId == id && r.kind != CANCEL_REJECTED then Turn(p, r) else p
  }

  /** The quantity resting under a market order id. */
  function RestingQty(s: seq<Order>, id: nat): nat {
    if s == [] then 0 else (if s[0].id == id then s[0].qty else 0) + RestingQty(s[1..], id)
  }

  function BookQty(b: Book, id: nat): nat {
    RestingQty(b.bids, id) + RestingQty(b.asks, id)
  }

  /** The phase the book itself gives an id. */
  function PhaseOf(b: Book, id: nat): Phase {
    if 1 <= id < b.nextId then OpenOrDone(BookQty(b, id)) else Unborn
  }

  lemma LifeStep(log: seq<Response>, r: Response, id: nat)
    ensures Life(log + [r], id)
         == if r.marketOrderId == id && r.kind != CANCEL_REJECTED then Turn(Life(log, id), r) else Life(log, id)
  {
    assert (log + [r])[..|log|] == log;
  }

  lemma {:induction false} NoRestingQty(s: seq<Order>, id: nat)
    requires forall i :: 0 <= i < |s| ==> s[i].id != id
    ensures RestingQty(s, id) == 0
  {
    if s != [] {
      NoRestingQty(s[1..], id);
    }
  }

  lemma {:induction false} RestingQtyConcat(s: seq<Order>, t: seq<Order>, id: nat)
    ensures RestingQty(s + t, id) == RestingQty(s, id) + RestingQty(t, id)
  {
    if s == [] {
      assert s + t == t;
    } else {
      assert (s + t)[1..] == s[1..] + t;
      RestingQtyConcat(s[1..], t, id);
    }
  }

  lemma RestingQtyInsertAt(s: seq<Order>, k: nat, o: Order, id: nat)
    requires k <= |s|
    ensures RestingQty(InsertAt(s, k, o), id) == RestingQty(s, id) + (if o.id == id then o.qty else 0)
  {
    assert InsertAt(s, k, o) == s[..k] + ([o] + s[k..]);
    RestingQtyConcat(s[..k], [o] + s[k..], id);
    RestingQtyConcat(s[..k], s[k..], id);
    assert s == s[..k] + s[k..];
  }

  lemma RestingQtyAt(s: seq<Order>, k: nat)
    requires k < |s| && DistinctOrders(s)
    ensures RestingQty(s, s[k].id) == s[k].qty
    ensures forall id :: RestingQty(RemoveAt(s, k), id) == if id == s[k].id then 0 else RestingQty(s, id)
  {
    assert InsertAt(RemoveAt(s, k), k, s[k]) == s;
    forall id ensures RestingQty(s, id) == RestingQty(RemoveAt(s, k), id) + (if id == s[k].id then s[k].qty else 0) {
      RestingQtyInsertAt(RemoveAt(s, k), k, s[k], id);
    }
    NoRestingQty(RemoveAt(s, k), s[k].id);
  }

  // ---------- the log agrees with the book, message by message ----------

  /** In the middle of a sweep the taker's quantity is in hand, not in the book. */
  function PhaseMidSweep(own: seq<Order>, t: Taker, s: Sweep, id: nat): Phase {
    if id == t.id then OpenOrDone(s.left)
    else if 1 <= id < t.id then OpenOrDone(RestingQty(own, id) + RestingQty(s.resting, id))
    else Unborn
  }

  /** The opposite side of a sweep: positive quantities, no duplicates, older than the taker. */
  ghost predicate Standing(own: seq<Order>, s: seq<Order>, id: nat) {
    && AllPositive(s) && DistinctOrders(s) && Unrelated(own, s)
    && (forall i :: 0 <= i < |s| ==> 1 <= s[i].id < id)
  }

  ghost predicate MidSweepInv(own: seq<Order>, t: Taker, s: Sweep) {
    t.id >= 1 && Standing(own, s.resting, t.id)
  }

  ghost predicate LifeAgreesMidSweep(log: seq<Response>, own: seq<Order>, t: Taker, s: Sweep) {
    forall id: nat :: Life(log + s.responses, id) == PhaseMidSweep(own, t, s, id)
  }

  lemma MatchHeadKeepsInv(ticker: nat, own: seq<Order>, t: Taker, s: Sweep)
    requires MidSweepInv(own, t, s) && Matchable(t, s)
    ensures MidSweepInv(own, t, MatchHead(ticker, t, s))
  {
    TailStands(own, s.resting, t.id);
    if s.resting[0].qty > s.left {
      HeadStands(own, s.resting, t.id, s.resting[0].qty - s.left);
    }
  }

  lemma TailStands(own: seq<Order>, s: seq<Order>, id: nat)
    requires s != [] && Standing(own, s, id)
    ensures Standing(own, s[1..], id)
  {
  }

  lemma HeadStands(own: seq<Order>, s: seq<Order>, id: nat, qty: nat)
    requires s != [] && Standing(own, s, id) && qty > 0
    ensures Standing(own, [s[0].(qty := qty)] + s[1..], id)
  {
    var r := [s[0].(qty := qty)] + s[1..];
    assert forall i :: 0 <= i < |r| ==> r[i] == s[i].(qty := r[i].qty);
  }

  lemma MatchHeadLife(ticker: nat, log: seq<Response>, own: seq<Order>, t: Taker, s: Sweep, id: nat)
    requires MidSweepInv(own, t, s) && Matchable(t, s)
    requires Life(log + s.responses, id) == PhaseMidSweep(own, t, s, id)
    ensures Life(log + MatchHead(ticker, t, s).responses, id) == PhaseMidSweep(own, t, MatchHead(ticker, t, s), id)
  {
    var maker, s1 := s.resting[0], MatchHead(ticker, t, s);
    var fill := Min(maker.qty, s.left);
    var first := TakerFill(ticker, t, maker, fill, s.left - fill);
    var second := MakerFill(ticker, maker, fill, maker.qty - fill);
    var l0 := log + s.responses;
    assert log + s1.responses == (l0 + [first]) + [second];
    LifeStep(l0, first, id);
    LifeStep(l0 + [first], second, id);
    if id == maker.id {
      NoRestingQty(own, id);
      NoRestingQty(s.resting[1..], id);
    }
  }

  lemma {:induction false} SweepLife(ticker: nat, log: seq<Response>, own: seq<Order>, t: Taker, s: Sweep)
    requires MidSweepInv(own, t, s) && LifeAgreesMidSweep(log, own, t, s)
    ensures MidSweepInv(own, t, SweepAll(ticker, t, s)) && LifeAgreesMidSweep(log, own, t, SweepAll(ticker, t, s))
    decreases |s.resting|, s.left
  {
    if Matchable(t, s) {
      forall id: nat
        ensures Life(log + MatchHead(ticker, t, s).responses, id) == PhaseMidSweep(own, t, MatchHead(ticker, t, s), id)
      {
        MatchHeadLife(ticker, log, own, t, s, id);
      }
      MatchHeadKeepsInv(ticker, own, t, s);
      SweepLife(ticker, log, own, t, MatchHead(ticker, t, s));
    }
  }

  ghost predicate LifeAgrees(log: seq<Response>, b: Book) {
    forall id: nat :: Life(log, id) == PhaseOf(b, id)
  }

  lemma FreshIdHasNoQty(b: Book)
    requires BookInv(b)
    ensures forall id :: id >= b.nextId || id == 0 ==> BookQty(b, id) == 0
  {
    forall id | id >= b.nextId || id == 0 ensures BookQty(b, id) == 0 {
      NoRestingQty(b.bids, id);
      NoRestingQty(b.asks, id);
    }
  }

  lemma SweptLife(ticker: nat, log: seq<Response>, b: Book, r: Request)
    requires BookInv(b) && LifeAgrees(log, b) && r.NewOrder? && r.side != NO_SIDE
    ensures forall id: nat :: Life(log + Swept(ticker, b, r).responses, id)
                           == PhaseMidSweep(Resting(b, r.side), TakerOf(b, r), Swept(ticker, b, r), id)
  {
    var own, t := Resting(b, r.side), TakerOf(b, r);
    var s := Sweep(Resting(b, Opposite(r.side)), r.qty, [Accepted(ticker, b, r)], []);
    FreshIdHasNoQty(b);
    forall id: nat ensures Life(log + s.responses, id) == PhaseMidSweep(own, t, s, id) {
      LifeStep(log, Accepted(ticker, b, r), id);
    }
    SweepLife(ticker, log, own, t, s);
  }

  /** The remainder moves from the taker's hand into the book without changing any order's phase. */
  lemma RestingRemainderQty(ticker: nat, b: Book, r: Request, id: nat)
    requires BookInv(b) && r.NewOrder? && Acceptable(ticker, b, r)
    ensures BookQty(Add(ticker, b, r).book, id)
         == if id == b.nextId then Swept(ticker, b, r).left
            else RestingQty(Resting(b, r.side), id) + RestingQty(Swept(ticker, b, r).resting, id)
  {
    var mid := SweptBook(ticker, b, r);
    SweptBookInv(ticker, b, r);
    SweptBookSides(ticker, b, r);
    SweptKeepsIdFree(ticker, b, r);
    BookQtyBySide(mid, r.side, Resting(mid, r.side), id);
    if Swept(ticker, b, r).left > 0 {
      var k := RemainderRests(ticker, b, r);
      RestingQtyInsertAt(Resting(b, r.side), k, Remainder(ticker, b, r), id);
      BookQtyBySide(mid, r.side, InsertAt(Resting(b, r.side), k, Remainder(ticker, b, r)), id);
    }
  }

  lemma BookQtyBySide(b: Book, side: Side, s: seq<Order>, id: nat)
    requires side != NO_SIDE
    ensures BookQty(WithSide(b, side, s), id) == RestingQty(s, id) + RestingQty(Resting(b, Opposite(side)), id)
  {
  }

  lemma SweptKeepsIdFree(ticker: nat, b: Book, r: Request)
    requires BookInv(b) && r.NewOrder? && r.side != NO_SIDE
    ensures RestingQty(Resting(b, r.side), b.nextId) == 0
    ensures RestingQty(Swept(ticker, b, r).resting, b.nextId) == 0
  {
    SweptTrims(ticker, b, r);
    NoRestingQty(Resting(b, r.side), b.nextId);
    NoRestingQty(Swept(ticker, b, r).resting, b.nextId);
  }

  lemma AddLife(ticker: nat, log: seq<Response>, b: Book, r: Request)
    requires BookInv(b) && LifeAgrees(log, b) && r.NewOrder? && Acceptable(ticker, b, r)
    ensures LifeAgrees(log + Add(ticker, b, r).responses, Add(ticker, b, r).book)
  {
    SweptLife(ticker, log, b, r);
    forall id: nat ensures Life(log + Add(ticker, b, r).responses, id) == PhaseOf(Add(ticker, b, r).book, id) {
      RestingRemainderQty(ticker, b, r, id);
    }
  }

  lemma WithdrawnLife(ticker: nat, log: seq<Response>, b: Book, side: Side, k: nat)
    requires BookInv(b) && LifeAgrees(log, b) && side != NO_SIDE && k < |Resting(b, side)|
    ensures LifeAgrees(log + Withdrawn(ticker, b, side, k).responses, Withdrawn(ticker, b, side, k).book)
  {
    var o := Resting(b, side)[k];
    RestingQtyAt(Resting(b, side), k);
    NoRestingQty(Resting(b, Opposite(side)), o.id);
    forall id: nat
      ensures Life(log + Withdrawn(ticker, b, side, k).responses, id) == PhaseOf(Withdrawn(ticker, b, side, k).book, id)
    {
      LifeStep(log, Withdrawn(ticker, b, side, k).responses[0], id);
    }
  }

  lemma ProcessLife(ticker: nat, log: seq<Response>, b: Book, r: Request)
    requires BookInv(b) && LifeAgrees(log, b) && Acceptable(ticker, b, r)
    ensures LifeAgrees(log + Process(ticker, b, r).responses, Process(ticker, b, r).book)
  {
    if r.NewOrder? {
      AddLife(ticker, log, b, r);
    } else {
      var owner := Client(r.client, r.orderId);
      if Owns(b.bids, owner) {
        WithdrawnLife(ticker, log, b, BUY, Locate(b.bids, owner));
      } else if Owns(b.asks, owner) {
        WithdrawnLife(ticker, log, b, SELL, Locate(b.asks, owner));
      } else {
        forall id: nat ensures Life(log + [Rejected(ticker, r)], id) == Life(log, id) {
          LifeStep(log, Rejected(ticker, r), id);
        }
      }
    }
  }

  /** Over any history, no response is out of turn, and the log gives every order the phase the book does. */
  lemma {:induction false} RunLife(ticker: nat, rs: seq<Request>)
    requires Admitted(ticker, rs)
    ensures forall id: nat :: Life(Run(ticker, rs).responses, id) == PhaseOf(Run(ticker, rs).book, id)
    ensures forall id: nat :: Life(Run(ticker, rs).responses, id) != Violated
  {
    if rs != [] {
      var before := Run(ticker, rs[..|rs| - 1]);
      RunLife(ticker, rs[..|rs| - 1]);
      RunKeepsInv(ticker, rs[..|rs| - 1]);
      ProcessLife(ticker, before.responses, before.book, rs[|rs| - 1]);
    }
  }

  // ---------- the quantity ledger ----------

  /** The quantity the log reports for an id under one kind of response. */
  function Reported(log: seq<Response>, kind: ResponseKind, id: nat): nat {
    if log == [] then 0
    else
      var r := log[|log| - 1];
      Reported(log[..|log| - 1], kind, id)
      + (if r.kind == kind && r.marketOrderId == id then (if kind == FILLED then r.execQty else r.leftQty) else 0)
  }

  /** A life without violations balances: accepted = filled + cancelled + still open. */
  lemma {:induction false} LifeBalances(log: seq<Response>, id: nat)
    requires Life(log, id) != Violated
    ensures Reported(log, ACCEPTED, id)
         == Reported(log, FILLED, id) + Reported(log, CANCELLED, id)
            + (if Life(log, id).Open? then Life(log, id).left else 0)
    ensures Life(log, id).Unborn? ==> Reported(log, ACCEPTED, id) == 0
  {
    if log != [] {
      var init, r := log[..|log| - 1], log[|log| - 1];
      if r.marketOrderId == id && r.kind != CANCEL_REJECTED {
        assert Turn(Life(init, id), r) != Violated;
      }
      LifeBalances(init, id);
    }
  }

  /** Over any history, what was accepted is what was filled, was cancelled or still rests. */
  lemma RunLedger(ticker: nat, rs: seq<Request>, id: nat)
    requires Admitted(ticker, rs)
    ensures var log, b := Run(ticker, rs).responses, Run(ticker, rs).book;
            Reported(log, ACCEPTED, id) == Reported(log, FILLED, id) + Reported(log, CANCELLED, id) + BookQty(b, id)
  {
    RunLife(ticker, rs);
    RunKeepsInv(ticker, rs);
    FreshIdHasNoQty(Run(ticker, rs).book);
    LifeBalances(Run(ticker, rs).responses, id);
  }

  /** Total quantity filled in a log by the taker, and by everyone else. */
  function FilledFor(log: seq<Response>, id: nat): nat {
    Reported(log, FILLED, id)
  }

  function FilledForOthers(log: seq<Response>, id: nat): nat {
    if log == [] then 0
    else
      var r := log[|log| - 1];
      FilledForOthers(log[..|log| - 1], id)
      + (if r.kind == FILLED && r.marketOrderId != id then r.execQty else 0)
  }

  function Traded(us: seq<MarketUpdate>): nat {
    if us == [] then 0
    else Traded(us[..|us| - 1]) + (if us[|us| - 1].kind == TRADE then us[|us| - 1].qty else 0)
  }

  lemma FillStep(log: seq<Response>, r: Response, id: nat)
    requires r.kind == FILLED
    ensures FilledFor(log + [r], id) == FilledFor(log, id) + (if r.marketOrderId == id then r.execQty else 0)
    ensures FilledForOthers(log + [r], id)
         == FilledForOthers(log, id) + (if r.marketOrderId == id then 0 else r.execQty)
  {
    assert (log + [r])[..|log|] == log;
  }

  lemma MatchHeadTotals(ticker: nat, t: Taker, s: Sweep)
    requires Matchable(t, s) && s.resting[0].id != t.id
    ensures var s1, fill := MatchHead(ticker, t, s), Min(s.resting[0].qty, s.left);
            && FilledFor(s1.responses, t.id) == FilledFor(s.responses, t.id) + fill
            && FilledForOthers(s1.responses, t.id) == FilledForOthers(s.responses, t.id) + fill
            && Traded(s1.updates) == Traded(s.updates) + fill
  {
    var s1, maker, fill := MatchHead(ticker, t, s), s.resting[0], Min(s.resting[0].qty, s.left);
    var first := TakerFill(ticker, t, maker, fill, s.left - fill);
    var second := MakerFill(ticker, maker, fill, maker.qty - fill);
    assert s1.responses == (s.responses + [first]) + [second];
    FillStep(s.responses, first, t.id);
    FillStep(s.responses + [first], second, t.id);
    var trade, change := TradeUpdate(ticker, t, maker, fill), MakerUpdate(ticker, maker, maker.qty - fill);
    assert s1.updates == (s.updates + [trade]) + [change];
    assert (s.updates + [trade])[..|s.updates|] == s.updates;
    assert s1.updates[..|s1.updates| - 1] == s.updates + [trade];
  }

  /** Each sweep conserves quantity three ways: the taker's fills, the makers' fills and the public trades. */
  lemma {:induction false} SweepConserves(ticker: nat, t: Taker, s: Sweep)
    requires forall i :: 0 <= i < |s.resting| ==> s.resting[i].id != t.id
    ensures var e, traded := SweepAll(ticker, t, s), s.left - SweepAll(ticker, t, s).left;
            && SweepAll(ticker, t, s).left <= s.left
            && FilledFor(e.responses, t.id) == FilledFor(s.responses, t.id) + traded
            && FilledForOthers(e.responses, t.id) == FilledForOthers(s.responses, t.id) + traded
            && Traded(e.updates) == Traded(s.updates) + traded
    decreases |s.resting|, s.left
  {
    if Matchable(t, s) {
      MatchHeadTotals(ticker, t, s);
      var s1 := MatchHead(ticker, t, s);
      var d := |s.resting| - |s1.resting|;
      assert forall i :: 0 <= i < |s1.resting| ==> s1.resting[i].id == s.resting[d + i].id;
      SweepConserves(ticker, t, s1);
    }
  }

  // ---------- fairness ----------

  /** The `i`-th fill a sweep reported to a maker, after what was in the log before. */
  function MakerReport(before: Sweep, after: Sweep, i: nat): Response
    requires |before.responses| + 2 * i + 1 < |after.responses|
  {
    after.responses[|before.responses| + 2 * i + 1]
  }

  /** Fill number `i` of `n` names order number `i`, at its price, within the limit; only the last may be partial. */
  ghost predicate FairFill(t: Taker, s: seq<Order>, n: nat, i: nat, f: Response)
    requires i < |s|
  {
    && Crosses(t.side, t.limit, s[i].price)
    && f.kind == FILLED && f.marketOrderId == s[i].id && f.price == s[i].price
    && 0 < f.execQty && f.execQty + f.leftQty == s[i].qty
    && (i + 1 < n ==> f.leftQty == 0)
  }

  /** How many fills a sweep makes. */
  function Fills(ticker: nat, t: Taker, s: Sweep): nat
    decreases |s.resting|, s.left
  {
    if Matchable(t, s) then 1 + Fills(ticker, t, MatchHead(ticker, t, s)) else 0
  }

  /** Each fill sends two responses, and a sweep that goes on has used up its first order. */
  lemma {:induction false} SweepShape(ticker: nat, t: Taker, s: Sweep)
    ensures Fills(ticker, t, s) <= |s.resting|
    ensures |SweepAll(ticker, t, s).responses| == |s.responses| + 2 * Fills(ticker, t, s)
    ensures s.responses <= SweepAll(ticker, t, s).responses
    decreases |s.resting|, s.left
  {
    if Matchable(t, s) {
      SweepShape(ticker, t, MatchHead(ticker, t, s));
    }
  }

  lemma FirstFillIsFair(ticker: nat, t: Taker, s: Sweep)
    requires AllPositive(s.resting) && Matchable(t, s)
    ensures FairFill(t, s.resting, Fills(ticker, t, s), 0, MatchHead(ticker, t, s).responses[|s.responses| + 1])
  {
    var s1 := MatchHead(ticker, t, s);
    if s.resting[0].qty > s.left {
      assert !Matchable(t, s1);
      assert Fills(ticker, t, s) == 1 + Fills(ticker, t, s1) == 1;
    }
  }

  /**
   The `i`-th fill goes to the `i`-th order in price-time order, inside the taker's limit
   and at that order's own price; all but the last exhaust their order.
   */
  lemma {:induction false} SweepIsFair(ticker: nat, t: Taker, s: Sweep, i: nat)
    requires AllPositive(s.resting) && i < Fills(ticker, t, s)
    ensures i < |s.resting|
    ensures |SweepAll(ticker, t, s).responses| == |s.responses| + 2 * Fills(ticker, t, s)
    ensures FairFill(t, s.resting, Fills(ticker, t, s), i, MakerReport(s, SweepAll(ticker, t, s), i))
    decreases |s.resting|, s.left
  {
    var s1 := MatchHead(ticker, t, s);
    SweepShape(ticker, t, s);
    SweepShape(ticker, t, s1);
    if i == 0 {
      FirstFillIsFair(ticker, t, s);
    } else {
      SweepIsFair(ticker, t, s1, i - 1);
      LaterFillIsFair(ticker, t, s, i);
    }
  }

  lemma LaterFillIsFair(ticker: nat, t: Taker, s: Sweep, i: nat)
    requires Matchable(t, s) && 0 < i < Fills(ticker, t, s)
    requires var s1 := MatchHead(ticker, t, s);
             && i - 1 < |s1.resting|
             && |SweepAll(ticker, t, s1).responses| == |s1.responses| + 2 * Fills(ticker, t, s1)
             && FairFill(t, s1.resting, Fills(ticker, t, s1), i - 1, MakerReport(s1, SweepAll(ticker, t, s1), i - 1))
    ensures i < |s.resting|
    ensures |SweepAll(ticker, t, s).responses| == |s.responses| + 2 * Fills(ticker, t, s)
    ensures FairFill(t, s.resting, Fills(ticker, t, s), i, MakerReport(s, SweepAll(ticker, t, s), i))
  {
    var s1 := MatchHead(ticker, t, s);
    assert Fills(ticker, t, s1) > 0 && Matchable(t, s1);
    assert s1.resting == s.resting[1..];
    assert MakerReport(s, SweepAll(ticker, t, s), i) == MakerReport(s1, SweepAll(ticker, t, s1), i - 1);
  }

  /** `r` is `suffix`, behind at most the one order a partial fill leaves. */
  ghost predicate EndsWith(r: seq<Order>, suffix: seq<Order>) {
    |suffix| <= |r| <= |suffix| + 1 && r[|r| - |suffix|..] == suffix
  }

  /** Orders behind the last one filled keep their place and their quantity. */
  lemma {:induction false} SweepSparesTheRest(ticker: nat, t: Taker, s: Sweep)
    requires AllPositive(s.resting)
    ensures Fills(ticker, t, s) <= |s.resting|
    ensures EndsWith(SweepAll(ticker, t, s).resting, s.resting[Fills(ticker, t, s)..])
    decreases |s.resting|, s.left
  {
    if Matchable(t, s) {
      var s1 := MatchHead(ticker, t, s);
      assert Fills(ticker, t, s) == 1 + Fills(ticker, t, s1);
      SweepSparesTheRest(ticker, t, s1);
      if s.resting[0].qty > s.left {
        assert !Matchable(t, s1);
        assert Fills(ticker, t, s1) == 0;
        assert s1.resting[1..] == s.resting[1..];
      } else {
        assert s1.resting == s.resting[1..];
        assert s1.resting[Fills(ticker, t, s1)..] == s.resting[Fills(ticker, t, s)..];
      }
    }
  }

  /** Along a sweep of a well-formed book, fill prices only move away from the taker. */
  lemma SweepPricesMonotone(ticker: nat, t: Taker, s: Sweep, nextId: nat, i: nat, j: nat)
    requires SideInv(Opposite(t.side), s.resting, nextId) && i < j < Fills(ticker, t, s)
    ensures |SweepAll(ticker, t, s).responses| == |s.responses| + 2 * Fills(ticker, t, s)
    ensures !Better(Opposite(t.side), MakerReport(s, SweepAll(ticker, t, s), j).price,
                    MakerReport(s, SweepAll(ticker, t, s), i).price)
  {
    SweepIsFair(ticker, t, s, i);
    SweepIsFair(ticker, t, s, j);
    SidePricesOrdered(Opposite(t.side), s.resting, nextId);
  }
}

/**
 Who is told what: every response about a market order goes to the client that placed it, under that
 client's own id and at prices that client accepted; and each fill is reported alike to everyone.
 */
module Accounts {
  import opened MarketTypes
  import opened Sequences
  import opened PriceTimeBook
  import opened BookSafety
  import opened Lifecycle

  /** What an acceptance fixed for a market order. */
  datatype Account = Account(client: nat, orderId: nat, side: Side, limit: nat)

  /** The account of an id, from its first acceptance in the log. */
  function AccountOf(log: seq<Response>, id: nat): Option<Account> {
    if log == [] then None
    else
      var r := log[|log| - 1];
      var before := AccountOf(log[..|log| - 1], id);
      if before.None? && r.kind == ACCEPTED && r.marketOrderId == id then
        Some(Account(r.client, r.clientOrderId, r.side, r.price))
      else before
  }

  lemma AccountStep(log: seq<Response>, r: Response, id: nat)
    ensures AccountOf(log + [r], id)
         == if AccountOf(log, id).None? && r.kind == ACCEPTED && r.marketOrderId == id
            then Some(Account(r.client, r.clientOrderId, r.side, r.price)) else AccountOf(log, id)
  {
    assert (log + [r])[..|log|] == log;
  }

  /** The response fits the account it is about: addressee and side, and a price its limit allows. */
  predicate Proper(ticker: nat, r: Response, a: Option<Account>) {
    r.kind == CANCEL_REJECTED
    || (a.Some? && r.ticker == ticker && a.value == Account(r.client, r.clientOrderId, r.side, a.value.limit)
        && if r.kind == FILLED then Crosses(r.side, a.value.limit, r.price) else r.price == a.value.limit)
  }

  ghost predicate AllProper(ticker: nat, log: seq<Response>) {
    forall i :: 0 <= i < |log| ==> Proper(ticker, log[i], AccountOf(log, log[i].marketOrderId))
  }

  /** A resting order is the account it was accepted as. */
  ghost predicate Kept(log: seq<Response>, s: seq<Order>) {
    forall i :: 0 <= i < |s| ==>
      s[i].owner.Client?
          && AccountOf(log, s[i].id) == Some(Account(s[i].owner.client, s[i].owner.orderId, s[i].side, s[i].price))
  }

  ghost predicate NoAccountFrom(log: seq<Response>, id: nat) {
    forall j :: j >= id ==> AccountOf(log, j) == None
  }

  /** A proper response that opens no account keeps the log proper and the book kept. */
  lemma ProperStep(ticker: nat, log: seq<Response>, r: Response)
    requires AllProper(ticker, log) && r.kind != ACCEPTED && Proper(ticker, r, AccountOf(log, r.marketOrderId))
    ensures AllProper(ticker, log + [r])
    ensures forall id :: AccountOf(log + [r], id) == AccountOf(log, id)
  {
    forall id ensures AccountOf(log + [r], id) == AccountOf(log, id) {
      AccountStep(log, r, id);
    }
    forall i | 0 <= i < |log| ensures Proper(ticker, log[i], AccountOf(log + [r], log[i].marketOrderId)) {
      assert Proper(ticker, log[i], AccountOf(log, log[i].marketOrderId));
    }
  }

  // ---------- a sweep ----------

  ghost predicate SweepProper(ticker: nat, log: seq<Response>, own: seq<Order>, t: Taker, s: Sweep) {
    && AllProper(ticker, log + s.responses) && Kept(log + s.responses, own) && Kept(log + s.responses, s.resting)
    && AccountOf(log + s.responses, t.id) == Some(Account(t.client, t.orderId, t.side, t.limit))
    && NoAccountFrom(log + s.responses, t.id + 1)
  }

  lemma FillIsProper(ticker: nat, log: seq<Response>, t: Taker, maker: Order, fill: nat, left: nat, rest: nat)
    requires AllProper(ticker, log) && Crosses(t.side, t.limit, maker.price) && maker.owner.Client?
    requires AccountOf(log, t.id) == Some(Account(t.client, t.orderId, t.side, t.limit))
    requires AccountOf(log, maker.id) == Some(Account(maker.owner.client, maker.owner.orderId, maker.side, maker.price))
    ensures var log' := log + [TakerFill(ticker, t, maker, fill, left), MakerFill(ticker, maker, fill, rest)];
            AllProper(ticker, log') && forall id :: AccountOf(log', id) == AccountOf(log, id)
  {
    var first, second := TakerFill(ticker, t, maker, fill, left), MakerFill(ticker, maker, fill, rest);
    ProperStep(ticker, log, first);
    ProperStep(ticker, log + [first], second);
    assert log + [first, second] == (log + [first]) + [second];
  }

  lemma MatchHeadProper(ticker: nat, log: seq<Response>, own: seq<Order>, t: Taker, s: Sweep)
    requires Matchable(t, s) && SweepProper(ticker, log, own, t, s)
    ensures SweepProper(ticker, log, own, t, MatchHead(ticker, t, s))
  {
    var maker, s1 := s.resting[0], MatchHead(ticker, t, s);
    var fill := Min(maker.qty, s.left);
    var first := TakerFill(ticker, t, maker, fill, s.left - fill);
    var second := MakerFill(ticker, maker, fill, maker.qty - fill);
    FillIsProper(ticker, log + s.responses, t, maker, fill, s.left - fill, maker.qty - fill);
    assert log + s1.responses == (log + s.responses) + [first, second];
    KeptByTail(log + s.responses, log + s1.responses, s.resting, maker.qty - fill);
  }

  lemma KeptByTail(log: seq<Response>, log': seq<Response>, s: seq<Order>, qty: nat)
    requires s != [] && Kept(log, s) && forall id :: AccountOf(log', id) == AccountOf(log, id)
    ensures Kept(log', s[1..]) && Kept(log', [s[0].(qty := qty)] + s[1..])
  {
    var r := [s[0].(qty := qty)] + s[1..];
    assert forall i :: 0 <= i < |r| ==> r[i] == s[i].(qty := r[i].qty);
  }

  lemma {:induction false} SweepIsProper(ticker: nat, log: seq<Response>, own: seq<Order>, t: Taker, s: Sweep)
    requires SweepProper(ticker, log, own, t, s)
    ensures SweepProper(ticker, log, own, t, SweepAll(ticker, t, s))
    decreases |s.resting|, s.left
  {
    if Matchable(t, s) {
      MatchHeadProper(ticker, log, own, t, s);
      SweepIsProper(ticker, log, own, t, MatchHead(ticker, t, s));
    }
  }

  // ---------- requests and runs ----------

  ghost predicate BookProper(ticker: nat, log: seq<Response>, b: Book) {
    AllProper(ticker, log) && Kept(log, b.bids) && Kept(log, b.asks) && NoAccountFrom(log, b.nextId)
  }

  lemma AcceptedIsProper(ticker: nat, log: seq<Response>, b: Book, r: Request)
    requires BookProper(ticker, log, b) && r.NewOrder?
    ensures var log' := log + [Accepted(ticker, b, r)];
            && AllProper(ticker, log') && Kept(log', b.bids) && Kept(log', b.asks)
            && AccountOf(log', b.nextId) == Some(Account(r.client, r.orderId, r.side, r.price))
            && NoAccountFrom(log', b.nextId + 1)
  {
    var log' := log + [Accepted(ticker, b, r)];
    forall id
      ensures AccountOf(log', id)
           == if id == b.nextId then Some(Account(r.client, r.orderId, r.side, r.price)) else AccountOf(log, id)
    {
      AccountStep(log, Accepted(ticker, b, r), id);
    }
    forall i | 0 <= i < |log| ensures Proper(ticker, log[i], AccountOf(log', log[i].marketOrderId)) {
      assert Proper(ticker, log[i], AccountOf(log, log[i].marketOrderId));
    }
  }

  lemma SweptIsProper(ticker: nat, log: seq<Response>, b: Book, r: Request)
    requires BookProper(ticker, log, b) && r.NewOrder? && r.side != NO_SIDE
    ensures SweepProper(ticker, log, Resting(b, r.side), TakerOf(b, r), Swept(ticker, b, r))
  {
    AcceptedIsProper(ticker, log, b, r);
    SweepIsProper(ticker, log, Resting(b, r.side), TakerOf(b, r),
                  Sweep(Resting(b, Opposite(r.side)), r.qty, [Accepted(ticker, b, r)], []));
  }

  lemma {:induction false} InsertKept(log: seq<Response>, s: seq<Order>, o: Order)
    requires Kept(log, s) && Kept(log, [o])
    ensures Kept(log, Insert(s, o))
  {
    assert forall i :: 0 <= i < |[o] + s| ==> ([o] + s)[i] == if i == 0 then o else s[i - 1];
    if s != [] && !Better(o.side, o.price, s[0].price) {
      InsertKept(log, s[1..], o);
    } else {
      assert [o][0] == o;
    }
  }

  lemma AddIsProper(ticker: nat, log: seq<Response>, b: Book, r: Request)
    requires BookProper(ticker, log, b) && r.NewOrder? && r.side != NO_SIDE
    ensures BookProper(ticker, log + Add(ticker, b, r).responses, Add(ticker, b, r).book)
  {
    SweptIsProper(ticker, log, b, r);
    SweptBookSides(ticker, b, r);
    if Swept(ticker, b, r).left > 0 {
      InsertKept(log + Swept(ticker, b, r).responses, Resting(b, r.side), Remainder(ticker, b, r));
    }
  }

  lemma WithdrawnIsProper(ticker: nat, log: seq<Response>, b: Book, side: Side, k: nat)
    requires BookProper(ticker, log, b) && k < |Resting(b, side)|
    ensures BookProper(ticker, log + Withdrawn(ticker, b, side, k).responses, Withdrawn(ticker, b, side, k).book)
  {
    var s := Resting(b, side);
    ProperStep(ticker, log, Withdrawn(ticker, b, side, k).responses[0]);
    assert forall i :: 0 <= i < |RemoveAt(s, k)| ==> RemoveAt(s, k)[i] == s[if i >= k then i + 1 else i];
  }

  lemma ProcessIsProper(ticker: nat, log: seq<Response>, b: Book, r: Request)
    requires BookProper(ticker, log, b) && Acceptable(ticker, b, r)
    ensures BookProper(ticker, log + Process(ticker, b, r).responses, Process(ticker, b, r).book)
  {
    if r.NewOrder? {
      AddIsProper(ticker, log, b, r);
    } else {
      var owner := Client(r.client, r.orderId);
      if Owns(b.bids, owner) {
        WithdrawnIsProper(ticker, log, b, BUY, Locate(b.bids, owner));
      } else if Owns(b.asks, owner) {
        WithdrawnIsProper(ticker, log, b, SELL, Locate(b.asks, owner));
      } else {
        ProperStep(ticker, log, Rejected(ticker, r));
      }
    }
  }

  lemma {:induction false} RunIsProper(ticker: nat, rs: seq<Request>)
    requires Admitted(ticker, rs)
    ensures BookProper(ticker, Run(ticker, rs).responses, Run(ticker, rs).book)
  {
    if rs != [] {
      var before := Run(ticker, rs[..|rs| - 1]);
      RunIsProper(ticker, rs[..|rs| - 1]);
      ProcessIsProper(ticker, before.responses, before.book, rs[|rs| - 1]);
    }
  }

  /**
   Over any history: two responses about one market order have the same addressee, client order id and
   side, and no fill is outside the limit its acceptance named.
   */
  lemma ResponsesAgree(ticker: nat, rs: seq<Request>, i: nat, j: nat)
    requires Admitted(ticker, rs) && i < |Run(ticker, rs).responses| && j < |Run(ticker, rs).responses|
    requires var log := Run(ticker, rs).responses;
             log[i].marketOrderId == log[j].marketOrderId && log[i].kind != CANCEL_REJECTED
                 && log[j].kind != CANCEL_REJECTED
    ensures var a, b := Run(ticker, rs).responses[i], Run(ticker, rs).responses[j];
            && a.client == b.client && a.clientOrderId == b.clientOrderId && a.side == b.side && a.ticker == b.ticker
            && (a.kind == ACCEPTED && b.kind == FILLED ==> Crosses(a.side, a.price, b.price))
            && (a.kind == ACCEPTED && b.kind == CANCELLED ==> a.price == b.price)
  {
    RunIsProper(ticker, rs);
    var log := Run(ticker, rs).responses;
    assert Proper(ticker, log[i], AccountOf(log, log[i].marketOrderId))
        && Proper(ticker, log[j], AccountOf(log, log[j].marketOrderId));
  }

  // ---------- one fill, four messages ----------

  /** The two fills, the trade and the maker's change tell the same story. */
  predicate Agree(t: Taker, taker: Response, maker: Response, trade: MarketUpdate, change: MarketUpdate) {
    && taker.marketOrderId == t.id && taker.price == maker.price && taker.execQty == maker.execQty
    && maker.side == change.side
    && trade.kind == TRADE && trade.side == taker.side == t.side && trade.price == maker.price
    && trade.qty == maker.execQty
    && change.kind == (if maker.leftQty == 0 then CANCEL else MODIFY)
    && change.orderId == maker.marketOrderId && change.price == maker.price && change.qty == maker.leftQty
    && trade.ticker == change.ticker == maker.ticker == taker.ticker
  }

  /** Every fill of a sweep sends two responses and two updates, and the four agree. */
  lemma {:induction false} FillsAreReportedAlike(ticker: nat, t: Taker, s: Sweep, i: nat)
    requires i < Fills(ticker, t, s)
    ensures var e := SweepAll(ticker, t, s);
            && |e.responses| == |s.responses| + 2 * Fills(ticker, t, s)
            && |e.updates| == |s.updates| + 2 * Fills(ticker, t, s)
            && s.updates <= e.updates
            && Agree(t, e.responses[|s.responses| + 2 * i], e.responses[|s.responses| + 2 * i + 1],
                     e.updates[|s.updates| + 2 * i], e.updates[|s.updates| + 2 * i + 1])
    decreases |s.resting|, s.left
  {
    var s1 := MatchHead(ticker, t, s);
    SweepShape(ticker, t, s);
    SweepShape(ticker, t, s1);
    if Fills(ticker, t, s1) > 0 {
      FillsAreReportedAlike(ticker, t, s1, if i == 0 then 0 else i - 1);
    } else {
      assert SweepAll(ticker, t, s) == s1;
    }
  }
}

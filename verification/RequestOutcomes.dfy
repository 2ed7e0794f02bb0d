/**
 What one request does, message by message and in closed form: which orders it meets, what everyone is
 told and with which fields, and what rests afterwards; and what a cancel takes out.
 */
module RequestOutcomes {
  import opened MarketTypes
  import opened Sequences
  import opened PriceTimeBook
  import opened BookSafety
  import opened Lifecycle

  /** A buyer pays no more than the limit, a seller gets no less. */
  predicate WithinLimit(side: Side, limit: nat, price: nat) {
    if side == BUY then price <= limit else price >= limit
  }

  function TotalQty(s: seq<Order>): nat {
    if s == [] then 0 else s[0].qty + TotalQty(s[1..])
  }

  /** What is left for order number `i` once those before it have been filled whole. */
  function LeftFor(s: seq<Order>, qty: nat, i: nat): nat
    requires i <= |s|
  {
    if TotalQty(s[..i]) >= qty then 0 else qty - TotalQty(s[..i])
  }

  function FillOf(s: seq<Order>, qty: nat, i: nat): nat
    requires i < |s|
  {
    if s[i].qty <= LeftFor(s, qty, i) then s[i].qty else LeftFor(s, qty, i)
  }

  // ---------- how many orders are met ----------

  /**
   Exactly the first `n` orders are met: they are within the limit and find quantity left; the next is not or does not.
   */
  ghost predicate Meets(side: Side, limit: nat, qty: nat, s: seq<Order>, n: nat) {
    && n <= |s|
    && (forall i :: 0 <= i < n ==> WithinLimit(side, limit, s[i].price) && LeftFor(s, qty, i) > 0)
    && (n < |s| ==> !WithinLimit(side, limit, s[n].price) || LeftFor(s, qty, n) == 0)
  }

  lemma TotalNext(s: seq<Order>, i: nat)
    requires 0 < i <= |s|
    ensures TotalQty(s[..i]) == s[0].qty + TotalQty(s[1..][..i - 1])
  {
    assert s[..i][1..] == s[1..][..i - 1];
  }

  /** With the first order filled whole, the rest of the sweep is that of the rest of the side. */
  lemma LeftNext(s: seq<Order>, qty: nat, i: nat)
    requires 0 < i <= |s| && s[0].qty <= qty
    ensures LeftFor(s, qty, i) == LeftFor(s[1..], qty - s[0].qty, i - 1)
    ensures i < |s| ==> FillOf(s, qty, i) == FillOf(s[1..], qty - s[0].qty, i - 1)
  {
    TotalNext(s, i);
  }

  lemma LeftAtFirst(s: seq<Order>, qty: nat)
    ensures LeftFor(s, qty, 0) == qty
  {
  }

  lemma {:induction false} FillsAreMet(ticker: nat, t: Taker, s: Sweep)
    requires t.side != NO_SIDE && AllPositive(s.resting)
    ensures Meets(t.side, t.limit, s.left, s.resting, Fills(ticker, t, s))
    decreases |s.resting|, s.left
  {
    LeftAtFirst(s.resting, s.left);
    if Matchable(t, s) {
      var s1 := MatchHead(ticker, t, s);
      FillsAreMet(ticker, t, s1);
      if s.resting[0].qty > s.left {
        assert Fills(ticker, t, s1) == 0;
        if |s.resting| > 1 {
          assert s.resting[..1] == [s.resting[0]];
        }
      } else {
        MetNext(t.side, t.limit, s.left, s.resting, Fills(ticker, t, s1));
      }
    }
  }

  lemma MetNext(side: Side, limit: nat, qty: nat, s: seq<Order>, n: nat)
    requires s != [] && s[0].qty <= qty && qty > 0 && WithinLimit(side, limit, s[0].price)
    requires Meets(side, limit, qty - s[0].qty, s[1..], n)
    ensures Meets(side, limit, qty, s, n + 1)
  {
    LeftAtFirst(s, qty);
    forall i | 0 < i < n + 1 ensures WithinLimit(side, limit, s[i].price) && LeftFor(s, qty, i) > 0 {
      LeftNext(s, qty, i);
      assert s[1..][i - 1] == s[i];
    }
    LeftNext(s, qty, n + 1);
    if n + 1 < |s| {
      assert s[1..][n] == s[n + 1];
    }
  }

  // ---------- what everyone is told ----------

  /** Fill number `i`: the two responses and the two updates, field by field. */
  ghost predicate FillTold(ticker: nat, t: Taker, s: seq<Order>, qty: nat, i: nat,
                           taker: Response, maker: Response, trade: MarketUpdate, change: MarketUpdate)
    requires i < |s|
  {
    var o, fill := s[i], FillOf(s, qty, i);
    && fill <= LeftFor(s, qty, i) && fill <= o.qty
    && taker == Response(FILLED, t.client, ticker, t.orderId, t.id, t.side, o.price, fill, LeftFor(s, qty, i) - fill)
    && maker == Response(FILLED, ClientOf(o), ticker, ClientOrderOf(o), o.id, o.side, o.price, fill, o.qty - fill)
    && trade == MarketUpdate(TRADE, INVALID_64, ticker, t.side, o.price, fill, INVALID_64)
    && change == MarketUpdate(if fill == o.qty then CANCEL else MODIFY, o.id, ticker, o.side, o.price, o.qty - fill,
                              o.priority)
  }

  /** Fill number `i` of a sweep from `before` to `after` is told as it should be. */
  ghost predicate ToldAt(ticker: nat, t: Taker, before: Sweep, after: Sweep, i: nat)
    requires i < |before.resting|
  {
    && |before.responses| + 2 * i + 1 < |after.responses| && |before.updates| + 2 * i + 1 < |after.updates|
    && FillTold(ticker, t, before.resting, before.left, i,
                after.responses[|before.responses| + 2 * i], after.responses[|before.responses| + 2 * i + 1],
                after.updates[|before.updates| + 2 * i], after.updates[|before.updates| + 2 * i + 1])
  }

  /** The messages before the sweep stand, and two responses and two updates a fill follow. */
  lemma {:induction false} MessagesFollow(ticker: nat, t: Taker, s: Sweep)
    ensures var e, n := SweepAll(ticker, t, s), Fills(ticker, t, s);
            && s.responses <= e.responses && |e.responses| == |s.responses| + 2 * n
            && s.updates <= e.updates && |e.updates| == |s.updates| + 2 * n
    decreases |s.resting|, s.left
  {
    if Matchable(t, s) {
      MessagesFollow(ticker, t, MatchHead(ticker, t, s));
    }
  }

  lemma FirstIsTold(ticker: nat, t: Taker, s: Sweep, e: Sweep)
    requires Matchable(t, s) && AllPositive(s.resting)
    requires var s1 := MatchHead(ticker, t, s); s1.responses <= e.responses && s1.updates <= e.updates
    ensures ToldAt(ticker, t, s, e, 0)
  {
    var s1 := MatchHead(ticker, t, s);
    var m, k := |s.responses|, |s.updates|;
    LeftAtFirst(s.resting, s.left);
    assert e.responses[m] == s1.responses[m] && e.responses[m + 1] == s1.responses[m + 1];
    assert e.updates[k] == s1.updates[k] && e.updates[k + 1] == s1.updates[k + 1];
  }

  lemma LaterIsTold(ticker: nat, t: Taker, s: Sweep, s1: Sweep, e: Sweep, i: nat)
    requires 0 < i < |s.resting| && s1.resting == s.resting[1..] && s.resting[0].qty <= s.left
    requires s1.left == s.left - s.resting[0].qty
    requires |s1.responses| == |s.responses| + 2 && |s1.updates| == |s.updates| + 2
    requires ToldAt(ticker, t, s1, e, i - 1)
    ensures ToldAt(ticker, t, s, e, i)
  {
    LeftNext(s.resting, s.left, i);
    assert s1.resting[i - 1] == s.resting[i];
  }

  lemma GoesOnWhole(ticker: nat, t: Taker, s: Sweep)
    requires Matchable(t, s) && Fills(ticker, t, s) > 1
    ensures var s1 := MatchHead(ticker, t, s);
            && s.resting[0].qty <= s.left && s1.left == s.left - s.resting[0].qty && s1.resting == s.resting[1..]
            && |s1.responses| == |s.responses| + 2 && |s1.updates| == |s.updates| + 2
  {
    assert Fills(ticker, t, MatchHead(ticker, t, s)) > 0;
  }

  lemma {:induction false} SweepTells(ticker: nat, t: Taker, s: Sweep, i: nat)
    requires AllPositive(s.resting) && i < Fills(ticker, t, s)
    ensures i < |s.resting| && ToldAt(ticker, t, s, SweepAll(ticker, t, s), i)
    decreases |s.resting|, s.left
  {
    var s1, e := MatchHead(ticker, t, s), SweepAll(ticker, t, s);
    if i == 0 {
      MessagesFollow(ticker, t, s1);
      FirstIsTold(ticker, t, s, e);
    } else {
      GoesOnWhole(ticker, t, s);
      SweepTells(ticker, t, s1, i - 1);
      LaterIsTold(ticker, t, s, s1, e, i);
    }
  }

  /** What stands after `n` fills: the orders behind them, and what is left of the last one met. */
  ghost predicate Stands(s: seq<Order>, qty: nat, n: nat, after: seq<Order>)
    requires n <= |s|
  {
    if n > 0 && FillOf(s, qty, n - 1) < s[n - 1].qty
    then after == [s[n - 1].(qty := s[n - 1].qty - FillOf(s, qty, n - 1))] + s[n..]
    else after == s[n..]
  }

  lemma FirstLeaves(s: seq<Order>, qty: nat)
    requires s != [] && AllPositive(s) && 0 < qty < s[0].qty
    ensures LeftFor(s, qty, 1) == 0 && Stands(s, qty, 1, [s[0].(qty := s[0].qty - qty)] + s[1..])
  {
    LeftAtFirst(s, qty);
    assert s[..1] == [s[0]];
  }

  lemma LaterLeave(s: seq<Order>, qty: nat, n: nat, after: seq<Order>)
    requires s != [] && s[0].qty <= qty && n < |s| && Stands(s[1..], qty - s[0].qty, n, after)
    ensures LeftFor(s, qty, n + 1) == LeftFor(s[1..], qty - s[0].qty, n) && Stands(s, qty, n + 1, after)
  {
    LeftNext(s, qty, n + 1);
    LeftAtFirst(s, qty);
    if n > 0 {
      LeftNext(s, qty, n);
      assert s[1..][n - 1] == s[n];
    }
    assert s[1..][n..] == s[n + 1..];
  }

  /** `n` fills leave `e` of the side `s` and the quantity `qty`. */
  ghost predicate Leaves(s: seq<Order>, qty: nat, n: nat, e: Sweep) {
    n <= |s| && e.left == LeftFor(s, qty, n) && Stands(s, qty, n, e.resting)
  }

  lemma PartLeaves(ticker: nat, t: Taker, s: Sweep)
    requires AllPositive(s.resting) && Matchable(t, s) && s.resting[0].qty > s.left
    ensures Leaves(s.resting, s.left, Fills(ticker, t, s), SweepAll(ticker, t, s))
  {
    var s1 := MatchHead(ticker, t, s);
    assert !Matchable(t, s1);
    FirstLeaves(s.resting, s.left);
  }

  lemma WholeLeaves(s: Sweep, s1: Sweep, n: nat, e: Sweep)
    requires s.resting != [] && s.resting[0].qty <= s.left
    requires s1.resting == s.resting[1..] && s1.left == s.left - s.resting[0].qty && Leaves(s1.resting, s1.left, n, e)
    ensures Leaves(s.resting, s.left, n + 1, e)
  {
    LaterLeave(s.resting, s.left, n, e.resting);
  }

  lemma {:induction false} SweepLeaves(ticker: nat, t: Taker, s: Sweep)
    requires AllPositive(s.resting)
    ensures Leaves(s.resting, s.left, Fills(ticker, t, s), SweepAll(ticker, t, s))
    decreases |s.resting|, s.left
  {
    if !Matchable(t, s) {
      LeftAtFirst(s.resting, s.left);
    } else if s.resting[0].qty > s.left {
      PartLeaves(ticker, t, s);
    } else {
      var s1 := MatchHead(ticker, t, s);
      SweepLeaves(ticker, t, s1);
      WholeLeaves(s, s1, Fills(ticker, t, s1), SweepAll(ticker, t, s1));
    }
  }

  // ---------- a new order ----------

  /** Position `k` is behind every price at least as good and before every worse one. */
  ghost predicate GoesBetween(side: Side, s: seq<Order>, price: nat, k: nat) {
    && k <= |s|
    && (forall i :: 0 <= i < k ==> if side == BUY then s[i].price >= price else s[i].price <= price)
    && (forall i :: k <= i < |s| ==> if side == BUY then s[i].price < price else s[i].price > price)
  }

  /** The last order at the price is at position `i`. */
  ghost predicate LastAt(s: seq<Order>, price: nat, i: nat) {
    i < |s| && s[i].price == price && forall j :: i < j < |s| ==> s[j].price != price
  }

  /** One more than the priority of the last order at the price, or 1 when there is none. */
  ghost predicate Follows(s: seq<Order>, price: nat, priority: nat) {
    || (priority == 1 && forall i :: 0 <= i < |s| ==> s[i].price != price)
    || exists i: nat :: LastAt(s, price, i) && priority == s[i].priority + 1
  }

  lemma {:induction false} NextPriorityFollows(s: seq<Order>, price: nat)
    ensures Follows(s, price, NextPriority(s, price))
  {
    if s != [] {
      if s[|s| - 1].price == price {
        assert LastAt(s, price, |s| - 1);
      } else {
        NextPriorityFollows(s[..|s| - 1], price);
        FollowsInit(s, price, NextPriority(s[..|s| - 1], price));
      }
    }
  }

  lemma FollowsInit(s: seq<Order>, price: nat, priority: nat)
    requires s != [] && s[|s| - 1].price != price && Follows(s[..|s| - 1], price, priority)
    ensures Follows(s, price, priority)
  {
    var init := s[..|s| - 1];
    if i: nat :| LastAt(init, price, i) && priority == init[i].priority + 1 {
      assert LastAt(s, price, i);
    } else {
      assert forall i :: 0 <= i < |init| ==> init[i] == s[i];
    }
  }

  /** Fill number `i` of a new order is told as it should be. */
  ghost predicate FillSent(ticker: nat, b: Book, r: Request, out: Outcome, i: nat)
    requires r.NewOrder?
  {
    && i < |Resting(b, Opposite(r.side))| && 2 * i + 2 < |out.responses| && 2 * i + 1 < |out.updates|
    && FillTold(ticker, Taker(r.client, r.orderId, b.nextId, r.side, r.price), Resting(b, Opposite(r.side)), r.qty, i,
                out.responses[2 * i + 1], out.responses[2 * i + 2], out.updates[2 * i], out.updates[2 * i + 1])
  }

  /** The messages of a new order that meets `n` orders: its acceptance, and four for each fill. */
  ghost predicate Told(ticker: nat, b: Book, r: Request, out: Outcome, n: nat)
    requires r.NewOrder?
  {
    && |out.responses| == 1 + 2 * n && |out.updates| >= 2 * n
    && out.responses[0] == Response(ACCEPTED, r.client, ticker, r.orderId, b.nextId, r.side, r.price, 0, r.qty)
    && forall i {:trigger FillSent(ticker, b, r, out, i)} :: 0 <= i < n ==> FillSent(ticker, b, r, out, i)
  }

  /** What is left of a new order after `n` fills rests at position `k`, and its entry quantity is published. */
  ghost predicate Rested(ticker: nat, b: Book, r: Request, out: Outcome, n: nat, k: nat)
    requires r.NewOrder? && n <= |Resting(b, Opposite(r.side))|
  {
    var own, left := Resting(b, r.side), LeftFor(Resting(b, Opposite(r.side)), r.qty, n);
    if left == 0 then Resting(out.book, r.side) == own && |out.updates| == 2 * n
    else
      && |out.updates| == 2 * n + 1
      && var u := out.updates[2 * n];
         && u == MarketUpdate(ADD, b.nextId, ticker, r.side, r.price, r.qty, u.priority)
         && Follows(own, r.price, u.priority) && GoesBetween(r.side, own, r.price, k)
         && Resting(out.book, r.side)
            == InsertAt(own, k, Order(b.nextId, Client(r.client, r.orderId), r.side, r.price, left, u.priority))
  }

  lemma ToldIsSent(ticker: nat, b: Book, r: Request, s: Sweep, e: Sweep, i: nat)
    requires r.NewOrder? && i < |s.resting|
    requires s == Sweep(Resting(b, Opposite(r.side)), r.qty, [Accepted(ticker, b, r)], [])
    requires ToldAt(ticker, TakerOf(b, r), s, e, i)
    ensures FillSent(ticker, b, r, Outcome(b, e.responses, e.updates), i)
  {
  }

  lemma SweptTells(ticker: nat, b: Book, r: Request) returns (n: nat)
    requires BookInv(b) && r.NewOrder? && r.side != NO_SIDE
    ensures var opp, e := Resting(b, Opposite(r.side)), Swept(ticker, b, r);
            && Meets(r.side, r.price, r.qty, opp, n)
            && e.left == LeftFor(opp, r.qty, n) && Stands(opp, r.qty, n, e.resting)
            && |e.updates| == 2 * n && Told(ticker, b, r, Outcome(b, e.responses, e.updates), n)
  {
    var t := TakerOf(b, r);
    var s := Sweep(Resting(b, Opposite(r.side)), r.qty, [Accepted(ticker, b, r)], []);
    var e := Swept(ticker, b, r);
    n := Fills(ticker, t, s);
    FillsAreMet(ticker, t, s);
    SweepLeaves(ticker, t, s);
    MessagesFollow(ticker, t, s);
    assert e.responses[0] == s.responses[0];
    forall i | 0 <= i < n ensures FillSent(ticker, b, r, Outcome(b, e.responses, e.updates), i) {
      SweepTells(ticker, t, s, i);
      ToldIsSent(ticker, b, r, s, e, i);
    }
  }

  lemma SlotIsBetween(side: Side, s: seq<Order>, price: nat, nextId: nat) returns (k: nat)
    requires side != NO_SIDE && SideInv(side, s, nextId)
    ensures GoesBetween(side, s, price, k) && IsSlot(s, side, price, k)
  {
    SidePricesOrdered(side, s, nextId);
    k := SlotExists(s, side, price);
  }

  lemma ToldKeeps(ticker: nat, b: Book, r: Request, e: Outcome, out: Outcome, n: nat)
    requires r.NewOrder? && Told(ticker, b, r, e, n) && out.responses == e.responses && e.updates <= out.updates
    ensures Told(ticker, b, r, out, n)
  {
    forall i | 0 <= i < n ensures FillSent(ticker, b, r, out, i) {
      assert FillSent(ticker, b, r, e, i);
    }
  }

  lemma RestedAt(ticker: nat, b: Book, r: Request, n: nat, k: nat)
    requires r.NewOrder? && r.side != NO_SIDE && n <= |Resting(b, Opposite(r.side))|
    requires Swept(ticker, b, r).left == LeftFor(Resting(b, Opposite(r.side)), r.qty, n)
    requires |Swept(ticker, b, r).updates| == 2 * n
    requires GoesBetween(r.side, Resting(b, r.side), r.price, k) && IsSlot(Resting(b, r.side), r.side, r.price, k)
    ensures Rested(ticker, b, r, Add(ticker, b, r), n, k)
    ensures Resting(Add(ticker, b, r).book, Opposite(r.side)) == Swept(ticker, b, r).resting
    ensures Add(ticker, b, r).book.nextId == b.nextId + 1
  {
    SweptBookSides(ticker, b, r);
    NextPriorityFollows(Resting(b, r.side), r.price);
    if Swept(ticker, b, r).left > 0 {
      InsertAtSlot(Resting(b, r.side), Remainder(ticker, b, r), k);
    }
  }

  /**
   A new order meets exactly the first orders within its limit that find quantity left; everyone is told each fill
   with the fields given; and the rest, if any, rests behind its price under the next id, published as it entered.
   */
  lemma NewOrderOutcome(ticker: nat, b: Book, r: Request) returns (n: nat, k: nat)
    requires BookInv(b) && r.NewOrder? && r.side != NO_SIDE
    ensures var opp, out := Resting(b, Opposite(r.side)), Process(ticker, b, r);
            && Meets(r.side, r.price, r.qty, opp, n) && out.book.nextId == b.nextId + 1
            && Stands(opp, r.qty, n, Resting(out.book, Opposite(r.side)))
            && Told(ticker, b, r, out, n) && Rested(ticker, b, r, out, n, k)
  {
    var e := Swept(ticker, b, r);
    n := SweptTells(ticker, b, r);
    k := SlotIsBetween(r.side, Resting(b, r.side), r.price, b.nextId);
    RestedAt(ticker, b, r, n, k);
    ToldKeeps(ticker, b, r, Outcome(b, e.responses, e.updates), Add(ticker, b, r), n);
  }

  // ---------- a cancel ----------

  /** A cancel takes out the order its client placed under that id, wherever it rests, and says so to that client. */
  lemma CancelOutcome(ticker: nat, b: Book, r: Request, side: Side, k: nat)
    requires BookInv(b) && r.CancelOrder? && side != NO_SIDE && k < |Resting(b, side)|
    requires Resting(b, side)[k].owner == Client(r.client, r.orderId)
    ensures var o, out := Resting(b, side)[k], Process(ticker, b, r);
            && out.book == WithSide(b, side, RemoveAt(Resting(b, side), k))
            && out.responses
               == [Response(CANCELLED, r.client, ticker, r.orderId, o.id, side, o.price, INVALID_QTY, o.qty)]
            && out.updates == [MarketUpdate(CANCEL, o.id, ticker, side, o.price, o.qty, o.priority)]
  {
    var owner := Client(r.client, r.orderId);
    LocatedAt(Resting(b, side), k);
    assert forall i :: 0 <= i < |Resting(b, Opposite(side))| ==> Resting(b, Opposite(side))[i].owner != owner;
  }

  lemma LocatedAt(s: seq<Order>, k: nat)
    requires k < |s| && DistinctOrders(s)
    ensures Locate(s, s[k].owner) == k
  {
  }

  /** With no such order the book stays as it is, nothing is published, and that client is told. */
  lemma RejectOutcome(ticker: nat, b: Book, r: Request)
    requires r.CancelOrder?
    requires forall i :: 0 <= i < |b.bids| ==> b.bids[i].owner != Client(r.client, r.orderId)
    requires forall i :: 0 <= i < |b.asks| ==> b.asks[i].owner != Client(r.client, r.orderId)
    ensures Process(ticker, b, r)
         == Outcome(b, [Response(CANCEL_REJECTED, r.client, ticker, r.orderId, INVALID_64, NO_SIDE, INVALID_64,
                                 INVALID_QTY, INVALID_QTY)], [])
  {
  }

  // ---------- whole runs ----------

  /** How many of the requests are new orders. */
  function NewOrders(rs: seq<Request>): nat {
    if rs == [] then 0 else NewOrders(rs[..|rs| - 1]) + if rs[|rs| - 1].NewOrder? then 1 else 0
  }

  /** Market order ids are 1, 2, 3 and so on, one for each new order. */
  lemma {:induction false} IdsAreCounted(ticker: nat, rs: seq<Request>)
    requires Admitted(ticker, rs)
    ensures Run(ticker, rs).book.nextId == NewOrders(rs) + 1
  {
    if rs != [] {
      var init, last := rs[..|rs| - 1], rs[|rs| - 1];
      IdsAreCounted(ticker, init);
      RunKeepsInv(ticker, init);
      if last.NewOrder? {
        var n, k := NewOrderOutcome(ticker, Run(ticker, init).book, last);
      }
    }
  }

  /** A trade is public: it names neither an order nor a place in a queue. */
  ghost predicate TradesAreAnonymous(us: seq<MarketUpdate>) {
    forall i :: 0 <= i < |us| && us[i].kind == TRADE ==> us[i].orderId == INVALID_64 && us[i].priority == INVALID_64
  }

  lemma FillIsAnonymous(ticker: nat, b: Book, r: Request, out: Outcome, n: nat, j: nat)
    requires r.NewOrder? && Told(ticker, b, r, out, n) && j < 2 * n
    ensures out.updates[j].kind == TRADE ==>
              out.updates[j].orderId == INVALID_64 && out.updates[j].priority == INVALID_64
  {
    assert FillSent(ticker, b, r, out, j / 2);
    assert j == 2 * (j / 2) || j == 2 * (j / 2) + 1;
  }

  lemma OutcomeIsAnonymous(ticker: nat, b: Book, r: Request, out: Outcome, n: nat, k: nat)
    requires r.NewOrder? && n <= |Resting(b, Opposite(r.side))|
    requires Told(ticker, b, r, out, n) && Rested(ticker, b, r, out, n, k)
    ensures TradesAreAnonymous(out.updates)
  {
    forall j | 0 <= j < |out.updates| && out.updates[j].kind == TRADE
      ensures out.updates[j].orderId == INVALID_64 && out.updates[j].priority == INVALID_64
    {
      if j < 2 * n {
        FillIsAnonymous(ticker, b, r, out, n, j);
      }
    }
  }

  lemma RequestIsAnonymous(ticker: nat, b: Book, r: Request)
    requires BookInv(b) && Acceptable(ticker, b, r)
    ensures TradesAreAnonymous(Process(ticker, b, r).updates)
  {
    if r.NewOrder? {
      var n, k := NewOrderOutcome(ticker, b, r);
      OutcomeIsAnonymous(ticker, b, r, Process(ticker, b, r), n, k);
    }
  }

  /** Over any history no trade names an order or a priority. */
  lemma {:induction false} RunIsAnonymous(ticker: nat, rs: seq<Request>)
    requires Admitted(ticker, rs)
    ensures TradesAreAnonymous(Run(ticker, rs).updates)
  {
    if rs != [] {
      RunIsAnonymous(ticker, rs[..|rs| - 1]);
      RunKeepsInv(ticker, rs[..|rs| - 1]);
      RequestIsAnonymous(ticker, Run(ticker, rs[..|rs| - 1]).book, rs[|rs| - 1]);
    }
  }
}

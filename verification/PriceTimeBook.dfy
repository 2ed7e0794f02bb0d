/**
 The matching engine's book as a pure price-time-priority model: one sequence of resting
 orders a side, best price first and oldest first within a price.
 */
module PriceTimeBook {
  import opened MarketTypes
  import opened Sequences

  datatype Book = Book(bids: seq<Order>, asks: seq<Order>, nextId: nat)

  const EMPTY: Book := Book([], [], 1)

  datatype Request =
    | NewOrder(client: nat, orderId: nat, side: Side, price: nat, qty: nat)
    | CancelOrder(client: nat, orderId: nat)

  /** What one request leaves behind: the new book and the messages it sent, in order. */
  datatype Outcome = Outcome(book: Book, responses: seq<Response>, updates: seq<MarketUpdate>)

  function Resting(b: Book, side: Side): seq<Order> {
    if side == BUY then b.bids else b.asks
  }

  function WithSide(b: Book, side: Side, s: seq<Order>): Book {
    if side == BUY then b.(bids := s) else b.(asks := s)
  }

  // ---------- placing and finding orders ----------

  /** Price-time insertion: behind every order at least as good, before every worse one. */
  function Insert(s: seq<Order>, o: Order): (r: seq<Order>)
    ensures |r| == |s| + 1
  {
    if s == [] || Better(o.side, o.price, s[0].price) then [o] + s
    else [s[0]] + Insert(s[1..], o)
  }

  /** The first position held by this owner, or the length of `s`. */
  function Locate(s: seq<Order>, owner: Owner): (k: nat)
    ensures k <= |s|
    ensures k < |s| ==> s[k].owner == owner
    ensures forall i :: 0 <= i < k ==> s[i].owner != owner
  {
    if s == [] || s[0].owner == owner then 0 else 1 + Locate(s[1..], owner)
  }

  /** One more than the priority of the youngest order at this price; 1 on a new level. */
  function NextPriority(s: seq<Order>, price: nat): nat {
    if s == [] then 1
    else if s[|s| - 1].price == price then s[|s| - 1].priority + 1
    else NextPriority(s[..|s| - 1], price)
  }

  // ---------- the sweep of an aggressive order ----------

  datatype Taker = Taker(client: nat, orderId: nat, id: nat, side: Side, limit: nat)

  /** A sweep in progress over the opposite side. */
  datatype Sweep = Sweep(
    resting: seq<Order>, left: nat, responses: seq<Response>, updates: seq<MarketUpdate>)

  function ClientOf(o: Order): nat {
    if o.owner.Client? then o.owner.client else INVALID_64
  }

  function ClientOrderOf(o: Order): nat {
    if o.owner.Client? then o.owner.orderId else INVALID_64
  }

  predicate Matchable(t: Taker, s: Sweep) {
    s.left > 0 && |s.resting| > 0 && Crosses(t.side, t.limit, s.resting[0].price)
  }

  function TakerFill(ticker: nat, t: Taker, maker: Order, fill: nat, left: nat): Response {
    Response(FILLED, t.client, ticker, t.orderId, t.id, t.side, maker.price, fill, left)
  }

  function MakerFill(ticker: nat, maker: Order, fill: nat, rest: nat): Response {
    Response(FILLED, ClientOf(maker), ticker, ClientOrderOf(maker), maker.id, maker.side, maker.price, fill, rest)
  }

  function TradeUpdate(ticker: nat, t: Taker, maker: Order, fill: nat): MarketUpdate {
    MarketUpdate(TRADE, INVALID_64, ticker, t.side, maker.price, fill, INVALID_64)
  }

  function MakerUpdate(ticker: nat, maker: Order, rest: nat): MarketUpdate {
    MarketUpdate(if rest == 0 then CANCEL else MODIFY, maker.id, ticker, maker.side, maker.price, rest, maker.priority)
  }

  /** One fill against the oldest order at the best opposite price. */
  function MatchHead(ticker: nat, t: Taker, s: Sweep): Sweep
    requires Matchable(t, s)
  {
    var maker := s.resting[0];
    var fill := Min(maker.qty, s.left);
    var left := s.left - fill;
    var rest := maker.qty - fill;
    Sweep(
      if rest == 0 then s.resting[1..] else [maker.(qty := rest)] + s.resting[1..],
      left,
      s.responses + [TakerFill(ticker, t, maker, fill, left), MakerFill(ticker, maker, fill, rest)],
      s.updates + [TradeUpdate(ticker, t, maker, fill), MakerUpdate(ticker, maker, rest)])
  }

  /** Fills until the quantity, the opposite side or the crossing prices run out. */
  function SweepAll(ticker: nat, t: Taker, s: Sweep): (r: Sweep)
    ensures !Matchable(t, r)
    decreases |s.resting|, s.left
  {
    if Matchable(t, s) then SweepAll(ticker, t, MatchHead(ticker, t, s)) else s
  }

  // ---------- the two requests ----------

  function TakerOf(b: Book, r: Request): Taker
    requires r.NewOrder?
  {
    Taker(r.client, r.orderId, b.nextId, r.side, r.price)
  }

  function Accepted(ticker: nat, b: Book, r: Request): Response
    requires r.NewOrder?
  {
    Response(ACCEPTED, r.client, ticker, r.orderId, b.nextId, r.side, r.price, 0, r.qty)
  }

  /** The book and messages after acceptance and matching, before a remainder rests. */
  function Swept(ticker: nat, b: Book, r: Request): Sweep
    requires r.NewOrder?
  {
    SweepAll(ticker, TakerOf(b, r),
             Sweep(Resting(b, Opposite(r.side)), r.qty, [Accepted(ticker, b, r)], []))
  }

  function SweptBook(ticker: nat, b: Book, r: Request): Book
    requires r.NewOrder?
  {
    WithSide(b, Opposite(r.side), Swept(ticker, b, r).resting).(nextId := b.nextId + 1)
  }

  function Remainder(ticker: nat, b: Book, r: Request): Order
    requires r.NewOrder?
  {
    Order(b.nextId, Client(r.client, r.orderId), r.side, r.price, Swept(ticker, b, r).left,
          NextPriority(Resting(b, r.side), r.price))
  }

  /** The ADD carries the entry quantity, not what is left of it. */
  function AddUpdate(ticker: nat, o: Order, entryQty: nat): MarketUpdate {
    MarketUpdate(ADD, o.id, ticker, o.side, o.price, entryQty, o.priority)
  }

  function Add(ticker: nat, b: Book, r: Request): Outcome
    requires r.NewOrder?
  {
    var s := Swept(ticker, b, r);
    var b' := SweptBook(ticker, b, r);
    if s.left == 0 then Outcome(b', s.responses, s.updates)
    else
      var o := Remainder(ticker, b, r);
      Outcome(WithSide(b', r.side, Insert(Resting(b', r.side), o)), s.responses,
              s.updates + [AddUpdate(ticker, o, r.qty)])
  }

  function Rejected(ticker: nat, r: Request): Response {
    Response(CANCEL_REJECTED, r.client, ticker, r.orderId, INVALID_64, NO_SIDE, INVALID_64, INVALID_QTY, INVALID_QTY)
  }

  function Withdrawn(ticker: nat, b: Book, side: Side, k: nat): Outcome
    requires k < |Resting(b, side)|
  {
    var o := Resting(b, side)[k];
    Outcome(WithSide(b, side, RemoveAt(Resting(b, side), k)),
            [Response(CANCELLED, ClientOf(o), ticker, ClientOrderOf(o), o.id, o.side, o.price, INVALID_QTY, o.qty)],
            [MarketUpdate(CANCEL, o.id, ticker, o.side, o.price, o.qty, o.priority)])
  }

  function Cancel(ticker: nat, b: Book, r: Request): Outcome
    requires r.CancelOrder?
  {
    var owner := Client(r.client, r.orderId);
    if Locate(b.bids, owner) < |b.bids| then Withdrawn(ticker, b, BUY, Locate(b.bids, owner))
    else if Locate(b.asks, owner) < |b.asks| then Withdrawn(ticker, b, SELL, Locate(b.asks, owner))
    else Outcome(b, [Rejected(ticker, r)], [])
  }

  function Process(ticker: nat, b: Book, r: Request): Outcome {
    if r.NewOrder? then Add(ticker, b, r) else Cancel(ticker, b, r)
  }

  // ---------- what every reachable book satisfies ----------

  /** One side: own orders, positive quantities, and strict price-time order. */
  ghost predicate SideInv(side: Side, s: seq<Order>, nextId: nat) {
    && (forall i :: 0 <= i < |s| ==> s[i].side == side && s[i].qty > 0 && 1 <= s[i].id < nextId && s[i].owner.Client?)
    && Sorted(side, s)
  }

  ghost predicate Sorted(side: Side, s: seq<Order>) {
    forall i, j :: 0 <= i < j < |s| ==> Before(side, s[i], s[j])
  }

  /** Strictly better price, or the same price and older: smaller id and smaller priority. */
  ghost predicate Before(side: Side, a: Order, b: Order) {
    || Better(side, a.price, b.price)
    || (a.price == b.price && a.id < b.id && a.priority < b.priority)
  }

  ghost predicate DistinctOrders(s: seq<Order>) {
    forall i, j :: 0 <= i < j < |s| ==> s[i].id != s[j].id && s[i].owner != s[j].owner
  }

  ghost predicate Unrelated(s: seq<Order>, t: seq<Order>) {
    forall i, j :: 0 <= i < |s| && 0 <= j < |t| ==> s[i].id != t[j].id && s[i].owner != t[j].owner
  }

  /** Every bid is strictly below every ask. */
  ghost predicate Uncrossed(bids: seq<Order>, asks: seq<Order>) {
    forall i, j :: 0 <= i < |bids| && 0 <= j < |asks| ==> bids[i].price < asks[j].price
  }

  ghost predicate BookInv(b: Book) {
    && b.nextId >= 1
    && SideInv(BUY, b.bids, b.nextId) && SideInv(SELL, b.asks, b.nextId)
    && DistinctOrders(b.bids) && DistinctOrders(b.asks)
    && Unrelated(b.bids, b.asks)
    && Uncrossed(b.bids, b.asks)
  }

  predicate Owns(s: seq<Order>, owner: Owner) {
    Locate(s, owner) < |s|
  }

  predicate OwnerFree(b: Book, owner: Owner) {
    !Owns(b.bids, owner) && !Owns(b.asks, owner)
  }

  /** What the book demands of a new order: a real side, and no live order under its client order id when it rests. */
  predicate Acceptable(ticker: nat, b: Book, r: Request) {
    r.NewOrder? ==>
      && r.side != NO_SIDE
      && (Swept(ticker, b, r).left > 0 ==> OwnerFree(SweptBook(ticker, b, r), Client(r.client, r.orderId)))
  }
}

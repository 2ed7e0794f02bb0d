/** A participant's linked book, rebuilt from market data, with its cached best bid and offer. */
module MarketOrderBooks {
  import opened MarketTypes
  import opened Sequences
  import opened PriceTimeBook
  import opened BookSafety
  import opened Rings
  import opened LadderHeap
  import opened LadderOrder
  import opened PriceLadders
  import opened MatchingBook
  import opened ReplicaBook
  import opened BestBidOffer

  // ---------- what the book needs of its orders ----------

  ghost predicate NamedOn(side: Side, s: seq<Order>) {
    forall i :: 0 <= i < |s| ==> s[i].side == side && s[i].owner == Public(s[i].id)
  }

  /** Every order is on its side, under its own market id, and no id is used twice. */
  ghost predicate TidyInv(r: Replica) {
    && NamedOn(BUY, r.bids) && NamedOn(SELL, r.asks)
    && DistinctOrders(r.bids) && DistinctOrders(r.asks) && Unrelated(r.bids, r.asks)
  }

  ghost predicate SameReplica(r: Replica, q: Replica) {
    r == q
  }

  /** `TidyInv`, folded: methods carry it whole and lemmas unfold it. */
  ghost predicate Tidy(r: Replica) {
    forall q {:trigger SameReplica(r, q)} :: SameReplica(r, q) ==> TidyInv(q)
  }

  lemma TidyIsInv(r: Replica)
    ensures Tidy(r) <==> TidyInv(r)
  {
    assert SameReplica(r, r);
  }

  lemma RemovedStaysTidy(r: Replica, side: Side, k: nat)
    requires Tidy(r) && side != NO_SIDE && k < |Of(r, side)|
    ensures Tidy(With(r, side, RemoveAt(Of(r, side), k)))
    ensures DistinctOrders(Of(r, side)) && Unrelated(Of(r, side), Of(r, Opposite(side)))
  {
    TidyIsInv(r);
    TidyIsInv(With(r, side, RemoveAt(Of(r, side), k)));
    RemovedNames(side, Of(r, side), k);
    RemoveKeepsCross(Of(r, side), k, Of(r, Opposite(side)));
  }

  lemma RemovedNames(side: Side, s: seq<Order>, k: nat)
    requires k < |s| && NamedOn(side, s) && DistinctOrders(s)
    ensures NamedOn(side, RemoveAt(s, k)) && DistinctOrders(RemoveAt(s, k))
  {
    var t := RemoveAt(s, k);
    assert forall i :: 0 <= i < |t| ==> t[i] == s[if i >= k then i + 1 else i];
  }

  lemma RequantifiedStaysTidy(r: Replica, side: Side, k: nat, qty: nat)
    requires Tidy(r) && side != NO_SIDE && k < |Of(r, side)|
    ensures Tidy(With(r, side, Of(r, side)[k := Of(r, side)[k].(qty := qty)]))
  {
    TidyIsInv(r);
    TidyIsInv(With(r, side, Of(r, side)[k := Of(r, side)[k].(qty := qty)]));
    var t := Of(r, side)[k := Of(r, side)[k].(qty := qty)];
    assert forall i :: 0 <= i < |t| ==> t[i] == Of(r, side)[i].(qty := t[i].qty);
  }

  lemma {:induction false} InsertPlaces(s: seq<Order>, o: Order) returns (k: nat)
    ensures k <= |s| && Insert(s, o) == InsertAt(s, k, o)
  {
    if s == [] || Better(o.side, o.price, s[0].price) {
      k := 0;
    } else {
      var j := InsertPlaces(s[1..], o);
      k := j + 1;
      assert [s[0]] + s[1..][..j] == s[..k] && s[1..][j..] == s[k..];
    }
  }

  lemma InsertedNames(side: Side, s: seq<Order>, k: nat, o: Order)
    requires k <= |s| && NamedOn(side, s) && DistinctOrders(s) && o.side == side && o.owner == Public(o.id)
    requires forall i :: 0 <= i < |s| ==> s[i].owner != o.owner
    ensures NamedOn(side, InsertAt(s, k, o)) && DistinctOrders(InsertAt(s, k, o))
  {
    var t := InsertAt(s, k, o);
    assert forall i :: 0 <= i < |t| ==> t[i] == if i == k then o else s[if i > k then i - 1 else i];
  }

  lemma AddedStaysTidy(r: Replica, o: Order)
    requires Tidy(r) && o.side != NO_SIDE && o.owner == Public(o.id) && SideOf(r, o.id) == NO_SIDE
    ensures Tidy(With(r, o.side, Insert(Of(r, o.side), o)))
  {
    TidyIsInv(r);
    TidyIsInv(With(r, o.side, Insert(Of(r, o.side), o)));
    var s := Of(r, o.side);
    var k := InsertPlaces(s, o);
    InsertUnrelated(s, k, o, Of(r, Opposite(o.side)));
    InsertedNames(o.side, s, k, o);
  }

  // ---------- what an addition demands of the pools and tables ----------

  /** The replica as the sweep-free book the capacity conditions are stated for. */
  function AsBook(r: Replica): Book {
    Book(r.bids, r.asks, 1)
  }

  function AsRequest(u: MarketUpdate): Request {
    NewOrder(0, 0, u.side, u.price, u.qty)
  }

  /**
   What the code needs, but does not check: ids within the table; for an addition, a real side, an unknown
   id, a usable price slot and cells to spare; and an empty book for a CLEAR.
   */
  ghost predicate Manageable(r: Replica, u: MarketUpdate) {
    match u.kind
    case ADD =>
      && u.side != NO_SIDE && u.orderId < MAX_ORDER_IDS && SideOf(r, u.orderId) == NO_SIDE
      && Fits(AsBook(r), AsRequest(u)) && Unpriced(Of(r, Opposite(u.side)), u.price)
    case MODIFY => u.orderId < MAX_ORDER_IDS
    case CANCEL => u.orderId < MAX_ORDER_IDS
    case CLEAR => r == BLANK
    case _ => true
  }

  // ---------- the best level ----------

  lemma {:induction false} NothingAtPrice(s: seq<Order>, price: nat)
    requires forall i :: 0 <= i < |s| ==> s[i].price != price
    ensures LevelQty(s, price) == 0
  {
    if s != [] {
      NothingAtPrice(s[1..], price);
    }
  }

  /** The best level's cells come first, and every other cell holds another price. */
  lemma BestCellsFirst(h: Heap, sh: Shape, side: Side) returns (l: int, rest: seq<int>)
    requires Inv(h, sh) && side != NO_SIDE && Mapped(RingOf(sh, side), sh.fifo) && Ptrs(sh, side) != []
    ensures l == HeadOf(h, side) && 0 <= l < |h.levels| && l in sh.fifo && FifoOk(h, sh, l)
    ensures Ptrs(sh, side) == sh.fifo[l] + rest && InStore(h.orders, rest)
    ensures forall m :: 0 <= m < |rest| ==> h.orders[rest[m]].item.price != h.levels[l].item.price
  {
    var ring := RingOf(sh, side);
    HeadIsBest(h, sh, side);
    assert SideOk(h, sh, side);
    l := ring[0];
    assert FifoOk(h, sh, l);
    FlatSplit(ring, 0, sh.fifo);
    rest := Flat(ring[1..], sh.fifo);
    forall m | 0 <= m < |rest|
      ensures 0 <= rest[m] < |h.orders| && h.orders[rest[m]].item.price != h.levels[l].item.price
    {
      BehindLevel(h, sh, ring, 0, m);
    }
  }

  lemma QtyUpFront(store: seq<Node<Order>>, f: seq<int>, rest: seq<int>, price: nat)
    requires InStore(store, f) && InStore(store, rest) && InStore(store, f + rest)
    requires forall m :: 0 <= m < |rest| ==> store[rest[m]].item.price != price
    ensures LevelQty(Items(store, f + rest), price) == LevelQty(Items(store, f), price)
  {
    NothingAtPrice(Items(store, rest), price);
    LevelQtyConcat(Items(store, f), Items(store, rest), price);
    assert Items(store, f + rest) == Items(store, f) + Items(store, rest);
  }

  /** The head level's ring is the front of the side's cells, and holds exactly the orders at the best price. */
  lemma BestLevel(h: Heap, sh: Shape, side: Side, cells: seq<int>, book: seq<Order>)
    requires Inv(h, sh) && side != NO_SIDE && ShowsSide(h, sh, side, cells, book) && book != []
    ensures var l := HeadOf(h, side);
            && 0 <= l < |h.levels| && l in sh.fifo && FifoOk(h, sh, l) && h.levels[l].item.price == book[0].price
            && sh.fifo[l] <= cells
            && (forall i :: 0 <= i < |book| ==> (book[i].price == book[0].price <==> i < |sh.fifo[l]|))
            && LevelQty(book, book[0].price) == LevelQty(Items(h.orders, sh.fifo[l]), book[0].price)
  {
    var l, rest := BestCellsFirst(h, sh, side);
    assert cells[0] == sh.fifo[l][0];
    QtyUpFront(h.orders, sh.fifo[l], rest, book[0].price);
    SplitByPrice(h, sh, l, cells, rest, book);
  }

  lemma SplitByPrice(h: Heap, sh: Shape, l: int, cells: seq<int>, rest: seq<int>, book: seq<Order>)
    requires 0 <= l < |h.levels| && l in sh.fifo && FifoOk(h, sh, l) && cells == sh.fifo[l] + rest
    requires InStore(h.orders, cells) && InStore(h.orders, rest) && book == Items(h.orders, cells)
    requires forall m :: 0 <= m < |rest| ==> h.orders[rest[m]].item.price != h.levels[l].item.price
    ensures forall i :: 0 <= i < |book| ==> (book[i].price == h.levels[l].item.price <==> i < |sh.fifo[l]|)
  {
    forall i | 0 <= i < |book| ensures book[i].price == h.levels[l].item.price <==> i < |sh.fifo[l]| {
      assert cells[i] == if i < |sh.fifo[l]| then sh.fifo[l][i] else rest[i - |sh.fifo[l]|];
    }
  }

  lemma LevelQtyUpTo(s: seq<Order>, k: nat, price: nat)
    requires k < |s| && s[k].price == price
    ensures LevelQty(s[..k + 1], price) == LevelQty(s[..k], price) + s[k].qty
  {
    assert s[..k + 1] == s[..k] + [s[k]];
    LevelQtyConcat(s[..k], [s[k]], price);
  }

  /** One more order of the level adds its quantity to the 32-bit sum. */
  lemma SumNext(s: seq<Order>, k: nat, price: nat, qty: nat)
    requires k < |s| && s[k].price == price && qty == LevelQty(s[..k], price) % QTY_MODULUS
    ensures (qty + s[k].qty) % QTY_MODULUS == LevelQty(s[..k + 1], price) % QTY_MODULUS
  {
    LevelQtyUpTo(s, k, price);
  }

  /** After `k` steps from the head the walk is at the ring's cell number `k`, and back at the head after one turn. */
  lemma WalkedTo(store: seq<Node<Order>>, f: seq<int>, k: nat)
    requires IsRing(store, f) && 0 < k <= |f|
    ensures Walk(store, f[0], k) == f[if k == |f| then 0 else k]
    ensures k < |f| ==> f[k] != f[0] && 0 <= f[k] < |store| && Walk(store, f[0], k + 1) == store[f[k]].next
  {
    WalkFollowsRing(store, f, 0, k);
  }

  class MarketOrderBook {
    const ticker: nat
    const ladder: PriceLadder
    /** Market order id to order cell; an absent entry is a null pointer. */
    var orderOf: map<Owner, int>
    var bbo: BBO

    /** The two sequences these cells stand for. */
    ghost function Model(): Replica
      reads ladder
    {
      Replica(ladder.Book(BUY), ladder.Book(SELL))
    }

    ghost predicate Valid()
      reads this, ladder, ladder.orders, ladder.orders.objects, ladder.orders.isFree,
            ladder.levels, ladder.levels.objects, ladder.levels.isFree
    {
      && this !in ladder.Repr()
      && ladder.orders.isFree.Length == MAX_ORDER_IDS && ladder.levels.isFree.Length == MAX_PRICE_LEVELS
      && ladder.Valid()
      && IndexedFrom(BUY)
      && Tidy(Model())
    }

    /** The table agrees with the ladder, read with `side` first. */
    ghost predicate IndexedFrom(side: Side)
      reads this, ladder
    {
      Exact(orderOf, ladder.Side(side), ladder.Book(side), ladder.Side(Opposite(side)), ladder.Book(Opposite(side)))
    }

    lemma IndexedEitherWay(side: Side)
      requires side != NO_SIDE
      ensures IndexedFrom(side) <==> IndexedFrom(BUY)
    {
      if IndexedFrom(BUY) {
        ExactSwaps(orderOf, ladder.Side(BUY), ladder.Book(BUY), ladder.Side(SELL), ladder.Book(SELL));
      }
      if IndexedFrom(SELL) {
        ExactSwaps(orderOf, ladder.Side(SELL), ladder.Book(SELL), ladder.Side(BUY), ladder.Book(BUY));
      }
    }

    constructor (ticker: nat)
      ensures Valid() && Model() == BLANK && bbo == NO_QUOTES && this.ticker == ticker
      ensures fresh(ladder.Repr())
    {
      this.ticker := ticker;
      ladder := new PriceLadder(MAX_PRICE_LEVELS, MAX_ORDER_IDS);
      new;
      assert ladder.ValidBut({});
      orderOf := map[];
      bbo := NO_QUOTES;
      ExactIsIndexed(map[], [], [], [], []);
      TidyIsInv(BLANK);
    }

    /** Applies one update and refreshes the side of the cache it may have moved; a trade does neither. */
    method OnMarketUpdate(u: MarketUpdate)
      requires Valid() && Manageable(Model(), u)
      modifies this, ladder, ladder.orders, ladder.orders.objects, ladder.orders.isFree,
               ladder.levels, ladder.levels.objects, ladder.levels.isFree
      ensures Valid() && Model() == Apply(old(Model()), u)
      ensures bbo == BboNext(old(Model()), old(bbo), u)
    {
      var bidUpdated := TouchesBest(BUY, u);
      var askUpdated := TouchesBest(SELL, u);
      match u.kind {
        case ADD => AddOrder(u);
        case MODIFY => ModifyOrder(u);
        case CANCEL => CancelOrder(u);
        case TRADE => return;
        case _ =>
      }
      UpdateBBO(bidUpdated, askUpdated);
    }

    /** Whether the update is for this side, at its best price or better. */
    method TouchesBest(side: Side, u: MarketUpdate) returns (touches: bool)
      requires Valid() && side != NO_SIDE
      ensures touches == AtBest(Model(), side, u)
    {
      var head := if side == BUY then ladder.bids else ladder.asks;
      assert ladder.ValidBut({}) && ladder.Shown(side);
      HeadIsBest(ladder.H(), ladder.shape, side);
      if head == NIL || u.side != side {
        return false;
      }
      BestLevel(ladder.H(), ladder.shape, side, ladder.Side(side), ladder.Book(side));
      var price := ladder.levels.objects[head].item.price;
      touches := if side == BUY then u.price >= price else u.price <= price;
    }

    method AddOrder(u: MarketUpdate)
      requires Valid() && u.kind == ADD && Manageable(Model(), u)
      modifies this`orderOf, ladder, ladder.orders`nextFree, ladder.orders.objects, ladder.orders.isFree,
               ladder.levels`nextFree, ladder.levels.objects, ladder.levels.isFree
      ensures Valid() && Model() == Apply(old(Model()), u)
    {
      var o := Order(u.orderId, Public(u.orderId), u.side, u.price, u.qty, u.priority);
      ghost var model := Model();
      AddedStaysTidy(model, o);
      IndexedEitherWay(u.side);
      RoomFor(u);
      FileOrder(o);
      assert Model() == With(model, o.side, Insert(Of(model, o.side), o));
      IndexedEitherWay(u.side);
    }

    /** A manageable addition finds a usable slot and a cell to spare in both pools. */
    lemma RoomFor(u: MarketUpdate)
      requires Valid() && u.kind == ADD && Manageable(Model(), u)
      ensures ladder.Restable(u.side, u.price)
      ensures |ladder.orders.Live()| + 1 < ladder.orders.isFree.Length
    {
      assert ladder.ValidBut({});
      SidesMapped(ladder.H(), ladder.shape);
      assert ladder.Shown(BUY) && ladder.Shown(SELL);
      FitsLeavesRoom(ladder.H(), ladder.shape, AsBook(Model()), AsRequest(u));
    }

    /** Files an order behind its price and enters it in the id table. */
    method FileOrder(o: Order)
      requires ladder.Valid() && this !in ladder.Repr() && o.side != NO_SIDE && IndexedFrom(o.side)
      requires InTable(o.owner) && !Owns(ladder.Book(BUY), o.owner) && !Owns(ladder.Book(SELL), o.owner)
      requires ladder.Restable(o.side, o.price) && |ladder.orders.Live()| + 1 < ladder.orders.isFree.Length
      modifies this`orderOf, ladder, ladder.orders`nextFree, ladder.orders.objects, ladder.orders.isFree,
               ladder.levels`nextFree, ladder.levels.objects, ladder.levels.isFree
      ensures ladder.Valid() && IndexedFrom(o.side)
      ensures ladder.Book(o.side) == Insert(old(ladder.Book(o.side)), o)
      ensures ladder.Book(Opposite(o.side)) == old(ladder.Book(Opposite(o.side)))
    {
      ghost var ps, s := ladder.Side(o.side), ladder.Book(o.side);
      ghost var qs, t := ladder.Side(Opposite(o.side)), ladder.Book(Opposite(o.side));
      var p;
      ghost var n;
      ExactIsIndexed(orderOf, ps, s, qs, t);
      p, n := ladder.Place(o);
      ExactPlaced(orderOf, ps, s, qs, t, n, o, p);
      orderOf := orderOf[o.owner := p];
    }

    /** Finds the cell of an id in the table, and its place in the model. */
    method Lookup(id: nat) returns (p: int, ghost side: Side, ghost k: nat)
      requires Valid() && id < MAX_ORDER_IDS
      ensures side == SideOf(Model(), id)
      ensures p == NIL <==> side == NO_SIDE
      ensures p != NIL ==> k == Seek(Of(Model(), side), id) && k < |ladder.Side(side)| && p == ladder.Side(side)[k]
    {
      TableFinds(orderOf, ladder.Side(BUY), ladder.Book(BUY), ladder.Side(SELL), ladder.Book(SELL), Public(id));
      side := SideOf(Model(), id);
      k := Seek(Of(Model(), side), id);
      if Public(id) !in orderOf {
        return NIL, side, k;
      }
      p := orderOf[Public(id)];
      assert ladder.ValidBut({}) && ladder.Shown(side);
      PtrsInStore(ladder.H(), ladder.shape, side);
    }

    /** A change to an unknown order is ignored. */
    method ModifyOrder(u: MarketUpdate)
      requires Valid() && u.kind == MODIFY && u.orderId < MAX_ORDER_IDS
      modifies ladder`bidCells, ladder`bidOrders, ladder`askCells, ladder`askOrders, ladder.orders.objects
      ensures Valid() && Model() == Apply(old(Model()), u)
    {
      ghost var model := Model();
      var p;
      ghost var side, k;
      p, side, k := Lookup(u.orderId);
      if p == NIL {
        return;
      }
      RequantifiedStaysTidy(model, side, k, u.qty);
      IndexedEitherWay(side);
      ExactRequantified(orderOf, ladder.Side(side), Of(model, side), ladder.Side(Opposite(side)),
                        Of(model, Opposite(side)), k, u.qty);
      ladder.SetQuantity(p, u.qty, side, k);
      assert IndexedFrom(side);
      IndexedEitherWay(side);
      assert Model() == With(model, side, Of(model, side)[k := Of(model, side)[k].(qty := u.qty)]);
    }

    method CancelOrder(u: MarketUpdate)
      requires Valid() && u.kind == CANCEL && u.orderId < MAX_ORDER_IDS
      modifies this`orderOf, ladder, ladder.orders.objects, ladder.orders.isFree, ladder.levels.objects,
               ladder.levels.isFree
      ensures Valid() && Model() == Apply(old(Model()), u)
    {
      ghost var model := Model();
      var p;
      ghost var side, k;
      p, side, k := Lookup(u.orderId);
      if p == NIL {
        return;
      }
      RemovedStaysTidy(model, side, k);
      IndexedEitherWay(side);
      ExactRemoved(orderOf, ladder.Side(side), Of(model, side), ladder.Side(Opposite(side)), Of(model, Opposite(side)),
                   k);
      ladder.Remove(p, side, k);
      orderOf := orderOf - {Public(u.orderId)};
      assert IndexedFrom(side);
      IndexedEitherWay(side);
      assert Model() == With(model, side, RemoveAt(Of(model, side), k));
    }

    /** Recomputes the sides asked for from the best level. */
    method UpdateBBO(updateBid: bool, updateAsk: bool)
      requires Valid()
      modifies this`bbo
      ensures Valid()
      ensures bbo == BBO(if updateBid then Best(Model().bids) else old(bbo).bid,
                         if updateAsk then Best(Model().asks) else old(bbo).ask)
    {
      if updateBid {
        var quote := BestQuote(BUY);
        bbo := bbo.(bid := quote);
      }
      if updateAsk {
        var quote := BestQuote(SELL);
        bbo := bbo.(ask := quote);
      }
    }

    /** The best price and the sum of the quantities around its ring. */
    method BestQuote(side: Side) returns (quote: Quote)
      requires Valid() && side != NO_SIDE
      ensures quote == Best(Of(Model(), side))
    {
      var head := if side == BUY then ladder.bids else ladder.asks;
      assert ladder.ValidBut({}) && ladder.Shown(side);
      HeadIsBest(ladder.H(), ladder.shape, side);
      if head == NIL {
        return NO_QUOTE;
      }
      BestLevel(ladder.H(), ladder.shape, side, ladder.Side(side), ladder.Book(side));
      var price := ladder.levels.objects[head].item.price;
      var qty := SumRing(ladder.levels.objects[head].item.head, price, ladder.shape.fifo[head]);
      quote := Quote(price, qty);
    }

    /** Walks an order ring once, adding up its 32-bit quantities. */
    method SumRing(first: int, price: nat, ghost f: seq<int>) returns (qty: nat)
      requires IsRing(ladder.orders.objects[..], f) && f != [] && first == f[0]
      requires forall i :: 0 <= i < |f| ==> ladder.orders.objects[..][f[i]].item.price == price
      ensures qty == LevelQty(Items(ladder.orders.objects[..], f), price) % QTY_MODULUS
    {
      ghost var store := ladder.orders.objects[..];
      ghost var items := Items(store, f);
      ghost var k := 1;
      assert Linked(store, f, 0) && items[..1] == [items[0]];
      qty := ladder.orders.objects[first].item.qty % QTY_MODULUS;
      var cell := ladder.orders.objects[first].next;
      while cell != first
        invariant 1 <= k <= |f| && cell == Walk(store, first, k)
        invariant qty == LevelQty(items[..k], price) % QTY_MODULUS
        decreases |f| - k
      {
        WalkedTo(store, f, k);
        SumNext(items, k, price, qty);
        qty := (qty + ladder.orders.objects[cell].item.qty) % QTY_MODULUS;
        cell := ladder.orders.objects[cell].next;
        k := k + 1;
      }
      WalkedTo(store, f, k);
      assert k == |f| && items[..k] == items;
    }
  }
}

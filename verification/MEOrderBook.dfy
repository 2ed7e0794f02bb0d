/** The exchange's order book: the ladder, the client order table, and the matching loop. */
module MEOrderBooks {
  import opened MarketTypes
  import opened Sequences
  import opened PriceTimeBook
  import opened Rings
  import opened LadderHeap
  import opened PriceLadders
  import opened MatchingBook

  class MEOrderBook {
    const ticker: nat
    const ladder: PriceLadder
    /** Client and client order id to order cell; an absent entry is a null pointer. */
    var orderOf: map<Owner, int>
    var nextOrderId: nat
    /** Everything sent to the engine's two outgoing queues, in order. */
    var responses: seq<Response>
    var updates: seq<MarketUpdate>

    /** The price-time book these cells stand for. */
    ghost function Model(): Book
      reads this, ladder
    {
      Book(ladder.Book(BUY), ladder.Book(SELL), nextOrderId)
    }

    ghost predicate Valid()
      reads this, ladder, ladder.orders, ladder.orders.objects, ladder.orders.isFree,
            ladder.levels, ladder.levels.objects, ladder.levels.isFree
    {
      && this !in ladder.Repr()
      && ladder.orders.isFree.Length == MAX_ORDER_IDS && ladder.levels.isFree.Length == MAX_PRICE_LEVELS
      && ladder.Valid()
      && IndexedFrom(BUY)
      && Sound(Model())
    }

    constructor (ticker: nat)
      ensures Valid() && Model() == EMPTY && responses == [] && updates == [] && this.ticker == ticker
      ensures fresh(ladder.Repr())
    {
      this.ticker := ticker;
      ladder := new PriceLadder(MAX_PRICE_LEVELS, MAX_ORDER_IDS);
      new;
      assert ladder.ValidBut({});
      orderOf := map[];
      nextOrderId := 1;
      responses, updates := [], [];
      ExactIsIndexed(map[], [], [], [], []);
      SoundIsInv(EMPTY);
    }

    method GenerateNextOrderId() returns (id: nat)
      modifies this`nextOrderId
      ensures id == old(nextOrderId) && nextOrderId == id + 1
    {
      id := nextOrderId;
      nextOrderId := nextOrderId + 1;
    }

    /** The table agrees with the ladder, read with `side` first. */
    ghost predicate IndexedFrom(side: Side)
      reads this, ladder
    {
      Exact(orderOf, ladder.Side(side), ladder.Book(side), ladder.Side(Opposite(side)), ladder.Book(Opposite(side)))
    }

    lemma IndexedEitherWay(side: Side)
      requires side != NO_SIDE
      ensures IndexedFrom(side) <==> IndexedFrom(BUY)
    {
      if IndexedFrom(BUY) {
        ExactSwaps(orderOf, ladder.Side(BUY), ladder.Book(BUY), ladder.Side(SELL), ladder.Book(SELL));
      }
      if IndexedFrom(SELL) {
        ExactSwaps(orderOf, ladder.Side(SELL), ladder.Book(SELL), ladder.Side(BUY), ladder.Book(BUY));
      }
    }

    /** Takes an order out of the ladder and of the client order table. */
    method RemoveOrder(p: int, ghost side: Side, ghost n: nat)
      requires Valid() && side != NO_SIDE && n < |ladder.Side(side)| && p == ladder.Side(side)[n]
      modifies this`orderOf, ladder, ladder.orders.objects, ladder.orders.isFree, ladder.levels.objects,
               ladder.levels.isFree
      ensures Valid()
      ensures n < |Resting(old(Model()), side)|
      ensures Model() == WithSide(old(Model()), side, RemoveAt(Resting(old(Model()), side), n))
    {
      ghost var model, ps, qs := Model(), ladder.Side(side), ladder.Side(Opposite(side));
      IndexedEitherWay(side);
      RemovedStaysSound(model, side, n);
      ExactRemoved(orderOf, ps, Resting(model, side), qs, Resting(model, Opposite(side)), n);
      var order := ladder.Read(p, side, n);
      ladder.Remove(p, side, n);
      orderOf := orderOf - {order.owner};
      assert IndexedFrom(side);
      IndexedEitherWay(side);
    }

    /** Writes the quantity a partial fill leaves. */
    method ReduceOrder(p: int, qty: nat, ghost side: Side)
      requires Valid() && side != NO_SIDE && 0 < |ladder.Side(side)| && p == ladder.Side(side)[0] && qty > 0
      modifies ladder`bidCells, ladder`bidOrders, ladder`askCells, ladder`askOrders, ladder.orders.objects
      ensures Valid()
      ensures 0 < |Resting(old(Model()), side)|
      ensures var s := Resting(old(Model()), side);
              Model() == WithSide(old(Model()), side, s[0 := s[0].(qty := qty)])
    {
      ghost var model, ps, qs := Model(), ladder.Side(side), ladder.Side(Opposite(side));
      IndexedEitherWay(side);
      RequantifiedStaysSound(model, side, qty);
      ExactRequantified(orderOf, ps, Resting(model, side), qs, Resting(model, Opposite(side)), 0, qty);
      ladder.SetQuantity(p, qty, side, 0);
      assert IndexedFrom(side);
      IndexedEitherWay(side);
    }

    /** The maker after a fill: gone when nothing is left of it, else reduced in place. */
    method SettleMaker(p: int, rest: nat, ghost side: Side)
      requires Valid() && side != NO_SIDE && ladder.Side(side) != [] && p == ladder.Side(side)[0]
      modifies this`orderOf, ladder, ladder.orders.objects, ladder.orders.isFree, ladder.levels.objects,
               ladder.levels.isFree
      ensures Valid()
      ensures Resting(old(Model()), side) != []
      ensures Model() == WithSide(old(Model()), side, AfterFill(Resting(old(Model()), side), rest))
    {
      AfterFillInPlace(Resting(Model(), side), rest);
      if rest == 0 {
        RemoveOrder(p, side, 0);
      } else {
        ReduceOrder(p, rest, side);
      }
    }

    /** One fill of the taker against the head order of the opposite side. */
    method MatchOrder(t: Taker, p: int, left: nat) returns (left': nat)
      requires Valid() && t.side != NO_SIDE
      requires ladder.Side(Opposite(t.side)) != [] && p == ladder.Side(Opposite(t.side))[0]
      requires Matchable(t, Sweep(Resting(Model(), Opposite(t.side)), left, responses, updates))
      modifies this`orderOf, this`responses, this`updates,
               ladder, ladder.orders.objects, ladder.orders.isFree, ladder.levels.objects, ladder.levels.isFree
      ensures Valid()
      ensures var s := MatchHead(ticker, t, old(Sweep(Resting(Model(), Opposite(t.side)), left, responses, updates)));
              && Model() == WithSide(old(Model()), Opposite(t.side), s.resting)
              && left' == s.left && responses == s.responses && updates == s.updates
    {
      ghost var side := Opposite(t.side);
      var order := ladder.Read(p, side, 0);
      var fill := Min(order.qty, left);
      left' := left - fill;
      var rest := order.qty - fill;
      MatchHeadParts(ticker, t, Sweep(Resting(Model(), side), left, responses, updates), fill, left', rest);
      SettleMaker(p, rest, side);
      Report(t, order, fill, left', rest);
    }

    /** The four messages of a fill: both fills, the trade, and the maker's change. */
    method Report(t: Taker, maker: Order, fill: nat, left: nat, rest: nat)
      modifies this`responses, this`updates
      ensures responses
              == old(responses) + [TakerFill(ticker, t, maker, fill, left), MakerFill(ticker, maker, fill, rest)]
      ensures updates == old(updates) + [TradeUpdate(ticker, t, maker, fill), MakerUpdate(ticker, maker, rest)]
    {
      responses := responses + [Response(FILLED, t.client, ticker, t.orderId, t.id, t.side, maker.price, fill, left)];
      responses := responses + [Response(FILLED, ClientOf(maker), ticker, ClientOrderOf(maker), maker.id, maker.side,
                                         maker.price, fill, rest)];
      updates := updates + [MarketUpdate(TRADE, INVALID_64, ticker, t.side, maker.price, fill, INVALID_64)];
      if rest == 0 {
        updates := updates + [MarketUpdate(CANCEL, maker.id, ticker, maker.side, maker.price, rest, maker.priority)];
      } else {
        updates := updates + [MarketUpdate(MODIFY, maker.id, ticker, maker.side, maker.price, rest, maker.priority)];
      }
    }

    /** Fills against the opposite side until the quantity, the side or the crossing prices run out. */
    method CheckForMatch(t: Taker, qty: nat) returns (left: nat)
      requires Valid() && t.side != NO_SIDE
      modifies this`orderOf, this`responses, this`updates,
               ladder, ladder.orders.objects, ladder.orders.isFree, ladder.levels.objects, ladder.levels.isFree
      ensures Valid()
      ensures var e := SweepAll(ticker, t, old(Sweep(Resting(Model(), Opposite(t.side)), qty, responses, updates)));
              && Model() == WithSide(old(Model()), Opposite(t.side), e.resting)
              && left == e.left && responses == e.responses && updates == e.updates
    {
      ghost var opp, model := Opposite(t.side), Model();
      ghost var s := Sweep(Resting(model, opp), qty, responses, updates);
      ghost var cur := s;
      SideReplaced(model, opp, cur.resting, []);
      left := qty;
      var best := ladder.BestOrder(Opposite(t.side));
      while left > 0 && best != NIL
        invariant Valid()
        invariant best == if ladder.Side(opp) == [] then NIL else ladder.Side(opp)[0]
        invariant best == NIL <==> cur.resting == []
        invariant Model() == WithSide(model, opp, cur.resting)
        invariant cur.left == left && cur.responses == responses && cur.updates == updates
        invariant SweepAll(ticker, t, cur) == SweepAll(ticker, t, s)
        decreases |cur.resting|, left
      {
        var order := ladder.Read(best, opp, 0);
        if !Crosses(t.side, t.limit, order.price) {
          break;
        }
        SideReplaced(model, opp, cur.resting, MatchHead(ticker, t, cur).resting);
        left := MatchOrder(t, best, left);
        cur := MatchHead(ticker, t, cur);
        best := ladder.BestOrder(Opposite(t.side));
      }
      assert !Matchable(t, cur);
    }

    /** Accepts a new order, matches it, and rests what is left behind the orders at its price. */
    method Add(r: Request)
      requires Valid() && r.NewOrder? && Acceptable(ticker, Model(), r)
      requires Swept(ticker, Model(), r).left > 0 ==> Fits(SweptBook(ticker, Model(), r), r)
      modifies this, ladder, ladder.orders, ladder.orders.objects, ladder.orders.isFree,
               ladder.levels, ladder.levels.objects, ladder.levels.isFree
      ensures Valid()
      ensures var out := PriceTimeBook.Add(ticker, old(Model()), r);
              Model() == out.book && responses == old(responses) + out.responses
                  && updates == old(updates) + out.updates
    {
      ghost var model := Model();
      var id, left := AcceptAndMatch(r);
      if left > 0 {
        RestRemainder(r, id, left, model);
      }
    }

    /** Acknowledges the order and sweeps the opposite side with it. */
    method AcceptAndMatch(r: Request) returns (id: nat, left: nat)
      requires Valid() && r.NewOrder? && r.side != NO_SIDE
      modifies this`nextOrderId, this`orderOf, this`responses, this`updates,
               ladder, ladder.orders.objects, ladder.orders.isFree, ladder.levels.objects, ladder.levels.isFree
      ensures Valid()
      ensures id == old(nextOrderId) && left == Swept(ticker, old(Model()), r).left
      ensures Model() == SweptBook(ticker, old(Model()), r)
      ensures responses == old(responses) + Swept(ticker, old(Model()), r).responses
      ensures updates == old(updates) + Swept(ticker, old(Model()), r).updates
    {
      ghost var model, rs, us := Model(), responses, updates;
      id := Accept(r);
      left := CheckForMatch(Taker(r.client, r.orderId, id, r.side, r.price), r.qty);
      SweptAfterHistory(ticker, model, r, rs, us);
    }

    /** Takes the next id and acknowledges the order. */
    method Accept(r: Request) returns (id: nat)
      requires Valid() && r.NewOrder?
      modifies this`nextOrderId, this`responses
      ensures Valid() && id == old(nextOrderId) && Model() == old(Model()).(nextId := id + 1)
      ensures responses == old(responses) + [Accepted(ticker, old(Model()), r)]
    {
      SoundAtNextId(Model());
      id := GenerateNextOrderId();
      responses := responses + [Response(ACCEPTED, r.client, ticker, r.orderId, id, r.side, r.price, 0, r.qty)];
    }

    method RestRemainder(r: Request, id: nat, left: nat, ghost before: Book)
      requires Valid() && r.NewOrder? && Sound(before) && Acceptable(ticker, before, r)
      requires id == before.nextId && left == Swept(ticker, before, r).left > 0
      requires Model() == SweptBook(ticker, before, r) && Fits(Model(), r)
      modifies this`orderOf, this`updates, ladder, ladder.orders`nextFree, ladder.orders.objects, ladder.orders.isFree,
               ladder.levels`nextFree, ladder.levels.objects, ladder.levels.isFree
      ensures Valid()
      ensures Model() == PriceTimeBook.Add(ticker, before, r).book
      ensures updates == old(updates) + [AddUpdate(ticker, Remainder(ticker, before, r), r.qty)]
    {
      RemainderReady(ticker, before, r);
      RoomFor(r);
      var priority := GetPriority(r.price, r.side);
      var o := Order(id, Client(r.client, r.orderId), r.side, r.price, left, priority);
      assert o == Remainder(ticker, before, r);
      RestOrder(o, r.qty);
    }

    /** A request that fits finds a usable slot and a cell to spare in both pools. */
    lemma RoomFor(r: Request)
      requires Valid() && r.NewOrder? && r.side != NO_SIDE && Fits(Model(), r)
      requires Unpriced(Resting(Model(), Opposite(r.side)), r.price)
      ensures ladder.Restable(r.side, r.price)
      ensures |ladder.orders.Live()| + 1 < ladder.orders.isFree.Length
    {
      assert ladder.ValidBut({});
      SidesMapped(ladder.H(), ladder.shape);
      assert ladder.Shown(BUY) && ladder.Shown(SELL);
      FitsLeavesRoom(ladder.H(), ladder.shape, Model(), r);
    }

    /** Files an order behind its price and enters it in the client order table. */
    method FileOrder(o: Order)
      requires ladder.Valid() && this !in ladder.Repr() && o.side != NO_SIDE && IndexedFrom(o.side)
      requires !Owns(ladder.Book(BUY), o.owner) && !Owns(ladder.Book(SELL), o.owner)
      requires o.owner.Client? && o.owner.client < MAX_CLIENTS && o.owner.orderId < MAX_ORDER_IDS
      requires ladder.Restable(o.side, o.price) && |ladder.orders.Live()| + 1 < ladder.orders.isFree.Length
      modifies this`orderOf, ladder, ladder.orders`nextFree, ladder.orders.objects, ladder.orders.isFree,
               ladder.levels`nextFree, ladder.levels.objects, ladder.levels.isFree
      ensures ladder.Valid() && IndexedFrom(o.side)
      ensures ladder.Book(o.side) == Insert(old(ladder.Book(o.side)), o)
      ensures ladder.Book(Opposite(o.side)) == old(ladder.Book(Opposite(o.side)))
    {
      ghost var ps, s := ladder.Side(o.side), ladder.Book(o.side);
      ghost var qs, t := ladder.Side(Opposite(o.side)), ladder.Book(Opposite(o.side));
      var p;
      ghost var n;
      ExactIsIndexed(orderOf, ps, s, qs, t);
      p, n := ladder.Place(o);
      ExactPlaced(orderOf, ps, s, qs, t, n, o, p);
      orderOf := orderOf[o.owner := p];
    }

    /** Rests an order and publishes it with its entry quantity. */
    method RestOrder(o: Order, entryQty: nat)
      requires Valid() && o.side != NO_SIDE && OwnerFree(Model(), o.owner)
      requires o.owner.Client? && o.owner.client < MAX_CLIENTS && o.owner.orderId < MAX_ORDER_IDS
      requires ladder.Restable(o.side, o.price) && |ladder.orders.Live()| + 1 < ladder.orders.isFree.Length
      requires Sound(WithSide(Model(), o.side, Insert(Resting(Model(), o.side), o)))
      modifies this`orderOf, this`updates, ladder, ladder.orders`nextFree, ladder.orders.objects, ladder.orders.isFree,
               ladder.levels`nextFree, ladder.levels.objects, ladder.levels.isFree
      ensures Valid()
      ensures Model() == WithSide(old(Model()), o.side, Insert(Resting(old(Model()), o.side), o))
      ensures updates == old(updates) + [AddUpdate(ticker, o, entryQty)]
    {
      IndexedEitherWay(o.side);
      FileOrder(o);
      IndexedEitherWay(o.side);
      updates := updates + [MarketUpdate(ADD, o.id, ticker, o.side, o.price, entryQty, o.priority)];
    }

    /** The price's next priority: one above the youngest order of its level. */
    method GetPriority(price: nat, ghost side: Side) returns (priority: nat)
      requires Valid() && side != NO_SIDE
      requires SlotIsClear(ladder.Book(BUY), price) && SlotIsClear(ladder.Book(SELL), price)
      requires Unpriced(ladder.Book(Opposite(side)), price)
      ensures priority == NextPriority(ladder.Book(side), price)
    {
      var level := ladder.GetOrderAtPrice(price);
      assert ladder.ValidBut({});
      SidesMapped(ladder.H(), ladder.shape);
      assert ladder.Shown(side) && ladder.Shown(Opposite(side));
      PriorityAtSlot(ladder.H(), ladder.shape, side, price);
      if level == NIL {
        return 1;
      }
      var head := ladder.levels.objects[level].item.head;
      var tail := ladder.orders.objects[head].prev;
      priority := ladder.orders.objects[tail].item.priority + 1;
    }

    /** Withdraws a resting order, or rejects when the ids are out of range or name no resting order. */
    method Cancel(client: nat, orderId: nat)
      requires Valid()
      modifies this`orderOf, this`responses, this`updates,
               ladder, ladder.orders.objects, ladder.orders.isFree, ladder.levels.objects, ladder.levels.isFree
      ensures Valid()
      ensures var out := PriceTimeBook.Cancel(ticker, old(Model()), CancelOrder(client, orderId));
              Model() == out.book && responses == old(responses) + out.responses
                  && updates == old(updates) + out.updates
    {
      ghost var model := Model();
      TableFinds(orderOf, ladder.Side(BUY), ladder.Book(BUY), ladder.Side(SELL), ladder.Book(SELL),
                 Client(client, orderId));
      if client >= MAX_CLIENTS || orderId >= MAX_ORDER_IDS || Client(client, orderId) !in orderOf {
        responses := responses + [Response(CANCEL_REJECTED, client, ticker, orderId, INVALID_64, NO_SIDE, INVALID_64,
                                           INVALID_QTY, INVALID_QTY)];
        return;
      }
      var p := orderOf[Client(client, orderId)];
      ghost var side := if Owns(model.bids, Client(client, orderId)) then BUY else SELL;
      ghost var n := Locate(Resting(model, side), Client(client, orderId));
      var order := ladder.Read(p, side, n);
      RemoveOrder(p, side, n);
      responses := responses
          + [Response(CANCELLED, client, ticker, orderId, order.id, order.side, order.price, INVALID_QTY, order.qty)];
      updates := updates + [MarketUpdate(CANCEL, order.id, ticker, order.side, order.price, order.qty, order.priority)];
    }
  }
}

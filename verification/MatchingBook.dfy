/** What ties the matching engine's linked book to the price-time model. */
module MatchingBook {
  import opened MarketTypes
  import opened Sequences
  import opened PriceTimeBook
  import opened BookSafety
  import opened Rings
  import opened LadderHeap
  import opened LadderOrder

  // ---------- the book's invariant as one fact ----------

  ghost predicate Same(b: Book, c: Book) {
    b == c
  }

  /** `BookInv`, folded: methods carry it whole and lemmas unfold it. */
  ghost predicate Sound(b: Book) {
    forall c {:trigger Same(b, c)} :: Same(b, c) ==> BookInv(c)
  }

  lemma SoundIsInv(b: Book)
    ensures Sound(b) <==> BookInv(b)
  {
    assert Same(b, b);
  }

  /** A book stays sound when the next id is taken. */
  lemma SoundAtNextId(b: Book)
    requires Sound(b)
    ensures Sound(b.(nextId := b.nextId + 1))
  {
    SoundIsInv(b);
    SoundIsInv(b.(nextId := b.nextId + 1));
  }

  // ---------- the client order table ----------

  ghost predicate IndexedAt(table: map<Owner, int>, ptrs: seq<int>, s: seq<Order>, n: nat) {
    n < |ptrs| && n < |s| && s[n].owner in table && table[s[n].owner] == ptrs[n]
  }

  /** The name is within the bounds of its table. */
  predicate InTable(owner: Owner) {
    match owner
    case Client(client, orderId) => client < MAX_CLIENTS && orderId < MAX_ORDER_IDS
    case Public(marketId) => marketId < MAX_ORDER_IDS
  }

  ghost predicate Listed(s: seq<Order>, t: seq<Order>, owner: Owner) {
    InTable(owner) && (Owns(s, owner) || Owns(t, owner))
  }

  /** The table points to exactly the resting orders, each under its own owner. */
  ghost predicate Indexed(table: map<Owner, int>, bidPtrs: seq<int>, bids: seq<Order>, askPtrs: seq<int>,
                          asks: seq<Order>) {
    && |bidPtrs| == |bids| && |askPtrs| == |asks|
    && (forall n {:trigger IndexedAt(table, bidPtrs, bids, n)} :: 0 <= n < |bids| ==>
       IndexedAt(table, bidPtrs, bids, n))
    && (forall n {:trigger IndexedAt(table, askPtrs, asks, n)} :: 0 <= n < |asks| ==>
       IndexedAt(table, askPtrs, asks, n))
    && (forall owner {:trigger Listed(bids, asks, owner)} :: owner in table ==> Listed(bids, asks, owner))
  }

  ghost predicate SameTable(table: map<Owner, int>, other: map<Owner, int>) {
    table == other
  }

  /** `Indexed`, folded like `Sound`. */
  ghost predicate Exact(table: map<Owner, int>, bidPtrs: seq<int>, bids: seq<Order>, askPtrs: seq<int>,
                        asks: seq<Order>) {
    forall other {:trigger SameTable(table, other)} :: SameTable(table, other) ==>
        Indexed(other, bidPtrs, bids, askPtrs, asks)
  }

  lemma ExactIsIndexed(table: map<Owner, int>, bidPtrs: seq<int>, bids: seq<Order>, askPtrs: seq<int>, asks: seq<Order>)
    ensures Exact(table, bidPtrs, bids, askPtrs, asks) <==> Indexed(table, bidPtrs, bids, askPtrs, asks)
  {
    assert SameTable(table, table);
  }

  lemma ExactSwaps(table: map<Owner, int>, ps: seq<int>, s: seq<Order>, qs: seq<int>, t: seq<Order>)
    requires Exact(table, ps, s, qs, t)
    ensures Exact(table, qs, t, ps, s)
  {
    ExactIsIndexed(table, ps, s, qs, t);
    IndexedSwaps(table, ps, s, qs, t);
    ExactIsIndexed(table, qs, t, ps, s);
  }

  lemma ExactPlaced(table: map<Owner, int>, ps: seq<int>, s: seq<Order>, qs: seq<int>, t: seq<Order>, n: nat, o: Order,
                    p: int)
    requires Exact(table, ps, s, qs, t) && n <= |s| && n <= |ps|
    requires InTable(o.owner)
    requires !Owns(s, o.owner) && !Owns(t, o.owner)
    ensures Exact(table[o.owner := p], InsertAt(ps, n, p), InsertAt(s, n, o), qs, t)
  {
    ExactIsIndexed(table, ps, s, qs, t);
    IndexedPlaced(table, ps, s, qs, t, n, o, p);
    ExactIsIndexed(table[o.owner := p], InsertAt(ps, n, p), InsertAt(s, n, o), qs, t);
  }

  lemma ExactRemoved(table: map<Owner, int>, ps: seq<int>, s: seq<Order>, qs: seq<int>, t: seq<Order>, n: nat)
    requires Exact(table, ps, s, qs, t) && n < |s| && DistinctOrders(s) && Unrelated(s, t)
    ensures n < |ps| && Exact(table - {s[n].owner}, RemoveAt(ps, n), RemoveAt(s, n), qs, t)
  {
    ExactIsIndexed(table, ps, s, qs, t);
    IndexedRemoved(table, ps, s, qs, t, n);
    ExactIsIndexed(table - {s[n].owner}, RemoveAt(ps, n), RemoveAt(s, n), qs, t);
  }

  lemma ExactRequantified(table: map<Owner, int>, ps: seq<int>, s: seq<Order>, qs: seq<int>, t: seq<Order>, n: nat,
                          qty: nat)
    requires Exact(table, ps, s, qs, t) && n < |s|
    ensures Exact(table, ps, s[n := s[n].(qty := qty)], qs, t)
  {
    ExactIsIndexed(table, ps, s, qs, t);
    IndexedRequantified(table, ps, s, qs, t, n, qty);
    ExactIsIndexed(table, ps, s[n := s[n].(qty := qty)], qs, t);
  }

  /** `Indexed` said for either side first. */
  lemma IndexedSwaps(table: map<Owner, int>, ps: seq<int>, s: seq<Order>, qs: seq<int>, t: seq<Order>)
    requires Indexed(table, ps, s, qs, t)
    ensures Indexed(table, qs, t, ps, s)
  {
    forall owner | owner in table ensures Listed(t, s, owner) {
      assert Listed(s, t, owner);
    }
  }

  lemma OwnsAt(s: seq<Order>, n: nat)
    requires n < |s|
    ensures Owns(s, s[n].owner)
    ensures DistinctOrders(s) ==> Locate(s, s[n].owner) == n
  {
  }

  lemma IndexedPlaced(table: map<Owner, int>, ps: seq<int>, s: seq<Order>, qs: seq<int>, t: seq<Order>, n: nat,
                      o: Order, p: int)
    requires Indexed(table, ps, s, qs, t) && n <= |s|
    requires InTable(o.owner)
    requires !Owns(s, o.owner) && !Owns(t, o.owner)
    ensures Indexed(table[o.owner := p], InsertAt(ps, n, p), InsertAt(s, n, o), qs, t)
  {
    var table', ps', s' := table[o.owner := p], InsertAt(ps, n, p), InsertAt(s, n, o);
    forall i | 0 <= i < |s'| ensures IndexedAt(table', ps', s', i) {
      if i != n {
        var i' := if i > n then i - 1 else i;
        assert IndexedAt(table, ps, s, i') && s'[i] == s[i'] && ps'[i] == ps[i'];
        OwnsAt(s, i');
      }
    }
    forall i | 0 <= i < |t| ensures IndexedAt(table', qs, t, i) {
      assert IndexedAt(table, qs, t, i);
      OwnsAt(t, i);
    }
    forall owner | owner in table' ensures Listed(s', t, owner) {
      if owner == o.owner {
        assert s'[n] == o;
        OwnsAt(s', n);
      } else {
        assert Listed(s, t, owner);
        if Owns(s, owner) {
          var i := Locate(s, owner);
          OwnsAt(s', if i >= n then i + 1 else i);
        }
      }
    }
  }

  lemma IndexedRemoved(table: map<Owner, int>, ps: seq<int>, s: seq<Order>, qs: seq<int>, t: seq<Order>, n: nat)
    requires Indexed(table, ps, s, qs, t) && n < |s| && DistinctOrders(s) && Unrelated(s, t)
    ensures Indexed(table - {s[n].owner}, RemoveAt(ps, n), RemoveAt(s, n), qs, t)
  {
    var table', ps', s' := table - {s[n].owner}, RemoveAt(ps, n), RemoveAt(s, n);
    forall i | 0 <= i < |s'| ensures IndexedAt(table', ps', s', i) {
      var i' := if i >= n then i + 1 else i;
      assert IndexedAt(table, ps, s, i') && s'[i] == s[i'] && ps'[i] == ps[i'];
    }
    forall i | 0 <= i < |t| ensures IndexedAt(table', qs, t, i) {
      assert IndexedAt(table, qs, t, i);
    }
    forall owner | owner in table' ensures Listed(s', t, owner) {
      assert Listed(s, t, owner);
      if Owns(s, owner) {
        var i := Locate(s, owner);
        OwnsAt(s', if i > n then i - 1 else i);
      }
    }
  }

  lemma IndexedRequantified(table: map<Owner, int>, ps: seq<int>, s: seq<Order>, qs: seq<int>, t: seq<Order>, n: nat,
                            qty: nat)
    requires Indexed(table, ps, s, qs, t) && n < |s|
    ensures Indexed(table, ps, s[n := s[n].(qty := qty)], qs, t)
  {
    var s' := s[n := s[n].(qty := qty)];
    forall i | 0 <= i < |s'| ensures IndexedAt(table, ps, s', i) {
      assert IndexedAt(table, ps, s, i);
    }
    forall owner | owner in table ensures Listed(s', t, owner) {
      assert Listed(s, t, owner);
      if Owns(s, owner) {
        OwnsAt(s', Locate(s, owner));
      }
    }
  }

  /** The table finds an order exactly when the model does, and the same one. */
  lemma TableFinds(table: map<Owner, int>, ps: seq<int>, s: seq<Order>, qs: seq<int>, t: seq<Order>, owner: Owner)
    requires Exact(table, ps, s, qs, t)
    ensures |ps| == |s| && |qs| == |t|
    ensures owner in table <==> Owns(s, owner) || Owns(t, owner)
    ensures Owns(s, owner) ==> table[owner] == ps[Locate(s, owner)]
    ensures Owns(t, owner) ==> table[owner] == qs[Locate(t, owner)]
    ensures owner in table ==> InTable(owner)
  {
    ExactIsIndexed(table, ps, s, qs, t);
    if owner in table {
      assert Listed(s, t, owner);
    }
    if Owns(s, owner) {
      assert IndexedAt(table, ps, s, Locate(s, owner));
    }
    if Owns(t, owner) {
      assert IndexedAt(table, qs, t, Locate(t, owner));
    }
  }

  // ---------- what the pools and tables demand of a remainder ----------

  ghost function Prices(s: seq<Order>): (r: set<nat>)
    ensures forall i :: 0 <= i < |s| ==> s[i].price in r
    ensures forall p :: p in r ==> exists i :: 0 <= i < |s| && s[i].price == p
  {
    set i | 0 <= i < |s| :: s[i].price
  }

  ghost predicate SharesNoSlot(s: seq<Order>, price: nat, i: nat) {
    i < |s| && (PriceToIndex(s[i].price) == PriceToIndex(price) ==> s[i].price == price)
  }

  /** No resting price shares the slot of `price` without being `price`. */
  ghost predicate SlotIsClear(s: seq<Order>, price: nat) {
    forall i {:trigger SharesNoSlot(s, price, i)} :: 0 <= i < |s| ==> SharesNoSlot(s, price, i)
  }

  /** Prices below the size of the table never share a slot. */
  lemma SmallPricesNeverClash(s: seq<Order>, price: nat)
    requires price < MAX_PRICE_LEVELS && forall i :: 0 <= i < |s| ==> s[i].price < MAX_PRICE_LEVELS
    ensures SlotIsClear(s, price)
  {
    forall i | 0 <= i < |s| ensures SharesNoSlot(s, price, i) {
      assert PriceToIndex(s[i].price) == s[i].price;
    }
  }

  ghost predicate PricedElse(s: seq<Order>, price: nat, i: nat) {
    i < |s| && s[i].price != price
  }

  /** Nothing rests at this price. */
  ghost predicate Unpriced(s: seq<Order>, price: nat) {
    forall i {:trigger PricedElse(s, price, i)} :: 0 <= i < |s| ==> PricedElse(s, price, i)
  }

  /**
   What the code needs, but does not check, before a remainder rests: ids within the
   tables, a cell to spare in each pool, and no other price hashed to the same slot.
   */
  ghost predicate Fits(b: Book, r: Request)
    requires r.NewOrder?
  {
    && r.client < MAX_CLIENTS && r.orderId < MAX_ORDER_IDS
    && |b.bids| + |b.asks| + 1 < MAX_ORDER_IDS
    && SlotIsClear(b.bids, r.price) && SlotIsClear(b.asks, r.price)
    && (r.price in Prices(b.bids) + Prices(b.asks) || |Prices(b.bids) + Prices(b.asks)| + 1 < MAX_PRICE_LEVELS)
  }

  lemma {:induction false} CellsOfSeq(s: seq<int>)
    ensures |Cells(s)| <= |s|
  {
    if s == [] {
      assert Cells(s) == {};
    } else {
      CellsOfSeq(s[1..]);
      assert Cells(s) == {s[0]} + Cells(s[1..]);
    }
  }

  /** There are no more live order cells than resting orders. */
  lemma LinkedCellsSize(h: Heap, sh: Shape)
    requires Inv(h, sh)
    ensures Mapped(sh.bidRing, sh.fifo) && Mapped(sh.askRing, sh.fifo)
    ensures |LinkedCells(sh)| <= |Ptrs(sh, BUY)| + |Ptrs(sh, SELL)|
  {
    SidesMapped(h, sh);
    var bids, asks := Ptrs(sh, BUY), Ptrs(sh, SELL);
    forall p ensures p in LinkedCells(sh) <==> p in Cells(bids + asks) {
      LinkedIsListed(h, sh, p);
    }
    assert LinkedCells(sh) == Cells(bids + asks);
    CellsOfSeq(bids + asks);
  }

  /** A level is backed by a resting order at its price. */
  lemma LevelHasOrder(h: Heap, sh: Shape, l: int) returns (n: nat)
    requires Inv(h, sh) && l in sh.fifo
    ensures 0 <= l < |h.levels| && h.levels[l].item.side != NO_SIDE
    ensures var side := h.levels[l].item.side;
            && Mapped(RingOf(sh, side), sh.fifo) && InStore(h.orders, Ptrs(sh, side)) && n < |Ptrs(sh, side)|
            && Items(h.orders, Ptrs(sh, side))[n].price == h.levels[l].item.price
  {
    assert Covers(h, sh, l) && FifoOk(h, sh, l);
    var side := h.levels[l].item.side;
    var i := LevelPlace(h, sh, l);
    PtrsInStore(h, sh, side);
    FlatHas(RingOf(sh, side), sh.fifo, i, sh.fifo[l][0]);
    n :| 0 <= n < |Ptrs(sh, side)| && Ptrs(sh, side)[n] == sh.fifo[l][0];
  }

  /** Distinct numbers out of a set are no more than the set. */
  lemma {:induction false} DistinctFit(values: seq<nat>, s: set<nat>)
    requires forall i :: 0 <= i < |values| ==> values[i] in s
    requires forall i, j :: 0 <= i < j < |values| ==> values[i] != values[j]
    ensures |values| <= |s|
  {
    if values != [] {
      assert forall i :: 0 <= i < |values| - 1 ==> values[1..][i] == values[i + 1];
      DistinctFit(values[1..], s - {values[0]});
    }
  }

  /** Both level rings in a row list every level once. */
  lemma AllLevels(h: Heap, sh: Shape)
    requires Inv(h, sh)
    ensures Distinct(sh.bidRing + sh.askRing) && InStore(h.levels, sh.bidRing + sh.askRing)
    ensures Mapped(sh.bidRing + sh.askRing, sh.fifo) && Cells(sh.bidRing + sh.askRing) == sh.fifo.Keys
  {
    var all := sh.bidRing + sh.askRing;
    SidesMapped(h, sh);
    forall i, j | 0 <= i < |sh.bidRing| && 0 <= j < |sh.askRing| ensures sh.bidRing[i] != sh.askRing[j] {
      assert sh.bidRing[i] in sh.bidRing && sh.askRing[j] in sh.askRing;
      RingsDisjoint(h, sh, BUY, sh.bidRing[i]);
    }
    forall l ensures l in Cells(all) <==> l in sh.fifo.Keys {
      if l in sh.fifo {
        assert Covers(h, sh, l);
      }
    }
  }

  /** The levels' prices all differ, and each is the price of a resting order. */
  lemma LevelPrices(h: Heap, sh: Shape, all: seq<int>) returns (values: seq<nat>)
    requires Inv(h, sh) && Distinct(all) && Mapped(all, sh.fifo)
    ensures Mapped(sh.bidRing, sh.fifo) && Mapped(sh.askRing, sh.fifo)
    ensures InStore(h.orders, Ptrs(sh, BUY)) && InStore(h.orders, Ptrs(sh, SELL))
    ensures |values| == |all|
    ensures forall i :: 0 <= i < |values| ==>
      values[i] in Prices(Items(h.orders, Ptrs(sh, BUY))) + Prices(Items(h.orders, Ptrs(sh, SELL)))
    ensures forall i, j :: 0 <= i < j < |values| ==> values[i] != values[j]
  {
    PtrsInStore(h, sh, BUY);
    PtrsInStore(h, sh, SELL);
    forall i | 0 <= i < |all| ensures 0 <= all[i] < |h.levels| && Filed(h, all[i]) {
      assert Filed(h, all[i]);
    }
    values := seq(|all|, i requires 0 <= i < |all| => h.levels[all[i]].item.price);
    forall i | 0 <= i < |all|
      ensures values[i] in Prices(Items(h.orders, Ptrs(sh, BUY))) + Prices(Items(h.orders, Ptrs(sh, SELL)))
    {
      var n := LevelHasOrder(h, sh, all[i]);
    }
  }

  /** There are no more levels than resting prices. */
  lemma LevelCount(h: Heap, sh: Shape)
    requires Inv(h, sh)
    ensures Mapped(sh.bidRing, sh.fifo) && Mapped(sh.askRing, sh.fifo)
    ensures InStore(h.orders, Ptrs(sh, BUY)) && InStore(h.orders, Ptrs(sh, SELL))
    ensures |sh.fifo.Keys| <= |Prices(Items(h.orders, Ptrs(sh, BUY))) + Prices(Items(h.orders, Ptrs(sh, SELL)))|
  {
    AllLevels(h, sh);
    var all := sh.bidRing + sh.askRing;
    var values := LevelPrices(h, sh, all);
    CellsOfSeq(all);
    DistinctFit(values, Prices(Items(h.orders, Ptrs(sh, BUY))) + Prices(Items(h.orders, Ptrs(sh, SELL))));
  }

  lemma UnpricedIsAbsent(s: seq<Order>, price: nat)
    ensures Unpriced(s, price) <==> price !in Prices(s)
  {
    if Unpriced(s, price) {
      forall i | 0 <= i < |s| ensures s[i].price != price {
        assert PricedElse(s, price, i);
      }
    }
  }

  // ---------- sweeping with a history of messages ----------

  /** A sweep only adds to the messages that were there. */
  lemma {:induction false} SweepAppends(ticker: nat, t: Taker, s: Sweep, rs: seq<Response>, us: seq<MarketUpdate>)
    ensures SweepAll(ticker, t, s.(responses := rs + s.responses, updates := us + s.updates))
         == var e := SweepAll(ticker, t, s); e.(responses := rs + e.responses, updates := us + e.updates)
    decreases |s.resting|, s.left
  {
    if Matchable(t, s) {
      var s' := s.(responses := rs + s.responses, updates := us + s.updates);
      var e, e' := MatchHead(ticker, t, s), MatchHead(ticker, t, s');
      assert e'.responses == rs + e.responses && e'.updates == us + e.updates;
      SweepAppends(ticker, t, e, rs, us);
    }
  }

  /** Removing any order keeps the book sound and the table exact. */
  lemma RemovedStaysSound(b: Book, side: Side, n: nat)
    requires Sound(b) && side != NO_SIDE && n < |Resting(b, side)|
    ensures Sound(WithSide(b, side, RemoveAt(Resting(b, side), n)))
    ensures DistinctOrders(Resting(b, side)) && Unrelated(Resting(b, side), Resting(b, Opposite(side)))
  {
    SoundIsInv(b);
    WithdrawnKeepsInv(0, b, side, n);
    SoundIsInv(WithSide(b, side, RemoveAt(Resting(b, side), n)));
  }

  lemma RequantifiedStaysSound(b: Book, side: Side, qty: nat)
    requires Sound(b) && side != NO_SIDE && Resting(b, side) != [] && qty > 0
    ensures var s := Resting(b, side); Sound(WithSide(b, side, s[0 := s[0].(qty := qty)]))
  {
    SoundIsInv(b);
    RequantifiedKeepsInv(b, side, qty);
    var s := Resting(b, side);
    SoundIsInv(WithSide(b, side, s[0 := s[0].(qty := qty)]));
  }

  lemma RequantifiedKeepsInv(b: Book, side: Side, qty: nat)
    requires BookInv(b) && side != NO_SIDE && Resting(b, side) != [] && qty > 0
    ensures var s := Resting(b, side); BookInv(WithSide(b, side, s[0 := s[0].(qty := qty)]))
  {
    var s := Resting(b, side);
    var r := s[0 := s[0].(qty := qty)];
    TrimmedKeepsSide(side, r, s, b.nextId, b.nextId);
    TrimmedKeepsCross(r, s, Resting(b, Opposite(side)));
  }

  /** What one fill does, field by field. */
  lemma MatchHeadParts(ticker: nat, t: Taker, s: Sweep, fill: nat, left: nat, rest: nat)
    requires Matchable(t, s) && fill == Min(s.resting[0].qty, s.left)
    requires left == s.left - fill && rest == s.resting[0].qty - fill
    ensures MatchHead(ticker, t, s) == Sweep(AfterFill(s.resting, rest), left,
      s.responses + [TakerFill(ticker, t, s.resting[0], fill, left), MakerFill(ticker, s.resting[0], fill, rest)],
      s.updates + [TradeUpdate(ticker, t, s.resting[0], fill), MakerUpdate(ticker, s.resting[0], rest)])
  {
  }

  /** The opposite side once its head order has `rest` left. */
  function AfterFill(s: seq<Order>, rest: nat): seq<Order>
    requires s != []
  {
    if rest == 0 then s[1..] else [s[0].(qty := rest)] + s[1..]
  }

  // ---------- the slot of a remainder ----------

  lemma {:induction false} NextPriorityAt(s: seq<Order>, price: nat, n: nat)
    requires n < |s| && s[n].price == price
    requires forall i :: n < i < |s| ==> s[i].price != price
    ensures NextPriority(s, price) == s[n].priority + 1
  {
    if n < |s| - 1 {
      NextPriorityAt(s[..|s| - 1], price, n);
    }
  }

  lemma {:induction false} NextPriorityFresh(s: seq<Order>, price: nat)
    requires Unpriced(s, price)
    ensures NextPriority(s, price) == 1
  {
    if s != [] {
      assert PricedElse(s, price, |s| - 1);
      var init := s[..|s| - 1];
      forall i | 0 <= i < |init| ensures PricedElse(init, price, i) {
        assert PricedElse(s, price, i);
      }
      NextPriorityFresh(s[..|s| - 1], price);
    }
  }

  /** A resting order's price has its level in the table. */
  lemma OrderHasLevel(h: Heap, sh: Shape, side: Side, n: nat)
    requires Inv(h, sh) && side != NO_SIDE
    requires Mapped(RingOf(sh, side), sh.fifo) && InStore(h.orders, Ptrs(sh, side)) && n < |Ptrs(sh, side)|
    ensures PriceToIndex(Items(h.orders, Ptrs(sh, side))[n].price) in h.table
  {
    var i := FlatMember(RingOf(sh, side), sh.fifo, Ptrs(sh, side)[n]);
    assert FifoOk(h, sh, RingOf(sh, side)[i]) && Filed(h, RingOf(sh, side)[i]);
  }

  /** With no other price in its slot and none of its price across, a price's slot is empty or its own level's. */
  lemma SlotOfPrice(h: Heap, sh: Shape, side: Side, price: nat)
    requires Inv(h, sh) && side != NO_SIDE
    requires Mapped(sh.bidRing, sh.fifo) && Mapped(sh.askRing, sh.fifo)
    requires InStore(h.orders, Ptrs(sh, side)) && InStore(h.orders, Ptrs(sh, Opposite(side)))
    requires SlotIsClear(Items(h.orders, Ptrs(sh, side)), price)
    requires SlotIsClear(Items(h.orders, Ptrs(sh, Opposite(side))), price)
    requires Unpriced(Items(h.orders, Ptrs(sh, Opposite(side))), price)
    ensures PriceToIndex(price) in h.table ==>
      var l := h.table[PriceToIndex(price)];
      && l in sh.fifo && 0 <= l < |h.levels| && h.levels[l].item.price == price && h.levels[l].item.side == side
    ensures PriceToIndex(price) !in h.table ==>
      Unpriced(Items(h.orders, Ptrs(sh, side)), price)
  {
    if PriceToIndex(price) in h.table {
      assert Points(h, sh, PriceToIndex(price));
      var l := h.table[PriceToIndex(price)];
      var n := LevelHasOrder(h, sh, l);
      var own := h.levels[l].item.side == side;
      assert own ==> SharesNoSlot(Items(h.orders, Ptrs(sh, side)), price, n);
      assert !own ==> SharesNoSlot(Items(h.orders, Ptrs(sh, Opposite(side))), price, n);
      assert !own ==> PricedElse(Items(h.orders, Ptrs(sh, Opposite(side))), price, n);
    } else {
      forall i | 0 <= i < |Ptrs(sh, side)| ensures PricedElse(Items(h.orders, Ptrs(sh, side)), price, i) {
        OrderHasLevel(h, sh, side, i);
      }
    }
  }

  /** The tail of a level is the youngest order at its price. */
  lemma LevelTailPriority(h: Heap, sh: Shape, l: int)
    requires Inv(h, sh) && l in sh.fifo && 0 <= l < |h.levels|
    ensures 0 <= h.levels[l].item.head < |h.orders| && 0 <= h.orders[h.levels[l].item.head].prev < |h.orders|
    ensures h.levels[l].item.side != NO_SIDE
    ensures var side := h.levels[l].item.side;
            && Mapped(RingOf(sh, side), sh.fifo) && InStore(h.orders, Ptrs(sh, side))
            && NextPriority(Items(h.orders, Ptrs(sh, side)), h.levels[l].item.price)
               == h.orders[h.orders[h.levels[l].item.head].prev].item.priority + 1
  {
    var side, price, f := h.levels[l].item.side, h.levels[l].item.price, sh.fifo[l];
    var i := LevelPlace(h, sh, l);
    var ring := RingOf(sh, side);
    SidesMapped(h, sh);
    PtrsInStore(h, sh, side);
    assert FifoOk(h, sh, l) && Linked(h.orders, f, 0);
    FlatSplit(ring, i, sh.fifo);
    var items := Items(h.orders, Ptrs(sh, side));
    var n := |Flat(ring[..i], sh.fifo)| + |f| - 1;
    assert Ptrs(sh, side)[n] == f[|f| - 1];
    forall m | n < m < |items| ensures items[m].price != price {
      BehindLevel(h, sh, ring, i, m - n - 1);
    }
    NextPriorityAt(items, price, n);
  }

  /** Orders in later levels have other prices. */
  lemma BehindLevel(h: Heap, sh: Shape, ring: seq<int>, i: nat, m: nat)
    requires FifosOk(h, sh) && TableOk(h, sh) && Mapped(ring, sh.fifo) && Distinct(ring) && i < |ring|
    requires Mapped(ring[i + 1..], sh.fifo) && m < |Flat(ring[i + 1..], sh.fifo)|
    ensures 0 <= Flat(ring[i + 1..], sh.fifo)[m] < |h.orders| && 0 <= ring[i] < |h.levels|
    ensures h.orders[Flat(ring[i + 1..], sh.fifo)[m]].item.price != h.levels[ring[i]].item.price
  {
    var j := FlatPrice(h, sh, ring[i + 1..], m);
    assert Filed(h, ring[i]) && Filed(h, ring[i + 1..][j]);
    assert ring[i + 1..][j] == ring[i + 1 + j];
  }

  lemma PriorityAtSlot(h: Heap, sh: Shape, side: Side, price: nat)
    requires Inv(h, sh) && side != NO_SIDE
    requires Mapped(sh.bidRing, sh.fifo) && Mapped(sh.askRing, sh.fifo)
    requires InStore(h.orders, Ptrs(sh, side)) && InStore(h.orders, Ptrs(sh, Opposite(side)))
    requires SlotIsClear(Items(h.orders, Ptrs(sh, side)), price)
    requires SlotIsClear(Items(h.orders, Ptrs(sh, Opposite(side))), price)
    requires Unpriced(Items(h.orders, Ptrs(sh, Opposite(side))), price)
    ensures PriceToIndex(price) !in h.table ==> NextPriority(Items(h.orders, Ptrs(sh, side)), price) == 1
    ensures PriceToIndex(price) in h.table ==>
      var l := h.table[PriceToIndex(price)];
      && 0 <= l < |h.levels| && 0 <= h.levels[l].item.head < |h.orders|
      && 0 <= h.orders[h.levels[l].item.head].prev < |h.orders|
      && NextPriority(Items(h.orders, Ptrs(sh, side)), price)
         == h.orders[h.orders[h.levels[l].item.head].prev].item.priority + 1
  {
    SlotOfPrice(h, sh, side, price);
    if PriceToIndex(price) in h.table {
      LevelTailPriority(h, sh, h.table[PriceToIndex(price)]);
    } else {
      NextPriorityFresh(Items(h.orders, Ptrs(sh, side)), price);
    }
  }

  /** Everything a remainder needs of the book it is about to rest in. */
  lemma RemainderReady(ticker: nat, b: Book, r: Request)
    requires Sound(b) && r.NewOrder? && Acceptable(ticker, b, r) && Swept(ticker, b, r).left > 0
    ensures var b', o := SweptBook(ticker, b, r), Remainder(ticker, b, r);
            && OwnerFree(b', o.owner)
            && Resting(b', r.side) == Resting(b, r.side)
            && Unpriced(Resting(b', Opposite(r.side)), r.price)
            && PriceTimeBook.Add(ticker, b, r).book == WithSide(b', r.side, Insert(Resting(b', r.side), o))
            && Sound(PriceTimeBook.Add(ticker, b, r).book)
  {
    SoundIsInv(b);
    SweptBookInv(ticker, b, r);
    SweptBookSides(ticker, b, r);
    RemainderUncrossed(ticker, b, r);
    var t := Swept(ticker, b, r).resting;
    forall i | 0 <= i < |t| ensures PricedElse(t, r.price, i) {
      assert !Crosses(r.side, r.price, t[i].price);
    }
    AddKeepsInv(ticker, b, r);
    SoundIsInv(PriceTimeBook.Add(ticker, b, r).book);
  }

  /** A remainder that fits has a usable slot, and both pools have a cell to spare. */
  lemma FitsLeavesRoom(h: Heap, sh: Shape, b: Book, r: Request)
    requires Inv(h, sh) && r.NewOrder? && r.side != NO_SIDE && Fits(b, r)
    requires Mapped(sh.bidRing, sh.fifo) && Mapped(sh.askRing, sh.fifo)
    requires InStore(h.orders, Ptrs(sh, BUY)) && InStore(h.orders, Ptrs(sh, SELL))
    requires b.bids == Items(h.orders, Ptrs(sh, BUY)) && b.asks == Items(h.orders, Ptrs(sh, SELL))
    requires Unpriced(Resting(b, Opposite(r.side)), r.price)
    ensures PriceToIndex(r.price) in h.table ==>
      var l := h.table[PriceToIndex(r.price)];
      0 <= l < |h.levels| && h.levels[l].item.price == r.price && h.levels[l].item.side == r.side
    ensures PriceToIndex(r.price) !in h.table ==> |sh.fifo.Keys| + 1 < MAX_PRICE_LEVELS
    ensures |LinkedCells(sh)| + 1 < MAX_ORDER_IDS
  {
    assert Resting(b, Opposite(r.side)) == Items(h.orders, Ptrs(sh, Opposite(r.side)));
    SlotOfPrice(h, sh, r.side, r.price);
    UnpricedIsAbsent(Resting(b, r.side), r.price);
    UnpricedIsAbsent(Resting(b, Opposite(r.side)), r.price);
    LinkedCellsSize(h, sh);
    LevelCount(h, sh);
  }

  lemma AfterFillInPlace(s: seq<Order>, rest: nat)
    requires s != []
    ensures RemoveAt(s, 0) == AfterFill(s, 0)
    ensures rest > 0 ==> s[0 := s[0].(qty := rest)] == AfterFill(s, rest)
  {
  }

  /** Putting a side back changes nothing, and the last of two replacements wins. */
  lemma SideReplaced(b: Book, side: Side, s: seq<Order>, s': seq<Order>)
    requires side != NO_SIDE
    ensures Resting(WithSide(b, side, s), side) == s
    ensures WithSide(WithSide(b, side, s), side, s') == WithSide(b, side, s')
    ensures WithSide(b, side, Resting(b, side)) == b
  {
  }

  /** The sweep of an accepted order, with the messages of everything before it in front. */
  lemma SweptAfterHistory(ticker: nat, b: Book, r: Request, rs: seq<Response>, us: seq<MarketUpdate>)
    requires r.NewOrder?
    ensures SweepAll(ticker, TakerOf(b, r),
                     Sweep(Resting(b, Opposite(r.side)), r.qty, rs + [Accepted(ticker, b, r)], us))
         == var e := Swept(ticker, b, r); e.(responses := rs + e.responses, updates := us + e.updates)
  {
    assert us + [] == us;
    SweepAppends(ticker, TakerOf(b, r), Sweep(Resting(b, Opposite(r.side)), r.qty, [Accepted(ticker, b, r)], []), rs,
                 us);
  }
}

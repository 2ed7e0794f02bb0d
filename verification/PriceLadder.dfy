/**
 The linked structure shared by the exchange's book and the participants' replica: pools,
 level rings, order rings and the price table, changed in place.
 */
module PriceLadders {
  import opened MarketTypes
  import opened Sequences
  import opened Rings
  import opened MemPools
  import opened LadderHeap
  import opened LadderOrder
  import opened PriceTimeBook

  class PriceLadder {
    const orders: MemPool<Node<Order>>
    const levels: MemPool<Node<Level>>
    var bids: int
    var asks: int
    /** Slot of each price that has a level; an absent slot is a null pointer. */
    var table: map<nat, int>
    ghost var shape: Shape
    ghost var bidCells: seq<int>
    ghost var askCells: seq<int>
    ghost var bidOrders: seq<Order>
    ghost var askOrders: seq<Order>

    ghost function H(): Heap
      reads `bids, `asks, `table, orders.objects, levels.objects
    {
      Heap(orders.objects[..], levels.objects[..], bids, asks, table)
    }

    ghost function Repr(): set<object> {
      {this, orders, orders.objects, orders.isFree, levels, levels.objects, levels.isFree}
    }

    ghost predicate Separate() {
      && orders as object != levels as object
      && orders.objects as object != levels.objects as object
      && orders.objects as object != orders.isFree as object
      && orders.objects as object != levels.isFree as object
      && levels.objects as object != orders.isFree as object
      && levels.objects as object != levels.isFree as object
      && orders.isFree as object != levels.isFree as object
    }

    /** The rings, the table and both pools agree, except that `pending` order cells are live but not linked. */
    ghost predicate ValidBut(pending: set<int>)
      reads `bids, `asks, `table, `shape, orders, orders.objects, orders.isFree, levels, levels.objects, levels.isFree
    {
      && Separate() && orders.Valid() && levels.Valid()
      && Inv(H(), shape)
      && levels.Live() == shape.fifo.Keys
      && orders.Live() == LinkedCells(shape) + pending
      && LinkedCells(shape) !! pending
    }

    /** Every live cell is linked. */
    ghost predicate Settled()
      reads `bids, `asks, `table, `shape, orders, orders.objects, orders.isFree, levels, levels.objects, levels.isFree
    {
      forall pending {:trigger ValidBut(pending)} :: pending == {} ==> ValidBut(pending)
    }

    /** The ghost sequences show the ladder: the cells and the orders of each side in price-time order. */
    ghost predicate Valid()
      reads this, orders, orders.objects, orders.isFree, levels, levels.objects, levels.isFree
    {
      && Settled() && |bidCells| == |bidOrders| && |askCells| == |askOrders|
      && (forall side {:trigger Shown(side)} :: side != NO_SIDE ==> Shown(side))
    }

    ghost predicate Shown(side: Side)
      reads this, orders.objects, levels.objects
    {
      ShowsSide(H(), shape, side, Side(side), Book(side))
    }

    ghost function Side(side: Side): seq<int>
      reads this
    {
      if side == BUY then bidCells else askCells
    }

    ghost function Book(side: Side): seq<Order>
      reads this
    {
      if side == BUY then bidOrders else askOrders
    }

    /** What side `s` would show were these the sequences of `side` and of the other one. */
    ghost predicate WouldShow(s: Side, side: Side, cells: seq<int>, book: seq<Order>, otherCells: seq<int>,
                              otherBook: seq<Order>)
      reads this, orders.objects, levels.objects
    {
      ShowsSide(H(), shape, s, if s == side then cells else otherCells, if s == side then book else otherBook)
    }

    ghost predicate Showable(side: Side, cells: seq<int>, book: seq<Order>, otherCells: seq<int>, otherBook: seq<Order>)
      reads this, orders.objects, levels.objects
    {
      forall s {:trigger WouldShow(s, side, cells, book, otherCells, otherBook)} ::
        s != NO_SIDE ==> WouldShow(s, side, cells, book, otherCells, otherBook)
    }

    /** Writes the ghost sequences of a side and of the other one. */
    ghost method Show(side: Side, cells: seq<int>, book: seq<Order>, otherCells: seq<int>, otherBook: seq<Order>)
      requires side != NO_SIDE && Showable(side, cells, book, otherCells, otherBook)
      modifies this`bidCells, this`bidOrders, this`askCells, this`askOrders
      ensures Side(side) == cells && Book(side) == book
      ensures Side(Opposite(side)) == otherCells && Book(Opposite(side)) == otherBook
      ensures |cells| == |book| && |otherCells| == |otherBook|
      ensures forall s {:trigger Shown(s)} :: s != NO_SIDE ==> Shown(s)
    {
      assert WouldShow(side, side, cells, book, otherCells, otherBook);
      assert WouldShow(Opposite(side), side, cells, book, otherCells, otherBook);
      if side == BUY {
        bidCells, bidOrders, askCells, askOrders := cells, book, otherCells, otherBook;
      } else {
        askCells, askOrders, bidCells, bidOrders := cells, book, otherCells, otherBook;
      }
    }

    constructor (numLevels: nat, numOrders: nat)
      requires numLevels > 0 && numOrders > 0
      ensures Valid() && fresh(Repr())
      ensures Book(BUY) == [] && Book(SELL) == [] && Side(BUY) == [] && Side(SELL) == [] && table == map[]
      ensures orders.objects.Length == numOrders && levels.objects.Length == numLevels
    {
      orders := new MemPool<Node<Order>>(numOrders);
      levels := new MemPool<Node<Level>>(numLevels);
      bids, asks := NIL, NIL;
      table := map[];
      shape := Shape([], [], map[]);
      bidCells, askCells, bidOrders, askOrders := [], [], [], [];
    }

    method GetOrderAtPrice(price: nat) returns (l: int)
      ensures l == if PriceToIndex(price) in table then table[PriceToIndex(price)] else NIL
    {
      l := if PriceToIndex(price) in table then table[PriceToIndex(price)] else NIL;
    }

    /** The look-ahead scan for the level to insert before; it stops at the head after one turn. */
    method FindNextLevel(side: Side, price: nat, ghost ring: seq<int>, ghost keys: set<int>)
        returns (curr: int, ghost k: nat)
      requires ring != [] && side != NO_SIDE
      requires RingOk(levels.objects[..], ring, if side == BUY then bids else asks, keys, side)
      requires forall i :: 0 <= i < |ring| ==> levels.objects[..][ring[i]].item.price != price
      ensures k <= |ring| && curr == BeforeCell(ring, k)
      ensures forall i :: 0 <= i < k ==> Better(side, levels.objects[..][ring[i]].item.price, price)
      ensures forall i :: k <= i < |ring| ==> Better(side, price, levels.objects[..][ring[i]].item.price)
      ensures curr in ring
      ensures curr != (if side == BUY then bids else asks) ==> Better(side, price, levels.objects[..][curr].item.price)
    {
      ghost var cells := levels.objects[..];
      var head := if side == BUY then bids else asks;
      curr, k := head, 0;
      var moveCond := Better(side, levels.objects[curr].item.price, price);
      if moveCond {
        assert Linked(cells, ring, 0);
        curr, k := levels.objects[curr].next, 1;
        moveCond := Better(side, levels.objects[curr].item.price, price);
      }
      while moveCond && curr != head
        invariant k <= |ring| && curr == BeforeCell(ring, k) && 0 <= curr < levels.objects.Length
        invariant forall i :: 0 <= i < k ==> Better(side, cells[ring[i]].item.price, price)
        invariant moveCond ==> k >= 1
        invariant !moveCond ==> k < |ring| && Better(side, price, cells[curr].item.price)
        decreases |ring| - k, moveCond
      {
        moveCond := Better(side, levels.objects[curr].item.price, price);
        if moveCond {
          assert Linked(cells, ring, k);
          curr, k := levels.objects[curr].next, k + 1;
        }
      }
      if !moveCond {
        WorseFromHere(cells, ring, head, keys, side, price, k);
      }
    }

    /** Files a prepared level in the table and links it at the only sorted place; a better price becomes the head. */
    method AddOrderAtPrice(l: nat, ghost ring: seq<int>, ghost keys: set<int>) returns (ghost k: nat)
      requires orders.objects as object != levels.objects as object
      requires l < levels.objects.Length && l !in ring
      requires levels.objects[l].item.side != NO_SIDE
      requires RingOk(levels.objects[..], ring, HeadOf(H(), levels.objects[l].item.side), keys,
                      levels.objects[l].item.side)
      requires forall i :: 0 <= i < |ring| ==> levels.objects[..][ring[i]].item.price != levels.objects[l].item.price
      modifies this`bids, this`asks, this`table, levels.objects
      ensures IsLevelSlot(old(H()), ring, old(H()).levels[l].item.side, old(H()).levels[l].item.price, k)
      ensures BeforeCell(ring, k) != NIL ==>
        0 <= BeforeCell(ring, k) < |old(H()).levels|
            && 0 <= old(H()).levels[BeforeCell(ring, k)].prev < |old(H()).levels|
      ensures H() == LinkLevel(old(H()), old(H()).levels[l].item.side, l, old(H()).levels[l].item.price,
                               BeforeCell(ring, k), HeadAfter(ring, k, l))
    {
      var side, price := levels.objects[l].item.side, levels.objects[l].item.price;
      table := table[PriceToIndex(price) := l];
      var head := if side == BUY then bids else asks;
      if head == NIL {
        k := 0;
        if side == BUY { bids := l; } else { asks := l; }
        levels.objects[l] := levels.objects[l].(next := l);
        levels.objects[l] := levels.objects[l].(prev := l);
      } else {
        var headPrice := levels.objects[head].item.price;
        var next;
        next, k := FindNextLevel(side, price, ring, keys);
        assert Linked(levels.objects[..], ring, if k == |ring| then 0 else k);
        SpliceLevel(l, next, ring, if k == |ring| then 0 else k);
        if Better(side, price, headPrice) {
          if side == BUY { bids := l; } else { asks := l; }
        }
      }
    }

    /** Links level `l` just before `next`, by four link writes. */
    method SpliceLevel(l: nat, next: nat, ghost ring: seq<int>, ghost i: nat)
      requires l < levels.objects.Length && l !in ring
      requires IsRing(levels.objects[..], ring) && i < |ring| && ring[i] == next
      modifies levels.objects
      ensures 0 <= old(levels.objects[..])[next].prev < levels.objects.Length
      ensures levels.objects[..] == Splice(old(levels.objects[..]), l, next)
    {
      assert Linked(levels.objects[..], ring, i) && Linked(levels.objects[..], ring, Behind(i, |ring|));
      var curr := levels.objects[next].prev;
      levels.objects[l] := levels.objects[l].(next := levels.objects[curr].next);
      levels.objects[l] := levels.objects[l].(prev := curr);
      var after := levels.objects[curr].next;
      levels.objects[after] := levels.objects[after].(prev := l);
      levels.objects[curr] := levels.objects[curr].(next := l);
    }

    /** Adds order cell `p` to the tail of the level at its price, or to a new level at its sorted place. */
    method AddOrderToPriceLevel(p: nat) returns (ghost n: nat)
      requires p < orders.objects.Length && ValidBut({p})
      requires Restable(orders.objects[p].item.side, orders.objects[p].item.price)
      modifies this`bids, this`asks, this`table, this`shape, orders.objects, levels`nextFree, levels.objects,
               levels.isFree
      ensures ValidBut({})
      ensures SameItems(old(orders.objects[..]), orders.objects[..])
      ensures var o := old(orders.objects[p].item);
              Gained(old(shape), shape, o.side, n, p) && AtSlot(old(H()), old(shape), o.side, o.price, n)
    {
      var l := GetOrderAtPrice(orders.objects[p].item.price);
      if l == NIL {
        n := StartNewLevel(p);
      } else {
        n := JoinLevel(p, l);
      }
    }

    /** The price's slot is free with a level cell to spare, or it holds a level of that very price and side. */
    ghost predicate Restable(side: Side, price: nat)
      reads this, levels.objects, levels.isFree
    {
      && side != NO_SIDE
      && if PriceToIndex(price) in table
         then var l := table[PriceToIndex(price)];
              0 <= l < levels.objects.Length && levels.objects[l].item.price == price
                  && levels.objects[l].item.side == side
         else |levels.Live()| + 1 < levels.isFree.Length
    }

    method JoinLevel(p: nat, l: int) returns (ghost n: nat)
      requires p < orders.objects.Length && ValidBut({p})
      requires PriceToIndex(orders.objects[p].item.price) in table
      requires l == table[PriceToIndex(orders.objects[p].item.price)]
      requires Restable(orders.objects[p].item.side, orders.objects[p].item.price)
      modifies this`shape, orders.objects
      ensures ValidBut({})
      ensures SameItems(old(orders.objects[..]), orders.objects[..])
      ensures var o := old(orders.objects[p].item);
              Gained(old(shape), shape, o.side, n, p) && AtSlot(old(H()), old(shape), o.side, o.price, n)
    {
      ghost var h, sh := H(), shape;
      assert Points(h, sh, PriceToIndex(orders.objects[p].item.price));
      n := JoinOutcome(h, sh, l, p);
      LinkOrder(p, l, sh.fifo[l]);
      shape := sh.(fifo := sh.fifo[l := sh.fifo[l] + [p]]);
      assert H() == AppendOrder(h, l, p);
    }

    /** Links order `p` just before the head of level `l`, by four link writes. */
    method LinkOrder(p: nat, l: nat, ghost f: seq<int>)
      requires orders.objects as object != levels.objects as object
      requires p < orders.objects.Length && p !in f && l < levels.objects.Length
      requires IsRing(orders.objects[..], f) && f != [] && f[0] == levels.objects[l].item.head
      modifies orders.objects
      ensures 0 <= old(orders.objects[..])[f[0]].prev < orders.objects.Length
      ensures orders.objects[..] == Splice(old(orders.objects[..]), p, f[0])
    {
      assert Linked(orders.objects[..], f, 0);
      var levelHead := levels.objects[l].item.head;
      var tail := orders.objects[levelHead].prev;
      orders.objects[tail] := orders.objects[tail].(next := p);
      orders.objects[p] := orders.objects[p].(next := levelHead);
      orders.objects[p] := orders.objects[p].(prev := orders.objects[levelHead].prev);
      orders.objects[levelHead] := orders.objects[levelHead].(prev := p);
    }

    method StartNewLevel(p: nat) returns (ghost n: nat)
      requires p < orders.objects.Length && ValidBut({p})
      requires PriceToIndex(orders.objects[p].item.price) !in table
      requires Restable(orders.objects[p].item.side, orders.objects[p].item.price)
      modifies this`bids, this`asks, this`table, this`shape, orders.objects, levels`nextFree, levels.objects,
               levels.isFree
      ensures ValidBut({})
      ensures SameItems(old(orders.objects[..]), orders.objects[..])
      ensures var o := old(orders.objects[p].item);
              Gained(old(shape), shape, o.side, n, p) && AtSlot(old(H()), old(shape), o.side, o.price, n)
    {
      ghost var h, sh, o := H(), shape, orders.objects[p].item;
      ghost var h1, k;
      var l;
      h1, l, k := LinkNewLevel(p);
      n := StartOutcome(h, h1, sh, o.side, o.price, l, p, k);
    }

    /** A level for `p` alone, linked at its sorted place; `h1` is the heap between the two steps. */
    method LinkNewLevel(p: nat) returns (ghost h1: Heap, l: nat, ghost k: nat)
      requires p < orders.objects.Length && ValidBut({p})
      requires PriceToIndex(orders.objects[p].item.price) !in table
      requires Restable(orders.objects[p].item.side, orders.objects[p].item.price)
      modifies this`bids, this`asks, this`table, this`shape, orders.objects, levels`nextFree, levels.objects,
               levels.isFree
      ensures levels.Valid() && Inv(H(), shape) && levels.Live() == shape.fifo.Keys
      ensures var o := old(orders.objects[p].item);
              && LevelStarted(old(H()), h1, old(shape), o.side, o.price, l, p, k)
              && shape == WithRing(old(shape), o.side,
                                   InsertAt(RingOf(old(shape), o.side), k, l)).(fifo := old(shape).fifo[l := [p]])
      ensures SameItems(h1.orders, orders.objects[..])
    {
      var side, price := orders.objects[p].item.side, orders.objects[p].item.price;
      l := PrepareLevel(p);
      h1 := H();
      k := LinkPrepared(l, side, price, p);
    }

    method LinkPrepared(l: nat, ghost side: Side, ghost price: nat, ghost p: int) returns (ghost k: nat)
      requires orders.objects as object != levels.objects as object
      requires Inv(H(), shape) && NewLevelReady(H(), shape, l, p)
      requires levels.objects[l].item.side == side && levels.objects[l].item.price == price
      modifies this`bids, this`asks, this`table, this`shape, levels.objects
      ensures Inv(H(), shape) && SameItems(old(orders.objects[..]), orders.objects[..])
      ensures InStore(old(H()).levels, RingOf(old(shape), side))
      ensures IsLevelSlot(old(H()), RingOf(old(shape), side), side, price, k)
      ensures shape == WithRing(old(shape), side,
                                InsertAt(RingOf(old(shape), side), k, l)).(fifo := old(shape).fifo[l := [p]])
    {
      ghost var h, sh, ring := H(), shape, RingOf(shape, side);
      assert SideOk(h, sh, side);
      NoLevelAt(h, sh, side, price, l);
      k := AddOrderAtPrice(l, ring, sh.fifo.Keys);
      LinkLevelInv(h, sh, side, l, p, k);
      shape := WithRing(sh, side, InsertAt(ring, k, l)).(fifo := sh.fifo[l := [p]]);
    }

    /** Links `p` to itself and takes a level cell for it; the ladder does not see either yet. */
    method PrepareLevel(p: nat) returns (l: nat)
      requires p < orders.objects.Length && ValidBut({p})
      requires PriceToIndex(orders.objects[p].item.price) !in table
      requires Restable(orders.objects[p].item.side, orders.objects[p].item.price)
      modifies orders.objects, levels`nextFree, levels.objects, levels.isFree
      ensures levels.Valid() && levels.Live() == old(levels.Live()) + {l}
      ensures l !in old(levels.Live()) && l < levels.objects.Length
      ensures Inv(H(), shape) && NewLevelReady(H(), shape, l, p)
      ensures var o := old(orders.objects[p].item);
              H() == old(H()).(orders := Alone(old(H()).orders, p),
                               levels := old(H()).levels[l := Node(Level(o.side, o.price, p), NIL, NIL)])
    {
      ghost var h := H();
      var side, price := orders.objects[p].item.side, orders.objects[p].item.price;
      orders.objects[p] := orders.objects[p].(next := p);
      orders.objects[p] := orders.objects[p].(prev := p);
      l := levels.Allocate(Node(Level(side, price, p), NIL, NIL));
      PreparedLevel(h, shape, side, price, p, l);
      assert H() == h.(orders := Alone(h.orders, p), levels := h.levels[l := Node(Level(side, price, p), NIL, NIL)]);
    }

    /** Takes order `p` out of its level, and the level out of its ring when `p` was its last order; frees the cells. */
    method RemoveOrder(p: int, ghost side: Side, ghost n: nat)
      requires ValidBut({}) && side != NO_SIDE
      requires Mapped(RingOf(shape, side), shape.fifo) && n < |Ptrs(shape, side)| && p == Ptrs(shape, side)[n]
      modifies this`bids, this`asks, this`table, this`shape, orders.objects, orders.isFree, levels.objects,
               levels.isFree
      ensures ValidBut({})
      ensures SameItems(old(orders.objects[..]), orders.objects[..])
      ensures Lost(old(shape), shape, side, n)
    {
      ghost var h, sh := H(), shape;
      SidesMapped(h, sh);
      ghost var i, j := CellPlace(h, sh, side, n, p);
      ghost var l0 := RingOf(sh, side)[i];
      var l := GetOrderAtPrice(orders.objects[p].item.price);
      assert l == l0;
      if orders.objects[p].next == p && orders.objects[p].prev == p {
        DropOutcome(h, sh, side, i, n);
        DropLastOrder(l, side, i);
      } else {
        UnlinkOutcome(h, sh, side, i, j, n);
        TakeFromLevel(p, l, j);
      }
      orders.Deallocate(p);
    }

    method TakeFromLevel(p: nat, l: nat, ghost j: nat)
      requires orders.objects as object != levels.objects as object
      requires Inv(H(), shape) && l in shape.fifo && 1 < |shape.fifo[l]| && j < |shape.fifo[l]| && p == shape.fifo[l][j]
      modifies this`shape, orders.objects, levels.objects
      ensures Inv(H(), shape) && SameItems(old(orders.objects[..]), orders.objects[..])
      ensures shape == old(shape).(fifo := old(shape).fifo[l := RemoveAt(old(shape).fifo[l], j)])
    {
      ghost var h, sh := H(), shape;
      UnlinkOrderInv(h, sh, l, j);
      UnlinkFifo(h, sh, l, j);
      UnlinkCell(p, l, sh.fifo[l], j);
      shape := sh.(fifo := sh.fifo[l := RemoveAt(sh.fifo[l], j)]);
      assert H() == UnlinkOrder(h, l, p);
    }

    /** The writes in order: the neighbours, then the level's head, then the order's own links. */
    method UnlinkCell(p: nat, l: nat, ghost f: seq<int>, ghost j: nat)
      requires orders.objects as object != levels.objects as object
      requires p < orders.objects.Length && l < levels.objects.Length
      requires IsRing(orders.objects[..], f) && 1 < |f| && j < |f| && p == f[j]
      modifies orders.objects, levels.objects
      ensures 0 <= old(orders.objects[..])[p].next < orders.objects.Length
      ensures 0 <= old(orders.objects[..])[p].prev < orders.objects.Length
      ensures H() == UnlinkOrder(old(H()), l, p)
    {
      assert Linked(orders.objects[..], f, j);
      SelfLinkedMeansAlone(orders.objects[..], f, j);
      var before, after := orders.objects[p].prev, orders.objects[p].next;
      orders.objects[before] := orders.objects[before].(next := after);
      orders.objects[after] := orders.objects[after].(prev := before);
      if p == levels.objects[l].item.head {
        levels.objects[l] := levels.objects[l].(item := levels.objects[l].item.(head := orders.objects[p].next));
      }
      orders.objects[p] := orders.objects[p].(next := NIL);
      orders.objects[p] := orders.objects[p].(prev := NIL);
    }

    method DropLastOrder(l: nat, ghost side: Side, ghost i: nat)
      requires orders.objects as object != levels.objects as object
      requires orders.objects as object != levels.isFree as object
      requires levels.objects as object != levels.isFree as object
      requires levels.Valid() && Inv(H(), shape) && side != NO_SIDE
      requires i < |RingOf(shape, side)| && l == RingOf(shape, side)[i] && l in levels.Live()
      modifies this`bids, this`asks, this`table, this`shape, levels.objects, levels.isFree
      ensures Inv(H(), shape) && orders.objects[..] == old(orders.objects[..])
      ensures shape == WithRing(old(shape), side, RemoveAt(RingOf(old(shape), side), i)).(fifo := old(shape).fifo - {l})
      ensures levels.Valid() && levels.Live() == old(levels.Live()) - {l}
    {
      ghost var h, sh := H(), shape;
      LevelOnRing(h, sh, side, i);
      DropLevelInv(h, sh, side, i);
      RemoveOrderAtPrice(l, RingOf(sh, side), i);
      shape := WithRing(sh, side, RemoveAt(RingOf(sh, side), i)).(fifo := sh.fifo - {l});
    }

    /** Takes a level out of its ring and of the table, moving the head if it was the best, and frees its cell. */
    method RemoveOrderAtPrice(l: nat, ghost ring: seq<int>, ghost i: nat)
      requires orders.objects as object != levels.objects as object
      requires orders.objects as object != levels.isFree as object
      requires levels.objects as object != levels.isFree as object
      requires levels.Valid() && l in levels.Live() && l < levels.objects.Length
      requires IsRing(levels.objects[..], ring) && i < |ring| && l == ring[i]
      modifies this`bids, this`asks, this`table, levels.objects, levels.isFree
      ensures old(levels.objects[..])[l].next != l ==>
        0 <= old(levels.objects[..])[l].next < levels.objects.Length
            && 0 <= old(levels.objects[..])[l].prev < levels.objects.Length
      ensures H() == DropLevel(old(H()), old(H()).levels[l].item.side, l)
      ensures levels.Valid() && levels.Live() == old(levels.Live()) - {l}
    {
      assert Linked(levels.objects[..], ring, i);
      SelfLinkedMeansAlone(levels.objects[..], ring, i);
      var side, price := levels.objects[l].item.side, levels.objects[l].item.price;
      var head := if side == BUY then bids else asks;
      if levels.objects[l].next == l {
        if side == BUY { bids := NIL; } else { asks := NIL; }
      } else {
        var before, after := levels.objects[l].prev, levels.objects[l].next;
        levels.objects[before] := levels.objects[before].(next := after);
        levels.objects[after] := levels.objects[after].(prev := before);
        if head == l {
          if side == BUY { bids := levels.objects[l].next; } else { asks := levels.objects[l].next; }
        }
        levels.objects[l] := levels.objects[l].(next := NIL);
        levels.objects[l] := levels.objects[l].(prev := NIL);
      }
      table := table - {PriceToIndex(price)};
      levels.Deallocate(l);
    }

    // ---------- the ladder as two sequences of orders ----------

    /** The head order of the best level: the oldest order at the best price. */
    method BestOrder(side: Side) returns (p: int)
      requires Valid() && side != NO_SIDE
      ensures p == if Side(side) == [] then NIL else Side(side)[0]
      ensures p == NIL <==> Side(side) == []
    {
      var head := if side == BUY then bids else asks;
      assert ValidBut({});
      HeadIsBest(H(), shape, side);
      assert Shown(side);
      p := if head == NIL then NIL else levels.objects[head].item.head;
    }

    /** Follows an order pointer. */
    method Read(p: int, ghost side: Side, ghost n: nat) returns (o: Order)
      requires Valid() && side != NO_SIDE && n < |Side(side)| && p == Side(side)[n]
      ensures n < |Book(side)| && o == Book(side)[n]
    {
      assert Shown(side);
      o := orders.objects[p].item;
    }

    /** Takes an order cell from the pool and files the order at its price. */
    method PlaceCell(o: Order) returns (p: nat, ghost n: nat)
      requires ValidBut({}) && Restable(o.side, o.price) && |orders.Live()| + 1 < orders.isFree.Length
      modifies this`bids, this`asks, this`table, this`shape,
               orders`nextFree, orders.objects, orders.isFree, levels`nextFree, levels.objects, levels.isFree
      ensures ValidBut({})
      ensures p < |old(H()).orders| && Unlinked(old(shape), p)
      ensures SameItems(old(H()).orders[p := Node(o, NIL, NIL)], H().orders)
      ensures Gained(old(shape), shape, o.side, n, p)
      ensures AtSlot(old(H()).(orders := old(H()).orders[p := Node(o, NIL, NIL)]), old(shape), o.side, o.price, n)
    {
      ghost var h, sh := H(), shape;
      p := orders.Allocate(Node(o, NIL, NIL));
      AllocatedCell(h, sh, p, Node(o, NIL, NIL));
      assert H() == h.(orders := h.orders[p := Node(o, NIL, NIL)]);
      n := AddOrderToPriceLevel(p);
    }

    method PlaceBetween(o: Order, ghost cells: seq<int>, ghost book: seq<Order>, ghost otherCells: seq<int>,
                        ghost otherBook: seq<Order>)
      returns (p: nat, ghost n: nat)
      requires ValidBut({}) && Restable(o.side, o.price) && |orders.Live()| + 1 < orders.isFree.Length
      requires Showable(o.side, cells, book, otherCells, otherBook)
      modifies this`bids, this`asks, this`table, this`shape,
               orders`nextFree, orders.objects, orders.isFree, levels`nextFree, levels.objects, levels.isFree
      ensures Settled()
      ensures n <= |cells| && n <= |book| && InsertAt(book, n, o) == Insert(book, o)
      ensures Showable(o.side, InsertAt(cells, n, p), InsertAt(book, n, o), otherCells, otherBook)
    {
      ghost var h, sh := H(), shape;
      assert WouldShow(o.side, o.side, cells, book, otherCells, otherBook);
      assert WouldShow(Opposite(o.side), o.side, cells, book, otherCells, otherBook);
      p, n := PlaceCell(o);
      PlacedWhereInserted(h, sh, o, n, p, cells, book);
      PlacedItems(h, H(), sh, shape, o, n, p, cells, book);
      PlacedOther(h, H(), sh, shape, o, n, p, otherCells, otherBook);
    }

    method Place(o: Order) returns (p: nat, ghost n: nat)
      requires Valid() && Restable(o.side, o.price) && |orders.Live()| + 1 < orders.isFree.Length
      modifies this`bids, this`asks, this`table, this`shape, this`bidCells, this`bidOrders, this`askCells,
               this`askOrders,
               orders`nextFree, orders.objects, orders.isFree, levels`nextFree, levels.objects, levels.isFree
      ensures Valid()
      ensures Book(o.side) == Insert(old(Book(o.side)), o)
      ensures n <= |old(Book(o.side))| && Book(o.side) == InsertAt(old(Book(o.side)), n, o)
      ensures Book(Opposite(o.side)) == old(Book(Opposite(o.side)))
      ensures n <= |old(Side(o.side))| && Side(o.side) == InsertAt(old(Side(o.side)), n, p)
      ensures Side(Opposite(o.side)) == old(Side(Opposite(o.side)))
    {
      ghost var cells, book := Side(o.side), Book(o.side);
      ghost var otherCells, otherBook := Side(Opposite(o.side)), Book(Opposite(o.side));
      ShownIsShowable(o.side);
      p, n := PlaceBetween(o, cells, book, otherCells, otherBook);
      Show(o.side, InsertAt(cells, n, p), InsertAt(book, n, o), otherCells, otherBook);
    }

    lemma ShownIsShowable(side: Side)
      requires Valid() && side != NO_SIDE
      ensures Showable(side, Side(side), Book(side), Side(Opposite(side)), Book(Opposite(side)))
    {
      assert Shown(side) && Shown(Opposite(side));
    }

    /** Takes an order out wherever it sits and frees its cell. */
    method Remove(p: int, ghost side: Side, ghost n: nat)
      requires Valid() && side != NO_SIDE
      requires n < |Side(side)| && p == Side(side)[n]
      modifies this, orders.objects, orders.isFree, levels.objects, levels.isFree
      ensures Valid()
      ensures n < |old(Book(side))| && n < |old(Side(side))|
      ensures Book(side) == RemoveAt(old(Book(side)), n) && Book(Opposite(side)) == old(Book(Opposite(side)))
      ensures Side(side) == RemoveAt(old(Side(side)), n) && Side(Opposite(side)) == old(Side(Opposite(side)))
    {
      ghost var h, sh := H(), shape;
      ghost var cells, book := Side(side), Book(side);
      ghost var otherCells, otherBook := Side(Opposite(side)), Book(Opposite(side));
      assert Shown(side) && Shown(Opposite(side));
      RemoveOrder(p, side, n);
      RemovedItems(h, H(), sh, shape, side, n, cells, book);
      OtherSideShown(h, H(), sh, shape, Opposite(side), otherCells, otherBook, {});
      Show(side, RemoveAt(cells, n), RemoveAt(book, n), otherCells, otherBook);
    }

    /** Writes a new quantity into a resting order. */
    method SetQuantity(p: int, qty: nat, ghost side: Side, ghost n: nat)
      requires Valid() && side != NO_SIDE
      requires n < |Side(side)| && p == Side(side)[n]
      modifies this`bidCells, this`bidOrders, this`askCells, this`askOrders, orders.objects
      ensures Valid()
      ensures n < |old(Book(side))| && Book(side) == old(Book(side))[n := old(Book(side))[n].(qty := qty)]
      ensures Book(Opposite(side)) == old(Book(Opposite(side)))
      ensures Side(side) == old(Side(side)) && Side(Opposite(side)) == old(Side(Opposite(side)))
    {
      ghost var h := H();
      ghost var cells, book := Side(side), Book(side);
      ghost var otherCells, otherBook := Side(Opposite(side)), Book(Opposite(side));
      assert ValidBut({}) && Shown(side) && Shown(Opposite(side));
      SetQtyInv(h, shape, p, qty);
      RequantifiedItems(h, shape, side, n, qty, cells, book);
      SidesShareNothing(h, shape, side, otherCells, n);
      orders.objects[p] := orders.objects[p].(item := orders.objects[p].item.(qty := qty));
      assert H() == SetQty(h, p, qty);
      OtherSideShown(h, H(), shape, shape, Opposite(side), otherCells, otherBook, {p});
      assert ValidBut({});
      Show(side, cells, book[n := book[n].(qty := qty)], otherCells, otherBook);
    }
  }
}

/**
 The cells behind a book and the shape that makes them one: two rings of price levels,
 best first, and under every level a ring of orders, oldest first.
 */
module LadderHeap {
  import opened MarketTypes
  import opened Sequences
  import opened Rings

  datatype Level = Level(side: Side, price: nat, head: int)

  /** The contents of both pools, the two heads and the price table. */
  datatype Heap = Heap(
    orders: seq<Node<Order>>, levels: seq<Node<Level>>, bids: int, asks: int, table: map<nat, int>)

  /** The level ring of each side, and the order ring of each level. */
  datatype Shape = Shape(bidRing: seq<int>, askRing: seq<int>, fifo: map<int, seq<int>>)

  function PriceToIndex(price: nat): nat {
    price % MAX_PRICE_LEVELS
  }

  function HeadOf(h: Heap, side: Side): int {
    if side == BUY then h.bids else h.asks
  }

  function WithHead(h: Heap, side: Side, p: int): Heap {
    if side == BUY then h.(bids := p) else h.(asks := p)
  }

  function RingOf(sh: Shape, side: Side): seq<int> {
    if side == BUY then sh.bidRing else sh.askRing
  }

  function WithRing(sh: Shape, side: Side, ring: seq<int>): Shape {
    if side == BUY then sh.(bidRing := ring) else sh.(askRing := ring)
  }

  // ---------- the representation invariant ----------

  ghost predicate OnRing(levels: seq<Node<Level>>, ring: seq<int>, keys: set<int>, side: Side, i: nat) {
    i < |ring| && 0 <= ring[i] < |levels| && ring[i] in keys && levels[ring[i]].item.side == side
  }

  ghost predicate InOrder(levels: seq<Node<Level>>, ring: seq<int>, side: Side, i: nat, j: nat) {
    && i < |ring| && 0 <= ring[i] < |levels| && j < |ring| && 0 <= ring[j] < |levels|
    && Better(side, levels[ring[i]].item.price, levels[ring[j]].item.price)
  }

  /** A side's level ring is closed, starts at the head, and its prices strictly worsen from there. */
  ghost predicate RingOk(levels: seq<Node<Level>>, ring: seq<int>, head: int, keys: set<int>, side: Side) {
    && IsRing(levels, ring)
    && head == (if ring == [] then NIL else ring[0])
    && (forall i {:trigger OnRing(levels, ring, keys, side, i)} :: 0 <= i < |ring| ==>
       OnRing(levels, ring, keys, side, i))
    && (forall i, j {:trigger InOrder(levels, ring, side, i, j)} :: 0 <= i < j < |ring| ==>
       InOrder(levels, ring, side, i, j))
  }

  ghost predicate SideOk(h: Heap, sh: Shape, side: Side) {
    RingOk(h.levels, RingOf(sh, side), HeadOf(h, side), sh.fifo.Keys, side)
  }

  ghost predicate SidesOk(h: Heap, sh: Shape) {
    forall side {:trigger SideOk(h, sh, side)} :: side != NO_SIDE ==> SideOk(h, sh, side)
  }

  /** The order ring of a level is closed, not empty, starts at its head and holds that level's orders. */
  ghost predicate FifoOk(h: Heap, sh: Shape, l: int)
    requires l in sh.fifo
  {
    var f := sh.fifo[l];
    && 0 <= l < |h.levels|
    && f != [] && IsRing(h.orders, f) && h.levels[l].item.head == f[0]
    && (forall i :: 0 <= i < |f| ==>
          h.orders[f[i]].item.price == h.levels[l].item.price && h.orders[f[i]].item.side == h.levels[l].item.side)
  }

  ghost predicate FifosOk(h: Heap, sh: Shape) {
    forall l {:trigger FifoOk(h, sh, l)} :: l in sh.fifo ==> FifoOk(h, sh, l)
  }

  /** The level's own slot of the price table points back to it. */
  ghost predicate Filed(h: Heap, l: int) {
    && 0 <= l < |h.levels| && PriceToIndex(h.levels[l].item.price) in h.table
    && h.table[PriceToIndex(h.levels[l].item.price)] == l
  }

  ghost predicate Points(h: Heap, sh: Shape, i: nat) {
    i in h.table && h.table[i] in sh.fifo && 0 <= h.table[i] < |h.levels|
        && PriceToIndex(h.levels[h.table[i]].item.price) == i
  }

  /** The price table points to exactly the linked levels, each at its own slot. */
  ghost predicate TableOk(h: Heap, sh: Shape) {
    && (forall l {:trigger Filed(h, l)} :: l in sh.fifo ==> Filed(h, l))
    && (forall i {:trigger Points(h, sh, i)} :: i in h.table ==> Points(h, sh, i))
  }

  ghost predicate Covers(h: Heap, sh: Shape, l: int) {
    0 <= l < |h.levels| && h.levels[l].item.side != NO_SIDE && l in RingOf(sh, h.levels[l].item.side)
  }

  /** Every level with orders is on the ring of its side. */
  ghost predicate Covered(h: Heap, sh: Shape) {
    forall l {:trigger Covers(h, sh, l)} :: l in sh.fifo ==> Covers(h, sh, l)
  }

  ghost predicate Inv(h: Heap, sh: Shape) {
    SidesOk(h, sh) && FifosOk(h, sh) && TableOk(h, sh) && Covered(h, sh)
  }

  lemma RingFacts(levels: seq<Node<Level>>, ring: seq<int>, head: int, keys: set<int>, side: Side)
    requires RingOk(levels, ring, head, keys, side)
    ensures forall i :: 0 <= i < |ring| ==>
            0 <= ring[i] < |levels| && ring[i] in keys && levels[ring[i]].item.side == side
  {
    forall i | 0 <= i < |ring| ensures 0 <= ring[i] < |levels| && ring[i] in keys && levels[ring[i]].item.side == side {
      assert OnRing(levels, ring, keys, side, i);
    }
  }

  /** Both level rings are in range, without repetition, and of linked levels only. */
  lemma SidesMapped(h: Heap, sh: Shape)
    requires SidesOk(h, sh)
    ensures Mapped(sh.bidRing, sh.fifo) && Mapped(sh.askRing, sh.fifo)
    ensures InStore(h.levels, sh.bidRing) && InStore(h.levels, sh.askRing)
    ensures Distinct(sh.bidRing) && Distinct(sh.askRing)
  {
    assert SideOk(h, sh, BUY) && SideOk(h, sh, SELL);
    RingFacts(h.levels, sh.bidRing, h.bids, sh.fifo.Keys, BUY);
    RingFacts(h.levels, sh.askRing, h.asks, sh.fifo.Keys, SELL);
  }

  ghost predicate Unlinked(sh: Shape, p: int) {
    forall l :: l in sh.fifo ==> p !in sh.fifo[l]
  }

  /** No order is linked under two levels. */
  lemma FifosDisjoint(h: Heap, sh: Shape, l: int, m: int, p: int)
    requires FifosOk(h, sh) && TableOk(h, sh)
    requires l in sh.fifo && m in sh.fifo && p in sh.fifo[l] && p in sh.fifo[m]
    ensures l == m
  {
    assert FifoOk(h, sh, l) && FifoOk(h, sh, m) && Filed(h, l) && Filed(h, m);
    assert h.levels[l].item.price == h.orders[p].item.price == h.levels[m].item.price;
  }

  // ---------- reading a side in price-time order ----------

  /** All order cells of a side: level by level, oldest first within a level. */
  ghost function Flat(ring: seq<int>, fifo: map<int, seq<int>>): seq<int>
    requires forall i :: 0 <= i < |ring| ==> ring[i] in fifo
  {
    if ring == [] then [] else fifo[ring[0]] + Flat(ring[1..], fifo)
  }

  ghost predicate Mapped(ring: seq<int>, fifo: map<int, seq<int>>) {
    forall i :: 0 <= i < |ring| ==> ring[i] in fifo
  }

  lemma {:induction false} FlatSame(ring: seq<int>, fifo: map<int, seq<int>>, fifo': map<int, seq<int>>)
    requires Mapped(ring, fifo) && Mapped(ring, fifo')
    requires forall i :: 0 <= i < |ring| ==> fifo'[ring[i]] == fifo[ring[i]]
    ensures Flat(ring, fifo') == Flat(ring, fifo)
  {
    if ring != [] {
      FlatSame(ring[1..], fifo, fifo');
    }
  }

  lemma {:induction false} FlatConcat(a: seq<int>, b: seq<int>, fifo: map<int, seq<int>>)
    requires Mapped(a, fifo) && Mapped(b, fifo) && Mapped(a + b, fifo)
    ensures Flat(a + b, fifo) == Flat(a, fifo) + Flat(b, fifo)
  {
    if a == [] {
      assert a + b == b;
    } else {
      assert (a + b)[1..] == a[1..] + b;
      FlatConcat(a[1..], b, fifo);
    }
  }

  lemma FlatSplit(ring: seq<int>, k: nat, fifo: map<int, seq<int>>)
    requires Mapped(ring, fifo) && k < |ring|
    ensures Mapped(ring[..k], fifo) && Mapped(ring[k + 1..], fifo)
    ensures Flat(ring, fifo) == Flat(ring[..k], fifo) + fifo[ring[k]] + Flat(ring[k + 1..], fifo)
  {
    assert ring == ring[..k] + ([ring[k]] + ring[k + 1..]);
    FlatConcat(ring[..k], [ring[k]] + ring[k + 1..], fifo);
    FlatConcat([ring[k]], ring[k + 1..], fifo);
    assert Flat([ring[k]], fifo) == fifo[ring[k]];
  }

  /** What is in a flattened side comes from one of its levels. */
  lemma {:induction false} FlatMember(ring: seq<int>, fifo: map<int, seq<int>>, p: int) returns (i: nat)
    requires Mapped(ring, fifo) && p in Flat(ring, fifo)
    ensures i < |ring| && p in fifo[ring[i]]
  {
    if p in fifo[ring[0]] {
      i := 0;
    } else {
      i := FlatMember(ring[1..], fifo, p);
      i := i + 1;
    }
  }

  lemma FlatHas(ring: seq<int>, fifo: map<int, seq<int>>, i: nat, p: int)
    requires Mapped(ring, fifo) && i < |ring| && p in fifo[ring[i]]
    ensures p in Flat(ring, fifo)
  {
    FlatSplit(ring, i, fifo);
  }

  ghost function Ptrs(sh: Shape, side: Side): seq<int>
    requires Mapped(RingOf(sh, side), sh.fifo)
  {
    Flat(RingOf(sh, side), sh.fifo)
  }

  ghost function Items<T>(store: seq<Node<T>>, ptrs: seq<int>): (r: seq<T>)
    requires InStore(store, ptrs)
    ensures |r| == |ptrs| && forall i :: 0 <= i < |r| ==> r[i] == store[ptrs[i]].item
  {
    seq(|ptrs|, i requires 0 <= i < |ptrs| => store[ptrs[i]].item)
  }

  /** A linked order sits in its side's flattened sequence and nowhere else. */
  lemma PtrsInStore(h: Heap, sh: Shape, side: Side)
    requires Inv(h, sh) && side != NO_SIDE
    ensures Mapped(RingOf(sh, side), sh.fifo) && InStore(h.orders, Ptrs(sh, side))
    ensures forall i :: 0 <= i < |Ptrs(sh, side)| ==> h.orders[Ptrs(sh, side)[i]].item.side == side
  {
    SidesMapped(h, sh);
    assert SideOk(h, sh, side);
    var ring, ps := RingOf(sh, side), Ptrs(sh, side);
    forall i | 0 <= i < |ps| ensures 0 <= ps[i] < |h.orders| && h.orders[ps[i]].item.side == side {
      var j := FlatMember(ring, sh.fifo, ps[i]);
      assert FifoOk(h, sh, ring[j]) && OnRing(h.levels, ring, sh.fifo.Keys, side, j);
    }
  }

  // ---------- appending to an existing level ----------

  ghost function AppendOrder(h: Heap, l: int, p: int): Heap
    requires 0 <= l < |h.levels| && 0 <= p < |h.orders|
    requires 0 <= h.levels[l].item.head < |h.orders| && 0 <= h.orders[h.levels[l].item.head].prev < |h.orders|
  {
    h.(orders := Splice(h.orders, p, h.levels[l].item.head))
  }

  lemma AppendFifo(h: Heap, sh: Shape, l: int, p: int)
    requires Inv(h, sh) && l in sh.fifo && 0 <= p < |h.orders| && Unlinked(sh, p)
    ensures sh.fifo[l] != [] && 0 <= l < |h.levels|
    ensures 0 <= h.levels[l].item.head < |h.orders| && 0 <= h.orders[h.levels[l].item.head].prev < |h.orders|
    ensures var s', f := AppendOrder(h, l, p).orders, sh.fifo[l];
            && SameItems(h.orders, s')
            && SameOutside(h.orders, s', {p, f[0], f[|f| - 1]})
            && IsRing(s', f + [p])
  {
    assert FifoOk(h, sh, l);
    var f := sh.fifo[l];
    assert Linked(h.orders, f, 0);
    SpliceLinks(h.orders, p, f[0]);
    SpliceIsInsert(h.orders, f, |f|, p);
    assert InsertAt(f, |f|, p) == f + [p];
  }

  // ---------- what an update leaves alone ----------

  /** A level whose own cells did not change keeps its ring. */
  lemma FifoKept(h: Heap, sh: Shape, h': Heap, sh': Shape, m: int)
    requires m in sh.fifo && m in sh'.fifo && FifoOk(h, sh, m) && sh'.fifo[m] == sh.fifo[m]
    requires |h'.orders| == |h.orders| && |h'.levels| == |h.levels| && h'.levels[m].item == h.levels[m].item
    requires forall i :: 0 <= i < |sh.fifo[m]| ==> h'.orders[sh.fifo[m][i]] == h.orders[sh.fifo[m][i]]
    ensures FifoOk(h', sh', m)
  {
    RingUntouched(h.orders, h'.orders, sh.fifo[m]);
  }

  /** Only order links changed, and only those of level `l`'s ring and of cells no level links. */
  ghost predicate OrdersChangedIn(h: Heap, sh: Shape, h': Heap, sh': Shape, l: int, touched: set<int>)
    requires l in sh.fifo
  {
    && |h'.levels| == |h.levels|
    && (forall m :: 0 <= m < |h.levels| && m != l ==> h'.levels[m].item == h.levels[m].item)
    && SameOutside(h.orders, h'.orders, touched)
    && (forall p :: p in touched ==> p in sh.fifo[l] || Unlinked(sh, p))
    && (forall m :: m in sh.fifo && m != l ==> m in sh'.fifo && sh'.fifo[m] == sh.fifo[m])
  }

  lemma OtherFifoKept(h: Heap, sh: Shape, h': Heap, sh': Shape, l: int, touched: set<int>, m: int)
    requires FifosOk(h, sh) && TableOk(h, sh) && l in sh.fifo && m in sh.fifo && m != l
    requires OrdersChangedIn(h, sh, h', sh', l, touched)
    ensures m in sh'.fifo && FifoOk(h', sh', m)
  {
    assert FifoOk(h, sh, m);
    forall i | 0 <= i < |sh.fifo[m]| ensures h'.orders[sh.fifo[m][i]] == h.orders[sh.fifo[m][i]] {
      if sh.fifo[m][i] in touched {
        FifosDisjoint(h, sh, l, m, sh.fifo[m][i]);
      }
    }
    FifoKept(h, sh, h', sh', m);
  }

  lemma RingOkKept(levels: seq<Node<Level>>, levels': seq<Node<Level>>, ring: seq<int>, head: int, keys: set<int>,
                   keys': set<int>, side: Side)
    requires RingOk(levels, ring, head, keys, side) && |levels'| == |levels|
    requires forall i :: 0 <= i < |ring| ==>
      && levels'[ring[i]].next == levels[ring[i]].next && levels'[ring[i]].prev == levels[ring[i]].prev
      && levels'[ring[i]].item.side == levels[ring[i]].item.side
      && levels'[ring[i]].item.price == levels[ring[i]].item.price
    requires forall i :: 0 <= i < |ring| ==> ring[i] in keys'
    ensures RingOk(levels', ring, head, keys', side)
  {
    RingUntouched(levels, levels', ring);
    forall i | 0 <= i < |ring| ensures OnRing(levels', ring, keys', side, i) {
      assert OnRing(levels, ring, keys, side, i);
    }
    forall i, j | 0 <= i < j < |ring| ensures InOrder(levels', ring, side, i, j) {
      assert InOrder(levels, ring, side, i, j);
    }
  }

  /** The rings and the table only look at the levels' links, sides and prices. */
  lemma LevelsKept(h: Heap, sh: Shape, h': Heap, sh': Shape)
    requires SidesOk(h, sh) && TableOk(h, sh) && Covered(h, sh)
    requires |h'.levels| == |h.levels| && h'.bids == h.bids && h'.asks == h.asks && h'.table == h.table
    requires forall m :: 0 <= m < |h.levels| ==>
      && h'.levels[m].next == h.levels[m].next && h'.levels[m].prev == h.levels[m].prev
      && h'.levels[m].item.side == h.levels[m].item.side && h'.levels[m].item.price == h.levels[m].item.price
    requires sh'.bidRing == sh.bidRing && sh'.askRing == sh.askRing && sh'.fifo.Keys == sh.fifo.Keys
    ensures SidesOk(h', sh') && TableOk(h', sh') && Covered(h', sh')
  {
    SidesMapped(h, sh);
    assert SideOk(h, sh, BUY) && SideOk(h, sh, SELL);
    RingOkKept(h.levels, h'.levels, sh.bidRing, h.bids, sh.fifo.Keys, sh'.fifo.Keys, BUY);
    RingOkKept(h.levels, h'.levels, sh.askRing, h.asks, sh.fifo.Keys, sh'.fifo.Keys, SELL);
    forall m | m in sh'.fifo ensures Filed(h', m) && Covers(h', sh', m) {
      assert m in sh.fifo.Keys && Filed(h, m) && Covers(h, sh, m);
    }
    forall i | i in h'.table ensures Points(h', sh', i) {
      assert Points(h, sh, i) && h.table[i] in sh'.fifo.Keys;
    }
  }

  lemma AppendOwnFifo(h: Heap, sh: Shape, l: int, p: int)
    requires Inv(h, sh) && l in sh.fifo && 0 <= p < |h.orders| && Unlinked(sh, p)
    requires 0 <= l < |h.levels| && h.orders[p].item.price == h.levels[l].item.price
    requires h.orders[p].item.side == h.levels[l].item.side
    ensures 0 <= h.levels[l].item.head < |h.orders| && 0 <= h.orders[h.levels[l].item.head].prev < |h.orders|
    ensures FifoOk(AppendOrder(h, l, p), sh.(fifo := sh.fifo[l := sh.fifo[l] + [p]]), l)
  {
    AppendFifo(h, sh, l, p);
    assert FifoOk(h, sh, l);
    var f := sh.fifo[l] + [p];
    forall i | 0 <= i < |f|
      ensures 0 <= f[i] < |h.orders| && h.orders[f[i]].item.price == h.levels[l].item.price
      ensures h.orders[f[i]].item.side == h.levels[l].item.side
    {
      assert i < |sh.fifo[l]| ==> f[i] == sh.fifo[l][i];
    }
  }

  lemma AppendOrderInv(h: Heap, sh: Shape, l: int, p: int)
    requires Inv(h, sh) && l in sh.fifo && 0 <= p < |h.orders| && Unlinked(sh, p)
    requires 0 <= l < |h.levels| && h.orders[p].item.price == h.levels[l].item.price
    requires h.orders[p].item.side == h.levels[l].item.side
    ensures 0 <= h.levels[l].item.head < |h.orders| && 0 <= h.orders[h.levels[l].item.head].prev < |h.orders|
    ensures Inv(AppendOrder(h, l, p), sh.(fifo := sh.fifo[l := sh.fifo[l] + [p]]))
  {
    AppendFifo(h, sh, l, p);
    AppendOwnFifo(h, sh, l, p);
    assert FifoOk(h, sh, l);
    var h', sh' := AppendOrder(h, l, p), sh.(fifo := sh.fifo[l := sh.fifo[l] + [p]]);
    var f := sh.fifo[l];
    LevelsKept(h, sh, h', sh');
    var touched := {p, f[0], f[|f| - 1]};
    assert OrdersChangedIn(h, sh, h', sh', l, touched);
    forall m | m in sh'.fifo ensures FifoOk(h', sh', m) {
      if m != l {
        OtherFifoKept(h, sh, h', sh', l, touched, m);
      }
    }
  }

  // ---------- taking an order out of a longer level ----------

  ghost function UnlinkOrder(h: Heap, l: int, p: int): Heap
    requires 0 <= l < |h.levels| && 0 <= p < |h.orders|
    requires 0 <= h.orders[p].next < |h.orders| && 0 <= h.orders[p].prev < |h.orders|
  {
    h.(orders := Unlink(h.orders, p),
       levels := if h.levels[l].item.head == p
                 then h.levels[l := h.levels[l].(item := h.levels[l].item.(head := h.orders[p].next))]
                 else h.levels)
  }

  lemma UnlinkFifo(h: Heap, sh: Shape, l: int, k: nat)
    requires Inv(h, sh) && l in sh.fifo && 1 < |sh.fifo[l]| && k < |sh.fifo[l]|
    ensures var f := sh.fifo[l];
            && IsRing(h.orders, f) && 0 <= l < |h.levels| && 0 <= f[k] < |h.orders|
            && h.orders[f[k]].next == f[After(k, |f|)] && h.orders[f[k]].prev == f[Behind(k, |f|)]
            && 0 <= h.orders[f[k]].next < |h.orders| && 0 <= h.orders[f[k]].prev < |h.orders|
            && var h' := UnlinkOrder(h, l, f[k]);
            && SameItems(h.orders, h'.orders)
            && SameOutside(h.orders, h'.orders, {f[k], f[After(k, |f|)], f[Behind(k, |f|)]})
            && IsRing(h'.orders, RemoveAt(f, k))
            && h'.levels[l].item.head == RemoveAt(f, k)[0]
  {
    assert FifoOk(h, sh, l);
    var f := sh.fifo[l];
    assert Linked(h.orders, f, k);
    assert f[k] != f[After(k, |f|)] && f[k] != f[Behind(k, |f|)];
    UnlinkLinks(h.orders, f[k]);
    UnlinkIsRemove(h.orders, f, k);
    RemoveAtIndices(f, k, 0);
    assert k > 0 ==> f[0] != f[k];
  }

  lemma UnlinkOwnFifo(h: Heap, sh: Shape, l: int, k: nat)
    requires Inv(h, sh) && l in sh.fifo && 1 < |sh.fifo[l]| && k < |sh.fifo[l]|
    requires 0 <= l < |h.levels| && 0 <= sh.fifo[l][k] < |h.orders|
    requires 0 <= h.orders[sh.fifo[l][k]].next < |h.orders| && 0 <= h.orders[sh.fifo[l][k]].prev < |h.orders|
    ensures FifoOk(UnlinkOrder(h, l, sh.fifo[l][k]), sh.(fifo := sh.fifo[l := RemoveAt(sh.fifo[l], k)]), l)
  {
    UnlinkFifo(h, sh, l, k);
    assert FifoOk(h, sh, l);
    var f := sh.fifo[l];
    var h', f' := UnlinkOrder(h, l, f[k]), RemoveAt(f, k);
    forall i | 0 <= i < |f'|
      ensures h'.orders[f'[i]].item.price == h.levels[l].item.price
      ensures h'.orders[f'[i]].item.side == h.levels[l].item.side
    {
      RemoveAtIndices(f, k, i);
    }
  }

  lemma UnlinkOrderInv(h: Heap, sh: Shape, l: int, k: nat)
    requires Inv(h, sh) && l in sh.fifo && 1 < |sh.fifo[l]| && k < |sh.fifo[l]|
    ensures 0 <= l < |h.levels| && 0 <= sh.fifo[l][k] < |h.orders|
    ensures 0 <= h.orders[sh.fifo[l][k]].next < |h.orders| && 0 <= h.orders[sh.fifo[l][k]].prev < |h.orders|
    ensures Inv(UnlinkOrder(h, l, sh.fifo[l][k]), sh.(fifo := sh.fifo[l := RemoveAt(sh.fifo[l], k)]))
  {
    UnlinkFifo(h, sh, l, k);
    UnlinkOwnFifo(h, sh, l, k);
    var f := sh.fifo[l];
    var h', sh' := UnlinkOrder(h, l, f[k]), sh.(fifo := sh.fifo[l := RemoveAt(f, k)]);
    LevelsKept(h, sh, h', sh');
    var touched := {f[k], f[After(k, |f|)], f[Behind(k, |f|)]};
    assert OrdersChangedIn(h, sh, h', sh', l, touched);
    forall m | m in sh'.fifo ensures FifoOk(h', sh', m) {
      if m != l {
        OtherFifoKept(h, sh, h', sh', l, touched, m);
      }
    }
  }

  // ---------- a new quantity in place ----------

  ghost function SetQty(h: Heap, p: int, qty: nat): Heap
    requires 0 <= p < |h.orders|
  {
    h.(orders := h.orders[p := h.orders[p].(item := h.orders[p].item.(qty := qty))])
  }

  lemma SetQtyInv(h: Heap, sh: Shape, p: int, qty: nat)
    requires Inv(h, sh) && 0 <= p < |h.orders|
    ensures Inv(SetQty(h, p, qty), sh)
  {
    var h' := SetQty(h, p, qty);
    LevelsKept(h, sh, h', sh);
    forall m | m in sh.fifo ensures FifoOk(h', sh, m) {
      assert FifoOk(h, sh, m);
      RingUntouched(h.orders, h'.orders, sh.fifo[m]);
    }
  }

  // ---------- a new level ----------

  /** Level cell `l` linked before ring cell `c`, or alone on an empty side; its slot and the head follow. */
  ghost function LinkLevel(h: Heap, side: Side, l: int, price: nat, c: int, newHead: int): Heap
    requires 0 <= l < |h.levels|
    requires c != NIL ==> 0 <= c < |h.levels| && 0 <= h.levels[c].prev < |h.levels|
  {
    WithHead(h, side, newHead).(
      levels := if c == NIL then Alone(h.levels, l) else Splice(h.levels, l, c),
      table := h.table[PriceToIndex(price) := l])
  }

  /** Position `k` of the side's level ring is where this price belongs. */
  ghost predicate IsLevelSlot(h: Heap, ring: seq<int>, side: Side, price: nat, k: nat)
    requires InStore(h.levels, ring)
  {
    && k <= |ring|
    && (forall i :: 0 <= i < k ==> Better(side, h.levels[ring[i]].item.price, price))
    && (forall i :: k <= i < |ring| ==> Better(side, price, h.levels[ring[i]].item.price))
  }

  /** Cell `l` is prepared as a level of the lone order `p`, and not linked yet. */
  ghost predicate NewLevelReady(h: Heap, sh: Shape, l: int, p: int) {
    && 0 <= l < |h.levels| && l !in sh.fifo && Unlinked(sh, p)
    && 0 <= p < |h.orders| && IsRing(h.orders, [p])
    && h.levels[l].item.head == p
    && h.levels[l].item.side == h.orders[p].item.side && h.levels[l].item.side != NO_SIDE
    && h.levels[l].item.price == h.orders[p].item.price
    && PriceToIndex(h.levels[l].item.price) !in h.table
  }

  ghost function BeforeCell(ring: seq<int>, k: nat): int
    requires k <= |ring|
  {
    if ring == [] then NIL else if k == |ring| then ring[0] else ring[k]
  }

  /** The cells of a ring. */
  ghost function Cells(ring: seq<int>): set<int> {
    set p | p in ring
  }

  lemma LinkLevelRing(h: Heap, ring: seq<int>, l: int, k: nat)
    requires IsRing(h.levels, ring) && k <= |ring| && 0 <= l < |h.levels| && l !in ring
    ensures var c := BeforeCell(ring, k);
            && (c != NIL ==> 0 <= c < |h.levels| && 0 <= h.levels[c].prev < |h.levels|)
            && var s' := if c == NIL then Alone(h.levels, l) else Splice(h.levels, l, c);
            && IsRing(s', InsertAt(ring, k, l)) && SameItems(h.levels, s')
            && SameOutside(h.levels, s', {l} + Cells(ring))
  {
    if ring == [] {
      AloneIsRing(h.levels, l);
      assert InsertAt(ring, k, l) == [l];
    } else {
      var ci := if k == |ring| then 0 else k;
      assert Linked(h.levels, ring, ci);
      SpliceLinks(h.levels, l, ring[ci]);
      SpliceIsInsert(h.levels, ring, k, l);
      assert ring[ci] in Cells(ring) && ring[Behind(ci, |ring|)] in Cells(ring);
    }
  }

  /** The head after linking at position `k`: the new level only when it is the best. */
  ghost function HeadAfter(ring: seq<int>, k: nat, l: int): int
    requires k <= |ring|
  {
    if k == 0 then l else ring[0]
  }

  lemma RingOkInsert(levels: seq<Node<Level>>, levels': seq<Node<Level>>, ring: seq<int>, head: int, keys: set<int>,
                     side: Side, l: int, k: nat)
    requires RingOk(levels, ring, head, keys, side) && side != NO_SIDE && k <= |ring|
    requires 0 <= l < |levels| && levels[l].item.side == side
    requires forall i :: 0 <= i < k ==> Better(side, levels[ring[i]].item.price, levels[l].item.price)
    requires forall i :: k <= i < |ring| ==> Better(side, levels[l].item.price, levels[ring[i]].item.price)
    requires IsRing(levels', InsertAt(ring, k, l)) && SameItems(levels, levels')
    ensures RingOk(levels', InsertAt(ring, k, l), HeadAfter(ring, k, l), keys + {l}, side)
  {
    var r := InsertAt(ring, k, l);
    forall i | 0 <= i < |r|
      ensures r[i] == (if i == k then l else ring[if i > k then i - 1 else i])
      ensures OnRing(levels', r, keys + {l}, side, i)
    {
      InsertAtIndices(ring, k, l, i);
      if i != k {
        assert OnRing(levels, ring, keys, side, if i > k then i - 1 else i);
      }
    }
    forall i, j | 0 <= i < j < |r| ensures InOrder(levels', r, side, i, j) {
      if i != k && j != k {
        assert InOrder(levels, ring, side, if i > k then i - 1 else i, if j > k then j - 1 else j);
      }
    }
  }

  lemma RingOkRemove(levels: seq<Node<Level>>, levels': seq<Node<Level>>, ring: seq<int>, head: int, keys: set<int>,
                     side: Side, k: nat, head': int)
    requires RingOk(levels, ring, head, keys, side) && k < |ring|
    requires IsRing(levels', RemoveAt(ring, k)) && SameItems(levels, levels')
    requires head' == if |ring| == 1 then NIL else if k == 0 then ring[1] else ring[0]
    ensures RingOk(levels', RemoveAt(ring, k), head', keys - {ring[k]}, side)
  {
    var r := RemoveAt(ring, k);
    RemoveAtDistinct(ring, k);
    forall i | 0 <= i < |r|
      ensures r[i] == ring[if i >= k then i + 1 else i]
      ensures OnRing(levels', r, keys - {ring[k]}, side, i)
    {
      RemoveAtIndices(ring, k, i);
      assert OnRing(levels, ring, keys, side, if i >= k then i + 1 else i);
    }
    forall i, j | 0 <= i < j < |r| ensures InOrder(levels', r, side, i, j) {
      assert InOrder(levels, ring, side, if i >= k then i + 1 else i, if j >= k then j + 1 else j);
    }
  }

  /** The two level rings share no cell: a level is on one side only. */
  lemma RingsDisjoint(h: Heap, sh: Shape, side: Side, p: int)
    requires SidesOk(h, sh) && side != NO_SIDE
    ensures p in RingOf(sh, side) ==> p !in RingOf(sh, Opposite(side))
  {
    assert SideOk(h, sh, BUY) && SideOk(h, sh, SELL);
    RingFacts(h.levels, sh.bidRing, h.bids, sh.fifo.Keys, BUY);
    RingFacts(h.levels, sh.askRing, h.asks, sh.fifo.Keys, SELL);
  }

  lemma OtherRingKept(h: Heap, sh: Shape, levels': seq<Node<Level>>, keys': set<int>, side: Side, touched: set<int>)
    requires SidesOk(h, sh) && side != NO_SIDE
    requires SameOutside(h.levels, levels', touched)
    requires forall p :: p in touched ==> p in RingOf(sh, side) || p !in sh.fifo
    requires forall p :: p in RingOf(sh, Opposite(side)) ==> p in keys'
    ensures RingOk(levels', RingOf(sh, Opposite(side)), HeadOf(h, Opposite(side)), keys', Opposite(side))
  {
    var other := RingOf(sh, Opposite(side));
    SidesMapped(h, sh);
    assert SideOk(h, sh, Opposite(side));
    forall i | 0 <= i < |other| ensures levels'[other[i]] == h.levels[other[i]] {
      assert other[i] in other && other[i] in sh.fifo;
      if other[i] in touched {
        RingsDisjoint(h, sh, side, other[i]);
      }
    }
    RingOkKept(h.levels, levels', other, HeadOf(h, Opposite(side)), sh.fifo.Keys, keys', Opposite(side));
  }

  lemma LinkLevelOwnSide(h: Heap, sh: Shape, h': Heap, sh': Shape, side: Side, l: int, p: int, k: nat)
    requires Inv(h, sh) && 0 <= l < |h.levels| && h.levels[l].item.side == side && side != NO_SIDE
    requires InStore(h.levels, RingOf(sh, side))
    requires IsLevelSlot(h, RingOf(sh, side), side, h.levels[l].item.price, k)
    requires IsRing(h'.levels, InsertAt(RingOf(sh, side), k, l)) && SameItems(h.levels, h'.levels)
    requires HeadOf(h', side) == HeadAfter(RingOf(sh, side), k, l)
    requires RingOf(sh', side) == InsertAt(RingOf(sh, side), k, l)
    requires sh'.fifo == sh.fifo[l := [p]]
    ensures SideOk(h', sh', side)
  {
    assert sh'.fifo.Keys == sh.fifo.Keys + {l};
    assert SideOk(h, sh, side);
    RingOkInsert(h.levels, h'.levels, RingOf(sh, side), HeadOf(h, side), sh.fifo.Keys, side, l, k);
  }

  lemma LinkLevelOtherSide(h: Heap, sh: Shape, h': Heap, sh': Shape, side: Side, l: int, p: int)
    requires Inv(h, sh) && side != NO_SIDE && l !in sh.fifo
    requires SameOutside(h.levels, h'.levels, {l} + Cells(RingOf(sh, side)))
    requires HeadOf(h', Opposite(side)) == HeadOf(h, Opposite(side))
    requires RingOf(sh', Opposite(side)) == RingOf(sh, Opposite(side))
    requires sh'.fifo == sh.fifo[l := [p]]
    ensures SideOk(h', sh', Opposite(side))
  {
    SidesMapped(h, sh);
    assert SideOk(h, sh, Opposite(side));
    OtherRingKept(h, sh, h'.levels, sh'.fifo.Keys, side, {l} + Cells(RingOf(sh, side)));
  }

  lemma LinkLevelTable(h: Heap, sh: Shape, h': Heap, sh': Shape, l: int, p: int)
    requires Inv(h, sh) && NewLevelReady(h, sh, l, p)
    requires h'.orders == h.orders && SameItems(h.levels, h'.levels)
    requires h'.table == h.table[PriceToIndex(h.levels[l].item.price) := l]
    requires sh'.fifo == sh.fifo[l := [p]]
    ensures FifosOk(h', sh') && TableOk(h', sh')
  {
    forall m | m in sh'.fifo ensures FifoOk(h', sh', m) && Filed(h', m) {
      if m != l {
        assert FifoOk(h, sh, m) && Filed(h, m);
        FifoKept(h, sh, h', sh', m);
      }
    }
    forall i | i in h'.table ensures Points(h', sh', i) {
      if i != PriceToIndex(h.levels[l].item.price) {
        assert Points(h, sh, i);
      }
    }
  }

  lemma LinkLevelCovered(h: Heap, sh: Shape, h': Heap, sh': Shape, side: Side, l: int, p: int, k: nat)
    requires Covered(h, sh) && 0 <= l < |h.levels| && h.levels[l].item.side == side && side != NO_SIDE
    requires k <= |RingOf(sh, side)| && SameItems(h.levels, h'.levels)
    requires RingOf(sh', side) == InsertAt(RingOf(sh, side), k, l)
    requires RingOf(sh', Opposite(side)) == RingOf(sh, Opposite(side))
    requires sh'.fifo == sh.fifo[l := [p]]
    ensures Covered(h', sh')
  {
    var ring := RingOf(sh, side);
    forall m | m in sh'.fifo ensures Covers(h', sh', m) {
      assert m != l ==> Covers(h, sh, m);
      if m == l {
        InsertAtIndices(ring, k, l, k);
      } else if h.levels[m].item.side == side {
        var j :| 0 <= j < |ring| && ring[j] == m;
        InsertAtIndices(ring, k, l, if j >= k then j + 1 else j);
      } else {
        assert h.levels[m].item.side == Opposite(side);
      }
    }
  }

  /** Linking a prepared level at its slot keeps the whole representation. */
  lemma LinkLevelInv(h: Heap, sh: Shape, side: Side, l: int, p: int, k: nat)
    requires Inv(h, sh) && NewLevelReady(h, sh, l, p) && h.levels[l].item.side == side
    requires InStore(h.levels, RingOf(sh, side))
    requires IsLevelSlot(h, RingOf(sh, side), side, h.levels[l].item.price, k)
    ensures var c := BeforeCell(RingOf(sh, side), k);
            && (c != NIL ==> 0 <= c < |h.levels| && 0 <= h.levels[c].prev < |h.levels|)
            && Inv(LinkLevel(h, side, l, h.levels[l].item.price, c, HeadAfter(RingOf(sh, side), k, l)),
                   WithRing(sh, side, InsertAt(RingOf(sh, side), k, l)).(fifo := sh.fifo[l := [p]]))
  {
    var ring := RingOf(sh, side);
    SidesMapped(h, sh);
    assert SideOk(h, sh, side) && l !in ring;
    LinkLevelRing(h, ring, l, k);
    var h' := LinkLevel(h, side, l, h.levels[l].item.price, BeforeCell(ring, k), HeadAfter(ring, k, l));
    var sh' := WithRing(sh, side, InsertAt(ring, k, l)).(fifo := sh.fifo[l := [p]]);
    LinkLevelOwnSide(h, sh, h', sh', side, l, p, k);
    LinkLevelOtherSide(h, sh, h', sh', side, l, p);
    LinkLevelTable(h, sh, h', sh', l, p);
    LinkLevelCovered(h, sh, h', sh', side, l, p, k);
  }

  // ---------- dropping a level that loses its last order ----------

  ghost function DropLevel(h: Heap, side: Side, l: int): Heap
    requires 0 <= l < |h.levels|
    requires h.levels[l].next != l ==> 0 <= h.levels[l].next < |h.levels| && 0 <= h.levels[l].prev < |h.levels|
  {
    var alone := h.levels[l].next == l;
    WithHead(h, side, if alone then NIL else if HeadOf(h, side) == l then h.levels[l].next else HeadOf(h, side)).(
      levels := if alone then h.levels else Unlink(h.levels, l),
      table := h.table - {PriceToIndex(h.levels[l].item.price)})
  }

  lemma DropLevelRing(h: Heap, ring: seq<int>, k: nat)
    requires IsRing(h.levels, ring) && k < |ring|
    ensures h.levels[ring[k]].next == ring[k] <==> |ring| == 1
    ensures |ring| > 1 ==>
      && h.levels[ring[k]].next == ring[After(k, |ring|)]
      && 0 <= h.levels[ring[k]].next < |h.levels| && 0 <= h.levels[ring[k]].prev < |h.levels|
      && SameOutside(h.levels, Unlink(h.levels, ring[k]), Cells(ring))
    ensures var s' := if |ring| == 1 then h.levels else Unlink(h.levels, ring[k]);
            IsRing(s', RemoveAt(ring, k)) && SameItems(h.levels, s')
  {
    SelfLinkedMeansAlone(h.levels, ring, k);
    if |ring| > 1 {
      assert Linked(h.levels, ring, k);
      assert ring[k] != ring[After(k, |ring|)] && ring[k] != ring[Behind(k, |ring|)];
      UnlinkLinks(h.levels, ring[k]);
      UnlinkIsRemove(h.levels, ring, k);
      assert ring[k] in Cells(ring) && ring[After(k, |ring|)] in Cells(ring) && ring[Behind(k, |ring|)] in Cells(ring);
    }
  }

  lemma DropLevelSides(h: Heap, sh: Shape, h': Heap, sh': Shape, side: Side, k: nat)
    requires Inv(h, sh) && side != NO_SIDE && k < |RingOf(sh, side)|
    requires IsRing(h'.levels, RemoveAt(RingOf(sh, side), k)) && SameItems(h.levels, h'.levels)
    requires SameOutside(h.levels, h'.levels, Cells(RingOf(sh, side)))
    requires var ring := RingOf(sh, side);
             HeadOf(h', side) == if |ring| == 1 then NIL else if k == 0 then ring[1] else ring[0]
    requires HeadOf(h', Opposite(side)) == HeadOf(h, Opposite(side))
    requires RingOf(sh', side) == RemoveAt(RingOf(sh, side), k)
    requires RingOf(sh', Opposite(side)) == RingOf(sh, Opposite(side))
    requires sh'.fifo == sh.fifo - {RingOf(sh, side)[k]}
    ensures SideOk(h', sh', side) && SideOk(h', sh', Opposite(side))
  {
    var ring := RingOf(sh, side);
    SidesMapped(h, sh);
    assert SideOk(h, sh, side) && SideOk(h, sh, Opposite(side));
    assert sh'.fifo.Keys == sh.fifo.Keys - {ring[k]};
    RingOkRemove(h.levels, h'.levels, ring, HeadOf(h, side), sh.fifo.Keys, side, k, HeadOf(h', side));
    forall p | p in RingOf(sh, Opposite(side)) ensures p in sh'.fifo.Keys {
      RingsDisjoint(h, sh, side, p);
      assert ring[k] in ring && p in sh.fifo;
      RingsDisjoint(h, sh, side, ring[k]);
    }
    OtherRingKept(h, sh, h'.levels, sh'.fifo.Keys, side, Cells(ring));
  }

  lemma DropLevelTable(h: Heap, sh: Shape, h': Heap, sh': Shape, l: int)
    requires Inv(h, sh) && l in sh.fifo && 0 <= l < |h.levels|
    requires h'.orders == h.orders && SameItems(h.levels, h'.levels)
    requires h'.table == h.table - {PriceToIndex(h.levels[l].item.price)}
    requires sh'.fifo == sh.fifo - {l}
    ensures FifosOk(h', sh') && TableOk(h', sh')
  {
    assert Filed(h, l);
    forall m | m in sh'.fifo ensures FifoOk(h', sh', m) && Filed(h', m) {
      assert FifoOk(h, sh, m) && Filed(h, m);
      FifoKept(h, sh, h', sh', m);
    }
    forall i | i in h'.table ensures Points(h', sh', i) {
      assert Points(h, sh, i);
    }
  }

  lemma DropLevelCovered(h: Heap, sh: Shape, h': Heap, sh': Shape, side: Side, k: nat)
    requires Covered(h, sh) && side != NO_SIDE && k < |RingOf(sh, side)|
    requires SameItems(h.levels, h'.levels)
    requires RingOf(sh', side) == RemoveAt(RingOf(sh, side), k)
    requires RingOf(sh', Opposite(side)) == RingOf(sh, Opposite(side))
    requires sh'.fifo == sh.fifo - {RingOf(sh, side)[k]}
    ensures Covered(h', sh')
  {
    var ring := RingOf(sh, side);
    forall m | m in sh'.fifo ensures Covers(h', sh', m) {
      assert Covers(h, sh, m);
      if h.levels[m].item.side == side {
        var j :| 0 <= j < |ring| && ring[j] == m;
        RemoveAtIndices(ring, k, if j > k then j - 1 else j);
      } else {
        assert h.levels[m].item.side == Opposite(side);
      }
    }
  }

  /** Dropping a level from its ring keeps the representation of all the others. */
  lemma DropLevelInv(h: Heap, sh: Shape, side: Side, k: nat)
    requires Inv(h, sh) && side != NO_SIDE && k < |RingOf(sh, side)|
    ensures var ring := RingOf(sh, side);
            && 0 <= ring[k] < |h.levels|
            && (h.levels[ring[k]].next != ring[k] ==>
               0 <= h.levels[ring[k]].next < |h.levels| && 0 <= h.levels[ring[k]].prev < |h.levels|)
            && Inv(DropLevel(h, side, ring[k]), WithRing(sh, side, RemoveAt(ring, k)).(fifo := sh.fifo - {ring[k]}))
  {
    var ring := RingOf(sh, side);
    SidesMapped(h, sh);
    assert SideOk(h, sh, side);
    assert 0 <= ring[k] < |h.levels| && ring[k] in sh.fifo;
    DropLevelRing(h, ring, k);
    assert k > 0 ==> ring[0] != ring[k];
    DroppedInv(h, sh, DropLevel(h, side, ring[k]), WithRing(sh, side, RemoveAt(ring, k)).(fifo := sh.fifo - {ring[k]}),
               side, k);
  }

  lemma DroppedInv(h: Heap, sh: Shape, h': Heap, sh': Shape, side: Side, k: nat)
    requires Inv(h, sh) && side != NO_SIDE && k < |RingOf(sh, side)|
    requires IsRing(h'.levels, RemoveAt(RingOf(sh, side), k)) && SameItems(h.levels, h'.levels)
    requires SameOutside(h.levels, h'.levels, Cells(RingOf(sh, side)))
    requires var ring := RingOf(sh, side);
             && HeadOf(h', side) == (if |ring| == 1 then NIL else if k == 0 then ring[1] else ring[0])
             && ring[k] in sh.fifo && 0 <= ring[k] < |h.levels|
             && h'.table == h.table - {PriceToIndex(h.levels[ring[k]].item.price)}
    requires h'.orders == h.orders && HeadOf(h', Opposite(side)) == HeadOf(h, Opposite(side))
    requires RingOf(sh', side) == RemoveAt(RingOf(sh, side), k)
    requires RingOf(sh', Opposite(side)) == RingOf(sh, Opposite(side))
    requires sh'.fifo == sh.fifo - {RingOf(sh, side)[k]}
    ensures Inv(h', sh')
  {
    DropLevelSides(h, sh, h', sh', side, k);
    DropLevelTable(h, sh, h', sh', RingOf(sh, side)[k]);
    DropLevelCovered(h, sh, h', sh', side, k);
  }
}

/** How the updates of a ladder look in price-time order, its levels flattened. */
module LadderOrder {
  import opened MarketTypes
  import opened Sequences
  import opened Rings
  import opened LadderHeap
  import opened PriceTimeBook
  import opened BookSafety

  // ---------- flattening after an update ----------

  lemma FlatPutLevel(ring: seq<int>, fifo: map<int, seq<int>>, i: nat, f: seq<int>)
    requires Mapped(ring, fifo) && Distinct(ring) && i < |ring|
    ensures Mapped(ring, fifo[ring[i] := f]) && Mapped(ring[..i], fifo) && Mapped(ring[i + 1..], fifo)
    ensures Flat(ring, fifo[ring[i] := f]) == Flat(ring[..i], fifo) + f + Flat(ring[i + 1..], fifo)
  {
    var fifo' := fifo[ring[i] := f];
    FlatSplit(ring, i, fifo');
    FlatSame(ring[..i], fifo, fifo');
    FlatSame(ring[i + 1..], fifo, fifo');
  }

  lemma FlatAppend(ring: seq<int>, fifo: map<int, seq<int>>, i: nat, p: int)
    requires Mapped(ring, fifo) && Distinct(ring) && i < |ring|
    ensures var fifo' := fifo[ring[i] := fifo[ring[i]] + [p]];
            && Mapped(ring, fifo') && Mapped(ring[..i + 1], fifo)
            && |Flat(ring[..i + 1], fifo)| <= |Flat(ring, fifo)|
            && Flat(ring, fifo') == InsertAt(Flat(ring, fifo), |Flat(ring[..i + 1], fifo)|, p)
  {
    FlatPutLevel(ring, fifo, i, fifo[ring[i]] + [p]);
    FlatSplit(ring, i, fifo);
    FlatSplit(ring[..i + 1], i, fifo);
    assert ring[..i + 1][..i] == ring[..i];
    assert ring[..i + 1][i + 1..] == [];
  }

  lemma FlatUnlink(ring: seq<int>, fifo: map<int, seq<int>>, i: nat, j: nat)
    requires Mapped(ring, fifo) && Distinct(ring) && i < |ring| && j < |fifo[ring[i]]|
    ensures var fifo' := fifo[ring[i] := RemoveAt(fifo[ring[i]], j)];
            && Mapped(ring, fifo') && Mapped(ring[..i], fifo)
            && |Flat(ring[..i], fifo)| + j < |Flat(ring, fifo)|
            && Flat(ring, fifo') == RemoveAt(Flat(ring, fifo), |Flat(ring[..i], fifo)| + j)
  {
    FlatPutLevel(ring, fifo, i, RemoveAt(fifo[ring[i]], j));
    FlatSplit(ring, i, fifo);
  }

  lemma FlatLink(ring: seq<int>, fifo: map<int, seq<int>>, k: nat, l: int, p: int)
    requires Mapped(ring, fifo) && l !in ring && k <= |ring|
    ensures Mapped(InsertAt(ring, k, l), fifo[l := [p]]) && Mapped(ring[..k], fifo)
    ensures |Flat(ring[..k], fifo)| <= |Flat(ring, fifo)|
    ensures Flat(InsertAt(ring, k, l), fifo[l := [p]]) == InsertAt(Flat(ring, fifo), |Flat(ring[..k], fifo)|, p)
  {
    var fifo', r := fifo[l := [p]], InsertAt(ring, k, l);
    forall i | 0 <= i < |r| ensures r[i] in fifo' {
      InsertAtIndices(ring, k, l, i);
    }
    FlatSplit(r, k, fifo');
    assert r[..k] == ring[..k] && r[k + 1..] == ring[k..] && r[k] == l;
    FlatSame(ring[..k], fifo, fifo');
    FlatSame(ring[k..], fifo, fifo');
    FlatConcat(ring[..k], ring[k..], fifo);
    assert ring == ring[..k] + ring[k..];
  }

  lemma FlatDrop(ring: seq<int>, fifo: map<int, seq<int>>, k: nat)
    requires Mapped(ring, fifo) && Distinct(ring) && k < |ring| && |fifo[ring[k]]| == 1
    ensures Mapped(RemoveAt(ring, k), fifo - {ring[k]}) && Mapped(ring[..k], fifo)
    ensures |Flat(ring[..k], fifo)| < |Flat(ring, fifo)|
    ensures Flat(RemoveAt(ring, k), fifo - {ring[k]}) == RemoveAt(Flat(ring, fifo), |Flat(ring[..k], fifo)|)
  {
    var fifo', r := fifo - {ring[k]}, RemoveAt(ring, k);
    RemoveAtDistinct(ring, k);
    forall i | 0 <= i < |r| ensures r[i] in fifo' {
      RemoveAtIndices(ring, k, i);
    }
    FlatSplit(ring, k, fifo);
    FlatConcat(ring[..k], ring[k + 1..], fifo');
    FlatSame(ring[..k], fifo', fifo);
    FlatSame(ring[k + 1..], fifo', fifo);
  }

  /** Position `n` of a flattened side is position `j` of its level number `i`. */
  lemma {:induction false} FlatLocate(ring: seq<int>, fifo: map<int, seq<int>>, n: nat) returns (i: nat, j: nat)
    requires Mapped(ring, fifo) && n < |Flat(ring, fifo)|
    ensures i < |ring| && Mapped(ring[..i], fifo) && j < |fifo[ring[i]]|
    ensures n == |Flat(ring[..i], fifo)| + j && Flat(ring, fifo)[n] == fifo[ring[i]][j]
  {
    var first := fifo[ring[0]];
    if n < |first| {
      i, j := 0, n;
    } else {
      i, j := FlatLocate(ring[1..], fifo, n - |first|);
      assert ring[..i + 1][1..] == ring[1..][..i];
      i := i + 1;
    }
  }

  // ---------- the slot of a price ----------

  /** An order in a run of levels has the price of one of them. */
  lemma FlatPrice(h: Heap, sh: Shape, ring: seq<int>, n: nat) returns (i: nat)
    requires FifosOk(h, sh) && Mapped(ring, sh.fifo) && n < |Flat(ring, sh.fifo)|
    ensures i < |ring| && 0 <= ring[i] < |h.levels| && 0 <= Flat(ring, sh.fifo)[n] < |h.orders|
    ensures h.orders[Flat(ring, sh.fifo)[n]].item.price == h.levels[ring[i]].item.price
  {
    i := FlatMember(ring, sh.fifo, Flat(ring, sh.fifo)[n]);
    assert FifoOk(h, sh, ring[i]);
  }

  lemma FlatFront(h: Heap, sh: Shape, side: Side, price: nat, ring: seq<int>)
    requires FifosOk(h, sh) && Mapped(ring, sh.fifo) && InStore(h.levels, ring)
    requires forall i :: 0 <= i < |ring| ==> !Better(side, price, h.levels[ring[i]].item.price)
    ensures InStore(h.orders, Flat(ring, sh.fifo))
    ensures forall n :: 0 <= n < |Flat(ring, sh.fifo)| ==>
            !Better(side, price, h.orders[Flat(ring, sh.fifo)[n]].item.price)
  {
    forall n | 0 <= n < |Flat(ring, sh.fifo)|
      ensures 0 <= Flat(ring, sh.fifo)[n] < |h.orders|
      ensures !Better(side, price, h.orders[Flat(ring, sh.fifo)[n]].item.price)
    {
      var i := FlatPrice(h, sh, ring, n);
    }
  }

  lemma FlatBack(h: Heap, sh: Shape, side: Side, price: nat, ring: seq<int>)
    requires FifosOk(h, sh) && Mapped(ring, sh.fifo) && InStore(h.levels, ring)
    requires forall i :: 0 <= i < |ring| ==> Better(side, price, h.levels[ring[i]].item.price)
    ensures InStore(h.orders, Flat(ring, sh.fifo))
    ensures forall n :: 0 <= n < |Flat(ring, sh.fifo)| ==>
            Better(side, price, h.orders[Flat(ring, sh.fifo)[n]].item.price)
  {
    forall n | 0 <= n < |Flat(ring, sh.fifo)|
      ensures 0 <= Flat(ring, sh.fifo)[n] < |h.orders|
      ensures Better(side, price, h.orders[Flat(ring, sh.fifo)[n]].item.price)
    {
      var i := FlatPrice(h, sh, ring, n);
    }
  }

  lemma SlotOfSplit(h: Heap, sh: Shape, side: Side, price: nat, front: seq<int>, back: seq<int>)
    requires Mapped(front, sh.fifo) && Mapped(back, sh.fifo) && Mapped(front + back, sh.fifo)
    requires InStore(h.orders, Flat(front, sh.fifo)) && InStore(h.orders, Flat(back, sh.fifo))
    requires forall n :: 0 <= n < |Flat(front, sh.fifo)| ==>
             !Better(side, price, h.orders[Flat(front, sh.fifo)[n]].item.price)
    requires forall n :: 0 <= n < |Flat(back, sh.fifo)| ==>
             Better(side, price, h.orders[Flat(back, sh.fifo)[n]].item.price)
    ensures InStore(h.orders, Flat(front + back, sh.fifo))
    ensures IsSlot(Items(h.orders, Flat(front + back, sh.fifo)), side, price, |Flat(front, sh.fifo)|)
  {
    FlatConcat(front, back, sh.fifo);
    SlotOfConcat(h.orders, side, price, Flat(front, sh.fifo), Flat(back, sh.fifo));
  }

  /** Levels as good as the price before `k` and worse from `k` on put its slot behind the first `k` levels. */
  lemma FlatSlot(h: Heap, sh: Shape, side: Side, price: nat, ring: seq<int>, k: nat)
    requires FifosOk(h, sh) && Mapped(ring, sh.fifo) && InStore(h.levels, ring) && k <= |ring|
    requires forall i :: 0 <= i < k ==> !Better(side, price, h.levels[ring[i]].item.price)
    requires forall i :: k <= i < |ring| ==> Better(side, price, h.levels[ring[i]].item.price)
    ensures Mapped(ring[..k], sh.fifo) && InStore(h.orders, Flat(ring, sh.fifo))
    ensures IsSlot(Items(h.orders, Flat(ring, sh.fifo)), side, price, |Flat(ring[..k], sh.fifo)|)
  {
    FlatFront(h, sh, side, price, ring[..k]);
    FlatBack(h, sh, side, price, ring[k..]);
    assert ring[..k] + ring[k..] == ring;
    SlotOfSplit(h, sh, side, price, ring[..k], ring[k..]);
  }

  lemma SlotOfConcat(store: seq<Node<Order>>, side: Side, price: nat, front: seq<int>, back: seq<int>)
    requires InStore(store, front) && InStore(store, back)
    requires forall n :: 0 <= n < |front| ==> !Better(side, price, store[front[n]].item.price)
    requires forall n :: 0 <= n < |back| ==> Better(side, price, store[back[n]].item.price)
    ensures InStore(store, front + back)
    ensures IsSlot(Items(store, front + back), side, price, |front|)
  {
  }

  // ---------- the set of linked order cells ----------

  ghost function LinkedCells(sh: Shape): (r: set<int>)
    ensures forall p :: p in r <==> !Unlinked(sh, p)
  {
    set l, p | l in sh.fifo && p in sh.fifo[l] :: p
  }

  /** The linked cells are exactly those of the two flattened sides. */
  lemma LinkedIsListed(h: Heap, sh: Shape, p: int)
    requires Inv(h, sh)
    ensures Mapped(sh.bidRing, sh.fifo) && Mapped(sh.askRing, sh.fifo)
    ensures p in LinkedCells(sh) <==> p in Ptrs(sh, BUY) || p in Ptrs(sh, SELL)
  {
    SidesMapped(h, sh);
    if p in LinkedCells(sh) {
      var l :| l in sh.fifo && p in sh.fifo[l];
      assert Covers(h, sh, l);
      var side := h.levels[l].item.side;
      var i :| 0 <= i < |RingOf(sh, side)| && RingOf(sh, side)[i] == l;
      FlatHas(RingOf(sh, side), sh.fifo, i, p);
    }
    if p in Ptrs(sh, BUY) {
      var i := FlatMember(sh.bidRing, sh.fifo, p);
    }
    if p in Ptrs(sh, SELL) {
      var i := FlatMember(sh.askRing, sh.fifo, p);
    }
  }

  lemma LinkedAfterPut(sh: Shape, l: int, f: seq<int>, p: int)
    requires Unlinked(sh, p)
    requires forall q :: q in f <==> q == p || (l in sh.fifo && q in sh.fifo[l])
    ensures LinkedCells(sh.(fifo := sh.fifo[l := f])) == LinkedCells(sh) + {p}
  {
    var sh' := sh.(fifo := sh.fifo[l := f]);
    forall q ensures q in LinkedCells(sh') <==> q in LinkedCells(sh) + {p} {
      if q in LinkedCells(sh) {
        var m :| m in sh.fifo && q in sh.fifo[m];
        assert m in sh'.fifo && q in sh'.fifo[m];
      }
      if q == p {
        assert q in sh'.fifo[l];
      }
      if q in LinkedCells(sh') {
        var m :| m in sh'.fifo && q in sh'.fifo[m];
      }
    }
  }

  /** Taking position `j` out of level `l`, or dropping `l` when that was all, unlinks that one cell. */
  lemma LinkedAfterTake(h: Heap, sh: Shape, l: int, j: nat, fifo': map<int, seq<int>>)
    requires FifosOk(h, sh) && TableOk(h, sh) && l in sh.fifo && j < |sh.fifo[l]|
    requires fifo' == (if |sh.fifo[l]| == 1 then sh.fifo - {l} else sh.fifo[l := RemoveAt(sh.fifo[l], j)])
    ensures LinkedCells(sh.(fifo := fifo')) == LinkedCells(sh) - {sh.fifo[l][j]}
  {
    var sh', f, p := sh.(fifo := fifo'), sh.fifo[l], sh.fifo[l][j];
    assert FifoOk(h, sh, l);
    RemoveAtDistinct(f, j);
    forall q ensures q in LinkedCells(sh') <==> q in LinkedCells(sh) - {p} {
      if q in LinkedCells(sh) && q != p {
        var m :| m in sh.fifo && q in sh.fifo[m];
        if m == l {
          var i :| 0 <= i < |f| && f[i] == q;
          RemoveAtIndices(f, j, if i > j then i - 1 else i);
        }
        assert m in fifo' && q in fifo'[m];
      }
      if q in LinkedCells(sh') {
        var m :| m in fifo' && q in fifo'[m];
        if m == l {
          var i :| 0 <= i < |fifo'[l]| && fifo'[l][i] == q;
          RemoveAtIndices(f, j, i);
        }
        if q == p {
          FifosDisjoint(h, sh, l, m, q);
        }
      }
    }
  }

  // ---------- the four updates, on the cells and in price-time order ----------

  /** A side of the ladder in price-time order gained `p` at position `n`; the other side is as it was. */
  ghost predicate Gained(sh: Shape, sh': Shape, side: Side, n: nat, p: int) {
    && Mapped(RingOf(sh, side), sh.fifo) && Mapped(RingOf(sh', side), sh'.fifo)
    && Mapped(RingOf(sh, Opposite(side)), sh.fifo) && Mapped(RingOf(sh', Opposite(side)), sh'.fifo)
    && n <= |Ptrs(sh, side)| && Ptrs(sh', side) == InsertAt(Ptrs(sh, side), n, p)
    && Ptrs(sh', Opposite(side)) == Ptrs(sh, Opposite(side))
  }

  ghost predicate Lost(sh: Shape, sh': Shape, side: Side, n: nat) {
    && Mapped(RingOf(sh, side), sh.fifo) && Mapped(RingOf(sh', side), sh'.fifo)
    && Mapped(RingOf(sh, Opposite(side)), sh.fifo) && Mapped(RingOf(sh', Opposite(side)), sh'.fifo)
    && n < |Ptrs(sh, side)| && Ptrs(sh', side) == RemoveAt(Ptrs(sh, side), n)
    && Ptrs(sh', Opposite(side)) == Ptrs(sh, Opposite(side))
  }

  ghost predicate AtSlot(h: Heap, sh: Shape, side: Side, price: nat, n: nat) {
    && Mapped(RingOf(sh, side), sh.fifo) && InStore(h.orders, Ptrs(sh, side))
    && IsSlot(Items(h.orders, Ptrs(sh, side)), side, price, n)
  }

  lemma PricesAround(levels: seq<Node<Level>>, ring: seq<int>, head: int, keys: set<int>, side: Side, i: nat)
    requires RingOk(levels, ring, head, keys, side) && i < |ring|
    ensures InStore(levels, ring)
    ensures forall a :: 0 <= a < i + 1 ==> !Better(side, levels[ring[i]].item.price, levels[ring[a]].item.price)
    ensures forall a :: i + 1 <= a < |ring| ==> Better(side, levels[ring[i]].item.price, levels[ring[a]].item.price)
  {
    RingFacts(levels, ring, head, keys, side);
    forall a | 0 <= a < |ring|
      ensures if a <= i then !Better(side, levels[ring[i]].item.price, levels[ring[a]].item.price)
              else Better(side, levels[ring[i]].item.price, levels[ring[a]].item.price)
    {
      assert a < i ==> InOrder(levels, ring, side, a, i);
      assert a > i ==> InOrder(levels, ring, side, i, a);
    }
  }

  /** A level sits on the ring of its own side, and only there. */
  lemma LevelPlace(h: Heap, sh: Shape, l: int) returns (i: nat)
    requires SidesOk(h, sh) && Covered(h, sh) && l in sh.fifo
    ensures 0 <= l < |h.levels| && h.levels[l].item.side != NO_SIDE
    ensures i < |RingOf(sh, h.levels[l].item.side)| && RingOf(sh, h.levels[l].item.side)[i] == l
    ensures l !in RingOf(sh, Opposite(h.levels[l].item.side))
  {
    assert Covers(h, sh, l);
    var ring := RingOf(sh, h.levels[l].item.side);
    i :| 0 <= i < |ring| && ring[i] == l;
    RingsDisjoint(h, sh, h.levels[l].item.side, l);
  }

  /** Putting another order sequence under one level of a side leaves the other side as it was. */
  lemma OtherSideKept(sh: Shape, fifo': map<int, seq<int>>, side: Side, l: int)
    requires Mapped(RingOf(sh, Opposite(side)), sh.fifo) && l !in RingOf(sh, Opposite(side))
    requires forall m :: m in sh.fifo && m != l ==> m in fifo' && fifo'[m] == sh.fifo[m]
    ensures Mapped(RingOf(sh, Opposite(side)), fifo')
    ensures Flat(RingOf(sh, Opposite(side)), fifo') == Flat(RingOf(sh, Opposite(side)), sh.fifo)
  {
    var other := RingOf(sh, Opposite(side));
    forall i | 0 <= i < |other| ensures other[i] in fifo' && fifo'[other[i]] == sh.fifo[other[i]] {
      var m := other[i];
      assert m in other && m != l && m in sh.fifo;
    }
    FlatSame(other, sh.fifo, fifo');
  }

  /** Joining level number `i` of a side puts an order behind everything in the first `i + 1` levels. */
  lemma AppendGains(sh: Shape, side: Side, i: nat, p: int) returns (n: nat)
    requires Mapped(sh.bidRing, sh.fifo) && Mapped(sh.askRing, sh.fifo) && Distinct(RingOf(sh, side))
    requires i < |RingOf(sh, side)| && RingOf(sh, side)[i] !in RingOf(sh, Opposite(side))
    ensures var l := RingOf(sh, side)[i];
            Gained(sh, sh.(fifo := sh.fifo[l := sh.fifo[l] + [p]]), side, n, p)
    ensures Mapped(RingOf(sh, side)[..i + 1], sh.fifo) && n == |Flat(RingOf(sh, side)[..i + 1], sh.fifo)|
  {
    var ring := RingOf(sh, side);
    var l := ring[i];
    FlatAppend(ring, sh.fifo, i, p);
    OtherSideKept(sh, sh.fifo[l := sh.fifo[l] + [p]], side, l);
    n := |Flat(ring[..i + 1], sh.fifo)|;
  }

  /** A free order cell and a free level cell can be written without touching the ladder. */
  lemma FreeCellsWritten(h: Heap, sh: Shape, p: int, l: int, level: Node<Level>)
    requires Inv(h, sh) && 0 <= p < |h.orders| && Unlinked(sh, p) && 0 <= l < |h.levels| && l !in sh.fifo
    ensures Inv(h.(orders := Alone(h.orders, p), levels := h.levels[l := level]), sh)
  {
    var h1 := h.(orders := Alone(h.orders, p), levels := h.levels[l := level]);
    FreeCellsRings(h, sh, h1, l);
    forall m | m in sh.fifo ensures FifoOk(h1, sh, m) {
      assert p !in sh.fifo[m] && FifoOk(h, sh, m);
      FifoKept(h, sh, h1, sh, m);
    }
  }

  lemma FreeCellsRings(h: Heap, sh: Shape, h1: Heap, l: int)
    requires SidesOk(h, sh) && TableOk(h, sh) && Covered(h, sh) && l !in sh.fifo
    requires |h1.levels| == |h.levels| && (forall m :: 0 <= m < |h.levels| && m != l ==> h1.levels[m] == h.levels[m])
    requires h1.bids == h.bids && h1.asks == h.asks && h1.table == h.table
    ensures SidesOk(h1, sh) && TableOk(h1, sh) && Covered(h1, sh)
  {
    SidesMapped(h, sh);
    assert SideOk(h, sh, BUY) && SideOk(h, sh, SELL);
    RingOkKept(h.levels, h1.levels, sh.bidRing, h.bids, sh.fifo.Keys, sh.fifo.Keys, BUY);
    RingOkKept(h.levels, h1.levels, sh.askRing, h.asks, sh.fifo.Keys, sh.fifo.Keys, SELL);
    forall m | m in sh.fifo ensures Filed(h1, m) && Covers(h1, sh, m) {
      assert Filed(h, m) && Covers(h, sh, m);
    }
    forall i | i in h.table ensures Points(h1, sh, i) {
      assert Points(h, sh, i);
    }
  }

  lemma PreparedLevel(h: Heap, sh: Shape, side: Side, price: nat, p: int, l: int)
    requires Inv(h, sh) && side != NO_SIDE && 0 <= p < |h.orders| && Unlinked(sh, p)
    requires 0 <= l < |h.levels| && l !in sh.fifo && PriceToIndex(price) !in h.table
    requires h.orders[p].item.side == side && h.orders[p].item.price == price
    ensures var h1 := h.(orders := Alone(h.orders, p), levels := h.levels[l := Node(Level(side, price, p), NIL, NIL)]);
            Inv(h1, sh) && NewLevelReady(h1, sh, l, p)
  {
    FreeCellsWritten(h, sh, p, l, Node(Level(side, price, p), NIL, NIL));
    AloneIsRing(h.orders, p);
  }

  /** A level at position `k` puts its one order behind everything in the first `k` levels. */
  lemma StartLevelGains(sh: Shape, side: Side, p: int, l: int, k: nat) returns (n: nat)
    requires Mapped(sh.bidRing, sh.fifo) && Mapped(sh.askRing, sh.fifo)
    requires side != NO_SIDE && l !in sh.fifo && k <= |RingOf(sh, side)|
    ensures Gained(sh, WithRing(sh, side, InsertAt(RingOf(sh, side), k, l)).(fifo := sh.fifo[l := [p]]), side, n, p)
    ensures Mapped(RingOf(sh, side)[..k], sh.fifo) && n == |Flat(RingOf(sh, side)[..k], sh.fifo)|
  {
    var ring := RingOf(sh, side);
    FlatLink(ring, sh.fifo, k, l, p);
    OtherSideKept(sh, sh.fifo[l := [p]], side, l);
    n := |Flat(ring[..k], sh.fifo)|;
  }

  lemma SameLinkedCells(sh: Shape, sh': Shape)
    requires sh'.fifo == sh.fifo
    ensures LinkedCells(sh') == LinkedCells(sh)
  {
    forall p ensures p in LinkedCells(sh') <==> p in LinkedCells(sh) {
      assert Unlinked(sh', p) <==> Unlinked(sh, p);
    }
  }

  lemma UnlinkLoses(sh: Shape, side: Side, i: nat, j: nat, n: nat)
    requires Mapped(sh.bidRing, sh.fifo) && Mapped(sh.askRing, sh.fifo) && Distinct(RingOf(sh, side))
    requires i < |RingOf(sh, side)| && RingOf(sh, side)[i] !in RingOf(sh, Opposite(side))
    requires j < |sh.fifo[RingOf(sh, side)[i]]|
    requires Mapped(RingOf(sh, side)[..i], sh.fifo) && n == |Flat(RingOf(sh, side)[..i], sh.fifo)| + j
    ensures var l := RingOf(sh, side)[i];
            Lost(sh, sh.(fifo := sh.fifo[l := RemoveAt(sh.fifo[l], j)]), side, n)
  {
    var l := RingOf(sh, side)[i];
    FlatUnlink(RingOf(sh, side), sh.fifo, i, j);
    OtherSideKept(sh, sh.fifo[l := RemoveAt(sh.fifo[l], j)], side, l);
  }

  lemma DropLoses(sh: Shape, side: Side, i: nat, n: nat)
    requires Mapped(sh.bidRing, sh.fifo) && Mapped(sh.askRing, sh.fifo) && Distinct(RingOf(sh, side))
    requires side != NO_SIDE && i < |RingOf(sh, side)| && RingOf(sh, side)[i] !in RingOf(sh, Opposite(side))
    requires |sh.fifo[RingOf(sh, side)[i]]| == 1
    requires Mapped(RingOf(sh, side)[..i], sh.fifo) && n == |Flat(RingOf(sh, side)[..i], sh.fifo)|
    ensures var l := RingOf(sh, side)[i];
            Lost(sh, WithRing(sh, side, RemoveAt(RingOf(sh, side), i)).(fifo := sh.fifo - {l}), side, n)
  {
    var l := RingOf(sh, side)[i];
    FlatDrop(RingOf(sh, side), sh.fifo, i);
    OtherSideKept(sh, sh.fifo - {l}, side, l);
  }

  // ---------- whole outcomes, as the ladder's methods use them ----------

  lemma WorseFromHere(cells: seq<Node<Level>>, ring: seq<int>, head: int, keys: set<int>, side: Side, price: nat,
                      k: nat)
    requires RingOk(cells, ring, head, keys, side) && k < |ring|
    requires Better(side, price, cells[ring[k]].item.price)
    ensures forall i :: k <= i < |ring| ==> Better(side, price, cells[ring[i]].item.price)
  {
    forall i | k < i < |ring| ensures Better(side, cells[ring[k]].item.price, cells[ring[i]].item.price) {
      assert InOrder(cells, ring, side, k, i);
    }
  }

  /** The whole effect of joining a level. */
  lemma JoinOutcome(h: Heap, sh: Shape, l: int, p: int) returns (n: nat)
    requires Inv(h, sh) && l in sh.fifo && 0 <= p < |h.orders| && Unlinked(sh, p)
    requires 0 <= l < |h.levels| && h.orders[p].item.price == h.levels[l].item.price
    requires h.orders[p].item.side == h.levels[l].item.side
    ensures sh.fifo[l] != [] && IsRing(h.orders, sh.fifo[l])
    ensures h.levels[l].item.head == sh.fifo[l][0] && p !in sh.fifo[l]
    ensures 0 <= h.levels[l].item.head < |h.orders| && 0 <= h.orders[h.levels[l].item.head].prev < |h.orders|
    ensures var side, h', sh' := h.levels[l].item.side, AppendOrder(h, l, p),
            sh.(fifo := sh.fifo[l := sh.fifo[l] + [p]]);
            && Inv(h', sh') && SameItems(h.orders, h'.orders)
            && Gained(sh, sh', side, n, p) && AtSlot(h, sh, side, h.levels[l].item.price, n)
            && LinkedCells(sh') == LinkedCells(sh) + {p}
  {
    assert FifoOk(h, sh, l);
    AppendOrderInv(h, sh, l, p);
    AppendFifo(h, sh, l, p);
    var i := LevelPlace(h, sh, l);
    SidesMapped(h, sh);
    n := AppendGains(sh, h.levels[l].item.side, i, p);
    JoinedAtSlot(h, sh, h.levels[l].item.side, i);
    LinkedAfterPut(sh, l, sh.fifo[l] + [p], p);
  }

  /** `h1` is `h` with order `p` linked to itself and level `l` prepared for it, to be linked at position `k`. */
  ghost predicate LevelStarted(h: Heap, h1: Heap, sh: Shape, side: Side, price: nat, l: int, p: int, k: nat) {
    && Inv(h1, sh) && NewLevelReady(h1, sh, l, p) && side != NO_SIDE
    && 0 <= p < |h.orders| && h1.orders == Alone(h.orders, p)
    && |h1.levels| == |h.levels| && (forall m :: 0 <= m < |h.levels| && m != l ==> h1.levels[m] == h.levels[m])
    && h1.levels[l].item.side == side && h1.levels[l].item.price == price
    && InStore(h1.levels, RingOf(sh, side)) && IsLevelSlot(h1, RingOf(sh, side), side, price, k)
  }

  /** What starting a level does in price-time order; `h1` is `h` with the two cells prepared. */
  lemma StartOutcome(h: Heap, h1: Heap, sh: Shape, side: Side, price: nat, l: int, p: int, k: nat) returns (n: nat)
    requires Inv(h, sh) && LevelStarted(h, h1, sh, side, price, l, p, k)
    ensures var sh' := WithRing(sh, side, InsertAt(RingOf(sh, side), k, l)).(fifo := sh.fifo[l := [p]]);
            && SameItems(h.orders, h1.orders)
            && Gained(sh, sh', side, n, p) && AtSlot(h, sh, side, price, n)
            && LinkedCells(sh') == LinkedCells(sh) + {p}
  {
    SidesMapped(h, sh);
    n := StartLevelGains(sh, side, p, l, k);
    StartedAtSlot(h, h1, sh, side, price, l, k);
    LinkedAfterPut(sh, l, [p], p);
    SameLinkedCells(sh.(fifo := sh.fifo[l := [p]]),
                    WithRing(sh, side, InsertAt(RingOf(sh, side), k, l)).(fifo := sh.fifo[l := [p]]));
    AloneIsRing(h.orders, p);
  }

  lemma JoinedAtSlot(h: Heap, sh: Shape, side: Side, i: nat)
    requires Inv(h, sh) && side != NO_SIDE && i < |RingOf(sh, side)| && 0 <= RingOf(sh, side)[i] < |h.levels|
    ensures Mapped(RingOf(sh, side)[..i + 1], sh.fifo)
    ensures AtSlot(h, sh, side, h.levels[RingOf(sh, side)[i]].item.price, |Flat(RingOf(sh, side)[..i + 1], sh.fifo)|)
  {
    var ring := RingOf(sh, side);
    SidesMapped(h, sh);
    assert SideOk(h, sh, side);
    PricesAround(h.levels, ring, HeadOf(h, side), sh.fifo.Keys, side, i);
    FlatSlot(h, sh, side, h.levels[ring[i]].item.price, ring, i + 1);
  }

  lemma NoLevelAt(h: Heap, sh: Shape, side: Side, price: nat, l: int)
    requires Inv(h, sh) && side != NO_SIDE && PriceToIndex(price) !in h.table && l !in sh.fifo
    ensures InStore(h.levels, RingOf(sh, side)) && l !in RingOf(sh, side)
    ensures forall i :: 0 <= i < |RingOf(sh, side)| ==> h.levels[RingOf(sh, side)[i]].item.price != price
  {
    SidesMapped(h, sh);
    forall i | 0 <= i < |RingOf(sh, side)| ensures h.levels[RingOf(sh, side)[i]].item.price != price {
      assert Filed(h, RingOf(sh, side)[i]);
    }
  }

  lemma StartedAtSlot(h: Heap, h1: Heap, sh: Shape, side: Side, price: nat, l: int, k: nat)
    requires Inv(h, sh) && side != NO_SIDE && l !in sh.fifo && |h1.levels| == |h.levels|
    requires forall m :: 0 <= m < |h.levels| && m != l ==> h1.levels[m] == h.levels[m]
    requires InStore(h1.levels, RingOf(sh, side)) && IsLevelSlot(h1, RingOf(sh, side), side, price, k)
    ensures Mapped(RingOf(sh, side)[..k], sh.fifo) && AtSlot(h, sh, side, price, |Flat(RingOf(sh, side)[..k], sh.fifo)|)
  {
    var ring := RingOf(sh, side);
    SidesMapped(h, sh);
    forall i | 0 <= i < |ring| ensures h1.levels[ring[i]] == h.levels[ring[i]] {
      assert ring[i] in sh.fifo;
    }
    FlatSlot(h, sh, side, price, ring, k);
  }

  lemma LevelOnRing(h: Heap, sh: Shape, side: Side, i: nat)
    requires SidesOk(h, sh) && side != NO_SIDE && i < |RingOf(sh, side)|
    ensures IsRing(h.levels, RingOf(sh, side))
    ensures 0 <= RingOf(sh, side)[i] < |h.levels| && h.levels[RingOf(sh, side)[i]].item.side == side
  {
    assert SideOk(h, sh, side);
    RingFacts(h.levels, RingOf(sh, side), HeadOf(h, side), sh.fifo.Keys, side);
  }

  /** Where the cell at position `n` of a side sits, and how the table and its links show it. */
  lemma CellPlace(h: Heap, sh: Shape, side: Side, n: nat, p: int) returns (i: nat, j: nat)
    requires Inv(h, sh) && side != NO_SIDE && Mapped(RingOf(sh, side), sh.fifo)
    requires n < |Ptrs(sh, side)| && Ptrs(sh, side)[n] == p
    ensures i < |RingOf(sh, side)| && RingOf(sh, side)[i] in sh.fifo && j < |sh.fifo[RingOf(sh, side)[i]]|
    ensures Mapped(RingOf(sh, side)[..i], sh.fifo) && n == |Flat(RingOf(sh, side)[..i], sh.fifo)| + j
    ensures sh.fifo[RingOf(sh, side)[i]][j] == p && 0 <= p < |h.orders|
    ensures PriceToIndex(h.orders[p].item.price) in h.table
    ensures h.table[PriceToIndex(h.orders[p].item.price)] == RingOf(sh, side)[i]
    ensures h.orders[p].next == p <==> |sh.fifo[RingOf(sh, side)[i]]| == 1
    ensures h.orders[p].prev == p <==> |sh.fifo[RingOf(sh, side)[i]]| == 1
  {
    i, j := FlatLocate(RingOf(sh, side), sh.fifo, n);
    var l := RingOf(sh, side)[i];
    assert FifoOk(h, sh, l) && Filed(h, l);
    SelfLinkedMeansAlone(h.orders, sh.fifo[l], j);
  }

  lemma UnlinkOutcome(h: Heap, sh: Shape, side: Side, i: nat, j: nat, n: nat)
    requires Inv(h, sh) && side != NO_SIDE && i < |RingOf(sh, side)| && RingOf(sh, side)[i] in sh.fifo
    requires j < |sh.fifo[RingOf(sh, side)[i]]| && 1 < |sh.fifo[RingOf(sh, side)[i]]|
    requires Mapped(RingOf(sh, side)[..i], sh.fifo) && n == |Flat(RingOf(sh, side)[..i], sh.fifo)| + j
    ensures var l := RingOf(sh, side)[i];
            var sh' := sh.(fifo := sh.fifo[l := RemoveAt(sh.fifo[l], j)]);
            Lost(sh, sh', side, n) && LinkedCells(sh') == LinkedCells(sh) - {sh.fifo[l][j]}
  {
    var l := RingOf(sh, side)[i];
    SidesMapped(h, sh);
    assert l in RingOf(sh, side);
    RingsDisjoint(h, sh, side, l);
    UnlinkLoses(sh, side, i, j, n);
    LinkedAfterTake(h, sh, l, j, sh.fifo[l := RemoveAt(sh.fifo[l], j)]);
  }

  lemma DropOutcome(h: Heap, sh: Shape, side: Side, i: nat, n: nat)
    requires Inv(h, sh) && side != NO_SIDE && i < |RingOf(sh, side)| && RingOf(sh, side)[i] in sh.fifo
    requires |sh.fifo[RingOf(sh, side)[i]]| == 1
    requires Mapped(RingOf(sh, side)[..i], sh.fifo) && n == |Flat(RingOf(sh, side)[..i], sh.fifo)|
    ensures var l := RingOf(sh, side)[i];
            var sh' := WithRing(sh, side, RemoveAt(RingOf(sh, side), i)).(fifo := sh.fifo - {l});
            Lost(sh, sh', side, n) && LinkedCells(sh') == LinkedCells(sh) - {sh.fifo[l][0]}
  {
    var l := RingOf(sh, side)[i];
    SidesMapped(h, sh);
    assert l in RingOf(sh, side);
    RingsDisjoint(h, sh, side, l);
    DropLoses(sh, side, i, n);
    LinkedAfterTake(h, sh, l, 0, sh.fifo - {l});
    SameLinkedCells(sh.(fifo := sh.fifo - {l}),
                    WithRing(sh, side, RemoveAt(RingOf(sh, side), i)).(fifo := sh.fifo - {l}));
  }

  // ---------- from cells to orders ----------

  lemma HeadIsBest(h: Heap, sh: Shape, side: Side)
    requires Inv(h, sh) && side != NO_SIDE
    ensures Mapped(RingOf(sh, side), sh.fifo)
    ensures HeadOf(h, side) == NIL <==> Ptrs(sh, side) == []
    ensures HeadOf(h, side) != NIL ==>
      0 <= HeadOf(h, side) < |h.levels| && Ptrs(sh, side) != []
          && h.levels[HeadOf(h, side)].item.head == Ptrs(sh, side)[0]
  {
    SidesMapped(h, sh);
    assert SideOk(h, sh, side);
    var ring := RingOf(sh, side);
    if ring != [] {
      LevelOnRing(h, sh, side, 0);
      assert FifoOk(h, sh, ring[0]);
    }
  }

  /** Writing a free order cell changes nothing the ladder reads. */
  lemma AllocatedCell(h: Heap, sh: Shape, p: int, node: Node<Order>)
    requires Inv(h, sh) && 0 <= p < |h.orders| && Unlinked(sh, p)
    ensures Inv(h.(orders := h.orders[p := node]), sh)
  {
    var h1 := h.(orders := h.orders[p := node]);
    LevelsKept(h, sh, h1, sh);
    forall m | m in sh.fifo ensures FifoOk(h1, sh, m) {
      assert FifoOk(h, sh, m) && p !in sh.fifo[m];
      FifoKept(h, sh, h1, sh, m);
    }
  }

  /** No two positions of a side hold the same cell, and no cell is on both sides. */
  lemma PtrsDistinct(h: Heap, sh: Shape, side: Side)
    requires Inv(h, sh) && side != NO_SIDE
    ensures Mapped(RingOf(sh, side), sh.fifo) && Distinct(Ptrs(sh, side))
  {
    SidesMapped(h, sh);
    FlatDistinct(h, sh, RingOf(sh, side));
  }

  lemma {:induction false} FlatDistinct(h: Heap, sh: Shape, ring: seq<int>)
    requires FifosOk(h, sh) && TableOk(h, sh) && Mapped(ring, sh.fifo) && Distinct(ring)
    ensures Distinct(Flat(ring, sh.fifo))
  {
    if ring != [] {
      var f, rest := sh.fifo[ring[0]], Flat(ring[1..], sh.fifo);
      FlatDistinct(h, sh, ring[1..]);
      assert FifoOk(h, sh, ring[0]);
      forall i, j | 0 <= i < |f| && 0 <= j < |rest| ensures f[i] != rest[j] {
        var k := FlatMember(ring[1..], sh.fifo, rest[j]);
        if f[i] == rest[j] {
          FifosDisjoint(h, sh, ring[0], ring[1..][k], f[i]);
        }
      }
    }
  }

  /** These cells and these orders are the side, in price-time order. */
  ghost predicate ShowsSide(h: Heap, sh: Shape, side: Side, cells: seq<int>, book: seq<Order>) {
    && Mapped(RingOf(sh, side), sh.fifo) && cells == Ptrs(sh, side)
    && InStore(h.orders, cells) && book == Items(h.orders, cells)
  }

  lemma ItemsInserted(store: seq<Node<Order>>, store': seq<Node<Order>>, ps: seq<int>, n: nat, p: int, o: Order)
    requires InStore(store, ps) && |store'| == |store| && n <= |ps| && 0 <= p < |store|
    requires forall i :: 0 <= i < |ps| ==> store'[ps[i]].item == store[ps[i]].item
    requires store'[p].item == o
    ensures InStore(store', InsertAt(ps, n, p))
    ensures Items(store', InsertAt(ps, n, p)) == InsertAt(Items(store, ps), n, o)
  {
  }

  lemma PlacedItems(h: Heap, h': Heap, sh: Shape, sh': Shape, o: Order, n: nat, p: int, cells: seq<int>,
                    book: seq<Order>)
    requires Inv(h, sh) && 0 <= p < |h.orders| && Unlinked(sh, p) && o.side != NO_SIDE
    requires SameItems(h.orders[p := Node(o, NIL, NIL)], h'.orders) && Gained(sh, sh', o.side, n, p)
    requires ShowsSide(h, sh, o.side, cells, book)
    ensures n <= |cells| && n <= |book| && ShowsSide(h', sh', o.side, InsertAt(cells, n, p), InsertAt(book, n, o))
  {
    NotListed(h, sh, o.side, p);
    ItemsInserted(h.orders, h'.orders, cells, n, p, o);
  }

  lemma PlacedWhereInserted(h: Heap, sh: Shape, o: Order, n: nat, p: int, cells: seq<int>, book: seq<Order>)
    requires Inv(h, sh) && 0 <= p < |h.orders| && Unlinked(sh, p) && o.side != NO_SIDE
    requires AtSlot(h.(orders := h.orders[p := Node(o, NIL, NIL)]), sh, o.side, o.price, n)
    requires ShowsSide(h, sh, o.side, cells, book)
    ensures n <= |book| && InsertAt(book, n, o) == Insert(book, o)
  {
    NotListed(h, sh, o.side, p);
    assert Items(h.orders[p := Node(o, NIL, NIL)], cells) == book;
    InsertAtSlot(book, o, n);
  }

  /** The side nothing was written on shows the same cells and orders. */
  lemma OtherSideShown(h: Heap, h': Heap, sh: Shape, sh': Shape, side: Side, cells: seq<int>, book: seq<Order>,
                       touched: set<int>)
    requires ShowsSide(h, sh, side, cells, book)
    requires Mapped(RingOf(sh', side), sh'.fifo) && Ptrs(sh', side) == Ptrs(sh, side) && |h'.orders| == |h.orders|
    requires forall i :: 0 <= i < |cells| ==> cells[i] !in touched
    requires forall i :: 0 <= i < |h.orders| && i !in touched ==> h'.orders[i].item == h.orders[i].item
    ensures ShowsSide(h', sh', side, cells, book)
  {
  }

  lemma PlacedOther(h: Heap, h': Heap, sh: Shape, sh': Shape, o: Order, n: nat, p: int, cells: seq<int>,
                    book: seq<Order>)
    requires Inv(h, sh) && 0 <= p < |h.orders| && Unlinked(sh, p) && o.side != NO_SIDE
    requires SameItems(h.orders[p := Node(o, NIL, NIL)], h'.orders) && Gained(sh, sh', o.side, n, p)
    requires ShowsSide(h, sh, Opposite(o.side), cells, book)
    ensures ShowsSide(h', sh', Opposite(o.side), cells, book)
  {
    NotListed(h, sh, Opposite(o.side), p);
    OtherSideShown(h, h', sh, sh', Opposite(o.side), cells, book, {p});
  }

  lemma NotListed(h: Heap, sh: Shape, side: Side, p: int)
    requires Inv(h, sh) && side != NO_SIDE && Unlinked(sh, p)
    ensures Mapped(RingOf(sh, side), sh.fifo)
    ensures forall i :: 0 <= i < |Ptrs(sh, side)| ==> Ptrs(sh, side)[i] != p
  {
    SidesMapped(h, sh);
    forall i | 0 <= i < |Ptrs(sh, side)| ensures Ptrs(sh, side)[i] != p {
      var j := FlatMember(RingOf(sh, side), sh.fifo, Ptrs(sh, side)[i]);
    }
  }

  lemma RemovedItems(h: Heap, h': Heap, sh: Shape, sh': Shape, side: Side, n: nat, cells: seq<int>, book: seq<Order>)
    requires Inv(h', sh') && side != NO_SIDE && SameItems(h.orders, h'.orders) && Lost(sh, sh', side, n)
    requires ShowsSide(h, sh, side, cells, book)
    ensures n < |cells| && n < |book| && ShowsSide(h', sh', side, RemoveAt(cells, n), RemoveAt(book, n))
  {
    PtrsInStore(h', sh', side);
  }

  lemma RequantifiedItems(h: Heap, sh: Shape, side: Side, n: nat, qty: nat, cells: seq<int>, book: seq<Order>)
    requires Inv(h, sh) && side != NO_SIDE && ShowsSide(h, sh, side, cells, book) && n < |cells|
    ensures 0 <= cells[n] < |h.orders|
    ensures ShowsSide(SetQty(h, cells[n], qty), sh, side, cells, book[n := book[n].(qty := qty)])
  {
    PtrsDistinct(h, sh, side);
  }

  /** A cell listed on one side is not listed on the other. */
  lemma SidesShareNothing(h: Heap, sh: Shape, side: Side, cells: seq<int>, n: nat)
    requires Inv(h, sh) && side != NO_SIDE && Mapped(RingOf(sh, side), sh.fifo)
    requires Mapped(RingOf(sh, Opposite(side)), sh.fifo)
    requires cells == Ptrs(sh, Opposite(side)) && n < |Ptrs(sh, side)|
    ensures forall i :: 0 <= i < |cells| ==> cells[i] != Ptrs(sh, side)[n]
  {
    PtrsInStore(h, sh, side);
    PtrsInStore(h, sh, Opposite(side));
    assert h.orders[Ptrs(sh, side)[n]].item.side == side;
    forall i | 0 <= i < |cells| ensures cells[i] != Ptrs(sh, side)[n] {
      assert h.orders[cells[i]].item.side == Opposite(side);
    }
  }
}

/**
 Circular doubly linked rings over the cells of a pool. A pointer is a cell index, NIL is
 the null pointer; `ring` lists the cells in `next` order starting from the head.
 */
module Rings {
  import opened Sequences

  const NIL: int := -1

  datatype Node<T> = Node(item: T, next: int, prev: int)

  function After(i: nat, n: nat): nat {
    if i + 1 == n then 0 else i + 1
  }

  function Behind(i: nat, n: nat): int {
    if i == 0 then n - 1 else i - 1
  }

  ghost predicate Distinct(ring: seq<int>) {
    forall i, j :: 0 <= i < j < |ring| ==> ring[i] != ring[j]
  }

  ghost predicate InStore<T>(store: seq<Node<T>>, ring: seq<int>) {
    forall i :: 0 <= i < |ring| ==> 0 <= ring[i] < |store|
  }

  /** The cell at position `i` points to its two neighbours, wrapping at the ends. */
  ghost predicate Linked<T>(store: seq<Node<T>>, ring: seq<int>, i: nat) {
    && i < |ring| && 0 <= ring[i] < |store|
    && store[ring[i]].next == ring[After(i, |ring|)]
    && store[ring[i]].prev == ring[Behind(i, |ring|)]
  }

  /** `next` and `prev` close the ring in both directions. */
  ghost predicate IsRing<T>(store: seq<Node<T>>, ring: seq<int>) {
    && InStore(store, ring)
    && Distinct(ring)
    && (forall i :: 0 <= i < |ring| ==> Linked(store, ring, i))
  }

  function SetNext<T>(store: seq<Node<T>>, p: int, q: int): seq<Node<T>>
    requires 0 <= p < |store|
  {
    store[p := store[p].(next := q)]
  }

  function SetPrev<T>(store: seq<Node<T>>, p: int, q: int): seq<Node<T>>
    requires 0 <= p < |store|
  {
    store[p := store[p].(prev := q)]
  }

  function Alone<T>(store: seq<Node<T>>, p: int): seq<Node<T>>
    requires 0 <= p < |store|
  {
    SetPrev(SetNext(store, p, p), p, p)
  }

  /** Links `p` in just before `c`. */
  function Splice<T>(store: seq<Node<T>>, p: int, c: int): seq<Node<T>>
    requires 0 <= p < |store| && 0 <= c < |store| && 0 <= store[c].prev < |store|
  {
    var t := store[c].prev;
    SetPrev(SetPrev(SetNext(SetNext(store, t, p), p, c), p, t), c, p)
  }

  /** Takes `p` out and clears its links. */
  function Unlink<T>(store: seq<Node<T>>, p: int): seq<Node<T>>
    requires 0 <= p < |store| && 0 <= store[p].next < |store| && 0 <= store[p].prev < |store|
  {
    var q, t := store[p].next, store[p].prev;
    SetPrev(SetNext(SetPrev(SetNext(store, t, q), q, t), p, NIL), p, NIL)
  }

  ghost predicate SameItems<T>(s: seq<Node<T>>, s': seq<Node<T>>) {
    |s'| == |s| && forall i :: 0 <= i < |s| ==> s'[i].item == s[i].item
  }

  /** Nothing but the links of these cells differs. */
  ghost predicate SameOutside<T>(s: seq<Node<T>>, s': seq<Node<T>>, touched: set<int>) {
    |s'| == |s| && forall i :: 0 <= i < |s| && i !in touched ==> s'[i] == s[i]
  }

  lemma RingUntouched<T>(s: seq<Node<T>>, s': seq<Node<T>>, ring: seq<int>)
    requires IsRing(s, ring) && |s'| == |s|
    requires forall i :: 0 <= i < |ring| ==> s'[ring[i]].next == s[ring[i]].next && s'[ring[i]].prev == s[ring[i]].prev
    ensures IsRing(s', ring)
  {
    forall i | 0 <= i < |ring| ensures Linked(s', ring, i) {
      assert Linked(s, ring, i);
    }
  }

  lemma AloneIsRing<T>(store: seq<Node<T>>, p: int)
    requires 0 <= p < |store|
    ensures IsRing(Alone(store, p), [p])
    ensures SameItems(store, Alone(store, p)) && SameOutside(store, Alone(store, p), {p})
  {
  }

  lemma InsertAtDistinct(ring: seq<int>, k: nat, p: int)
    requires Distinct(ring) && p !in ring && k <= |ring|
    ensures Distinct(InsertAt(ring, k, p))
  {
    var r := InsertAt(ring, k, p);
    forall i, j | 0 <= i < j < |r| ensures r[i] != r[j] {
      assert i != k ==> r[i] == ring[if i > k then i - 1 else i];
      assert j != k ==> r[j] == ring[if j > k then j - 1 else j];
    }
  }

  /** What splicing changes: four links, and nothing else. */
  lemma SpliceLinks<T>(store: seq<Node<T>>, p: int, c: int)
    requires 0 <= p < |store| && 0 <= c < |store| && 0 <= store[c].prev < |store| && p != c && p != store[c].prev
    ensures var s', t := Splice(store, p, c), store[c].prev;
            && SameItems(store, s') && SameOutside(store, s', {p, c, t})
            && s'[p].next == c && s'[p].prev == t && s'[t].next == p && s'[c].prev == p
            && (t != c ==> s'[t].prev == store[t].prev && s'[c].next == store[c].next)
  {
  }

  lemma SpliceAt<T>(store: seq<Node<T>>, ring: seq<int>, k: nat, p: int, j: nat)
    requires IsRing(store, ring) && j < |ring| && k <= |ring|
    requires 0 <= p < |store| && p !in ring
    ensures var ci := if k == |ring| then 0 else k;
            var ti := Behind(ci, |ring|);
            store[ring[ci]].prev == ring[ti]
            && 0 <= ring[ti] < |store|
            && var s' := Splice(store, p, ring[ci]);
            && s'[ring[j]].next == (if j == ti then p else ring[After(j, |ring|)])
            && s'[ring[j]].prev == (if j == ci then p else ring[Behind(j, |ring|)])
  {
    var ci := if k == |ring| then 0 else k;
    var ti := Behind(ci, |ring|);
    assert Linked(store, ring, ci) && Linked(store, ring, j);
    SpliceLinks(store, p, ring[ci]);
    assert j != ci ==> ring[j] != ring[ci];
    assert j != ti ==> ring[j] != ring[ti];
  }

  lemma InsertAtIndices(ring: seq<int>, k: nat, p: int, i: nat)
    requires k <= |ring| && i <= |ring|
    ensures InsertAt(ring, k, p)[i] == if i == k then p else ring[if i > k then i - 1 else i]
  {
  }

  /** The links of the cell at position `j` once `p` is in at position `k`. */
  ghost predicate LinkedAroundNew<T>(s': seq<Node<T>>, ring: seq<int>, k: nat, p: int, j: nat)
    requires k <= |ring| && InStore(s', ring) && j < |ring|
  {
    var ci := if k == |ring| then 0 else k;
    && s'[ring[j]].next == (if j == Behind(ci, |ring|) then p else ring[After(j, |ring|)])
    && s'[ring[j]].prev == (if j == ci then p else ring[Behind(j, |ring|)])
  }

  /** `s'` has `p` linked in at position `k` and every other link as it was. */
  ghost predicate SplicedIn<T>(s': seq<Node<T>>, ring: seq<int>, k: nat, p: int)
    requires k <= |ring| && ring != []
  {
    var ci := if k == |ring| then 0 else k;
    && InStore(s', ring) && 0 <= p < |s'|
    && s'[p].next == ring[ci] && s'[p].prev == ring[Behind(ci, |ring|)]
    && (forall j :: 0 <= j < |ring| ==> LinkedAroundNew(s', ring, k, p, j))
  }

  lemma SplicedInLinked<T>(s': seq<Node<T>>, ring: seq<int>, k: nat, p: int, i: nat)
    requires k <= |ring| && ring != [] && SplicedIn(s', ring, k, p) && i <= |ring|
    ensures Linked(s', InsertAt(ring, k, p), i)
  {
    var n := |ring| + 1;
    InsertAtIndices(ring, k, p, i);
    InsertAtIndices(ring, k, p, After(i, n));
    InsertAtIndices(ring, k, p, Behind(i, n));
    if i != k {
      assert LinkedAroundNew(s', ring, k, p, if i > k then i - 1 else i);
    }
  }

  /** Splicing `p` before position `k` (before the head when `k` is the length) inserts it there. */
  lemma SpliceIsInsert<T>(store: seq<Node<T>>, ring: seq<int>, k: nat, p: int)
    requires IsRing(store, ring) && ring != [] && k <= |ring|
    requires 0 <= p < |store| && p !in ring
    ensures var c := ring[if k == |ring| then 0 else k];
            0 <= store[c].prev < |store| && IsRing(Splice(store, p, c), InsertAt(ring, k, p))
  {
    var ci := if k == |ring| then 0 else k;
    assert Linked(store, ring, ci);
    SpliceLinks(store, p, ring[ci]);
    var s' := Splice(store, p, ring[ci]);
    assert SplicedIn(s', ring, k, p) by {
      forall j | 0 <= j < |ring| ensures LinkedAroundNew(s', ring, k, p, j) {
        SpliceAt(store, ring, k, p, j);
      }
    }
    SplicedInIsRing(s', ring, k, p);
  }

  lemma SplicedInIsRing<T>(s': seq<Node<T>>, ring: seq<int>, k: nat, p: int)
    requires k <= |ring| && ring != [] && SplicedIn(s', ring, k, p) && Distinct(ring) && p !in ring
    ensures IsRing(s', InsertAt(ring, k, p))
  {
    InsertAtDistinct(ring, k, p);
    forall i | 0 <= i <= |ring| ensures Linked(s', InsertAt(ring, k, p), i) {
      SplicedInLinked(s', ring, k, p, i);
    }
  }

  lemma UnlinkLinks<T>(store: seq<Node<T>>, p: int)
    requires 0 <= p < |store| && 0 <= store[p].next < |store| && 0 <= store[p].prev < |store|
    requires store[p].next != p && store[p].prev != p
    ensures var s', q, t := Unlink(store, p), store[p].next, store[p].prev;
            && SameItems(store, s') && SameOutside(store, s', {p, q, t})
            && s'[t].next == q && s'[q].prev == t
            && (t != q ==> s'[t].prev == store[t].prev && s'[q].next == store[q].next)
  {
  }

  lemma UnlinkAt<T>(store: seq<Node<T>>, ring: seq<int>, k: nat, j: nat)
    requires IsRing(store, ring) && |ring| > 1 && k < |ring| && j < |ring| && j != k
    ensures store[ring[k]].next == ring[After(k, |ring|)] && store[ring[k]].prev == ring[Behind(k, |ring|)]
    ensures var s' := Unlink(store, ring[k]);
            && s'[ring[j]].next == ring[if j == Behind(k, |ring|) then After(k, |ring|) else After(j, |ring|)]
            && s'[ring[j]].prev == ring[if j == After(k, |ring|) then Behind(k, |ring|) else Behind(j, |ring|)]
  {
    var qi, ti := After(k, |ring|), Behind(k, |ring|);
    assert Linked(store, ring, k) && Linked(store, ring, j);
    assert ring[k] != ring[qi] && ring[k] != ring[ti];
    UnlinkLinks(store, ring[k]);
    assert ring[j] != ring[k];
    assert j != qi ==> ring[j] != ring[qi];
    assert j != ti ==> ring[j] != ring[ti];
  }

  lemma RemoveAtDistinct(ring: seq<int>, k: nat)
    requires Distinct(ring) && k < |ring|
    ensures Distinct(RemoveAt(ring, k)) && ring[k] !in RemoveAt(ring, k)
  {
    var r := RemoveAt(ring, k);
    assert forall i :: 0 <= i < |r| ==> r[i] == ring[if i >= k then i + 1 else i];
  }

  /** The links of the cell at position `j` once position `k` is out. */
  ghost predicate LinkedAroundGap<T>(s': seq<Node<T>>, ring: seq<int>, k: nat, j: nat)
    requires k < |ring| && InStore(s', ring) && j < |ring|
  {
    && s'[ring[j]].next == ring[if j == Behind(k, |ring|) then After(k, |ring|) else After(j, |ring|)]
    && s'[ring[j]].prev == ring[if j == After(k, |ring|) then Behind(k, |ring|) else Behind(j, |ring|)]
  }

  /** `s'` links the neighbours of position `k` to each other and leaves every other link as it was. */
  ghost predicate TakenOut<T>(s': seq<Node<T>>, ring: seq<int>, k: nat)
    requires k < |ring|
  {
    InStore(s', ring) && forall j :: 0 <= j < |ring| && j != k ==> LinkedAroundGap(s', ring, k, j)
  }

  lemma RemoveAtIndices(ring: seq<int>, k: nat, i: nat)
    requires k < |ring| && i < |ring| - 1
    ensures RemoveAt(ring, k)[i] == ring[if i >= k then i + 1 else i]
  {
  }

  lemma TakenOutLinked<T>(s': seq<Node<T>>, ring: seq<int>, k: nat, i: nat)
    requires k < |ring| && |ring| > 1 && TakenOut(s', ring, k) && i < |ring| - 1
    ensures Linked(s', RemoveAt(ring, k), i)
  {
    var n := |ring| - 1;
    RemoveAtIndices(ring, k, i);
    RemoveAtIndices(ring, k, After(i, n));
    RemoveAtIndices(ring, k, Behind(i, n));
    assert LinkedAroundGap(s', ring, k, if i >= k then i + 1 else i);
  }

  lemma TakenOutIsRing<T>(s': seq<Node<T>>, ring: seq<int>, k: nat)
    requires k < |ring| && |ring| > 1 && TakenOut(s', ring, k) && Distinct(ring)
    ensures IsRing(s', RemoveAt(ring, k))
  {
    RemoveAtDistinct(ring, k);
    forall i | 0 <= i < |ring| - 1 ensures Linked(s', RemoveAt(ring, k), i) {
      TakenOutLinked(s', ring, k, i);
    }
  }

  /** Unlinking a cell of a longer ring leaves the ring without it. */
  lemma UnlinkIsRemove<T>(store: seq<Node<T>>, ring: seq<int>, k: nat)
    requires IsRing(store, ring) && |ring| > 1 && k < |ring|
    ensures 0 <= store[ring[k]].next < |store| && 0 <= store[ring[k]].prev < |store|
    ensures IsRing(Unlink(store, ring[k]), RemoveAt(ring, k))
  {
    assert Linked(store, ring, k);
    var s' := Unlink(store, ring[k]);
    assert TakenOut(s', ring, k) by {
      forall j | 0 <= j < |ring| && j != k ensures LinkedAroundGap(s', ring, k, j) {
        UnlinkAt(store, ring, k, j);
      }
    }
    TakenOutIsRing(s', ring, k);
  }

  /** Only a ring of one links its cell to itself. */
  lemma SelfLinkedMeansAlone<T>(store: seq<Node<T>>, ring: seq<int>, k: nat)
    requires IsRing(store, ring) && k < |ring|
    ensures store[ring[k]].next == ring[k] <==> |ring| == 1
    ensures store[ring[k]].prev == ring[k] <==> |ring| == 1
  {
    assert Linked(store, ring, k);
  }

  // ---------- walking ----------

  /** The cell reached from `p` by following `next` `steps` times. */
  function Walk<T>(store: seq<Node<T>>, p: int, steps: nat): int {
    if steps == 0 then p
    else
      var q := Walk(store, p, steps - 1);
      if 0 <= q < |store| then store[q].next else NIL
  }

  /** Position number `i`, counted round and round a ring of `n`. */
  function Around(i: nat, n: nat): (k: nat)
    requires n > 0
    ensures k < n && (i < n ==> k == i)
  {
    if i < n then i else Around(i - n, n)
  }

  lemma {:induction false} AroundNext(i: nat, n: nat)
    requires n > 0
    ensures Around(i + 1, n) == After(Around(i, n), n)
  {
    if i >= n {
      AroundNext(i - n, n);
    }
  }

  /** From any cell of a ring, `next` goes around it in order, for as many turns as one likes. */
  lemma {:induction false} WalkFollowsRing<T>(store: seq<Node<T>>, ring: seq<int>, i: nat, steps: nat)
    requires IsRing(store, ring) && i < |ring|
    ensures Walk(store, ring[i], steps) == ring[Around(i + steps, |ring|)]
  {
    if steps > 0 {
      WalkFollowsRing(store, ring, i, steps - 1);
      assert Linked(store, ring, Around(i + steps - 1, |ring|));
      AroundNext(i + steps - 1, |ring|);
    }
  }
}

/** The preallocated object pool under the books: cells are reused, never moved. */
module MemPools {
  ghost function UpTo(n: nat): (s: set<int>)
    ensures forall i :: i in s <==> 0 <= i < n
  {
    if n == 0 then {} else UpTo(n - 1) + {n - 1}
  }

  lemma {:induction false} UpToSize(n: nat)
    ensures |UpTo(n)| == n
  {
    if n > 0 {
      UpToSize(n - 1);
    }
  }

  /** With two cells to spare there is a free cell besides any given one. */
  lemma AnotherCellIsFree(live: set<int>, n: nat, next: nat) returns (i: nat)
    requires live <= UpTo(n) && |live| + 1 < n && next < n
    ensures i < n && i != next && i !in live
  {
    UpToSize(n);
    var taken := live + {next};
    assert taken != UpTo(n);
    i :| i in UpTo(n) && i !in taken;
  }

  /** A block of the pool is an object and its free flag; the two are kept in parallel arrays. */
  class MemPool<T(0)> {
    const objects: array<T>
    const isFree: array<bool>
    var nextFree: nat

    ghost predicate Distinct() {
      objects.Length == isFree.Length && objects as object != isFree as object
    }

    ghost predicate Valid()
      reads this, isFree
    {
      && Distinct()
      && nextFree < isFree.Length
      && isFree[nextFree]
    }

    ghost function Live(): (s: set<int>)
      reads isFree
      ensures forall i :: i in s <==> 0 <= i < isFree.Length && !isFree[i]
    {
      set i | 0 <= i < isFree.Length && !isFree[i]
    }

    /** The objects in cell order. */
    ghost function Store(): seq<T>
      reads objects
    {
      objects[..]
    }

    constructor (numCells: nat)
      requires numCells > 0
      ensures Valid() && Live() == {} && objects.Length == numCells
      ensures fresh(objects) && fresh(isFree) && fresh(this)
    {
      objects := new T[numCells];
      isFree := new bool[numCells](_ => true);
      nextFree := 0;
    }

    /** Scans for the lowest free cell; the scan aborts the program when there is none. */
    method UpdateNextFree()
      requires Distinct()
      requires exists i :: 0 <= i < isFree.Length && isFree[i]
      modifies this`nextFree
      ensures Valid()
      ensures forall i :: 0 <= i < nextFree ==> !isFree[i]
    {
      var i := 0;
      while i < isFree.Length && !isFree[i]
        invariant 0 <= i <= isFree.Length
        invariant forall j :: 0 <= j < i ==> !isFree[j]
      {
        i := i + 1;
      }
      nextFree := i;
    }

    /** Hands out a cell that was free; one cell always stays in reserve. */
    method Allocate(value: T) returns (p: nat)
      requires Valid() && |Live()| + 1 < isFree.Length
      modifies this`nextFree, objects, isFree
      ensures Valid()
      ensures p !in old(Live()) && 0 <= p < objects.Length
      ensures Live() == old(Live()) + {p}
      ensures Store() == old(Store())[p := value]
      ensures forall i :: 0 <= i < nextFree ==> !isFree[i]
    {
      ghost var spare := AnotherCellIsFree(Live(), isFree.Length, nextFree);
      p := nextFree;
      objects[p] := value;
      isFree[p] := false;
      assert isFree[spare];
      UpdateNextFree();
    }

    method Deallocate(p: nat)
      requires Valid() && p in Live()
      modifies isFree
      ensures Valid() && Live() == old(Live()) - {p}
    {
      isFree[p] := true;
    }
  }
}

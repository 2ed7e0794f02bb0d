/**
 The single-producer single-consumer ring: two indices, a counter and the cells, each touched in
 its own atomic step, under every interleaving of the two threads.
 */
module SpscQueues {
  /** Where each thread is inside its operation. */
  datatype Producer = Idle | Filled | Advanced
  datatype Reader = Waiting | CountSeen | Holding | Released | Checked

  /** The consumer saw `value` in the cell of element number `index`. */
  datatype Observation<T> = Observation(index: nat, value: T)

  /**
   The shared memory, the two threads' positions, and the history: every value published, every value
   released, what each read saw, and whether the consumer's assertion ever failed. `held` is the
   pointer the consumer got, `last` the one it released.
   */
  datatype Ring<T> = Ring(
    store: seq<T>, nextRead: nat, nextWrite: nat, numElements: int,
    producer: Producer, reader: Reader, held: nat, last: nat,
    written: seq<T>, taken: seq<T>, seen: seq<Observation<T>>, failed: bool)
  {
    function Unread(): int {
      |written| - |taken|
    }
  }

  datatype Step<T> =
    | WriteCell(value: T) | AdvanceWrite | CountUp
    | CheckCount | CheckIndex | Abandon | ReadCell | AdvanceRead | AssertCount | CountDown | LateRead

  function Empty<T>(n: nat, blank: T): Ring<T>
    requires n > 0
  {
    Ring(seq(n, _ => blank), 0, 0, 0, Idle, Waiting, 0, 0, [], [], [], false)
  }

  ghost predicate InBounds<T>(s: Ring<T>) {
    s.nextRead < |s.store| && s.nextWrite < |s.store| && s.held < |s.store| && s.last < |s.store|
  }

  /** Whether the thread concerned is at this step of its operation. */
  predicate AtStep<T>(s: Ring<T>, step: Step<T>) {
    match step
    case WriteCell(_) => s.producer != Advanced
    case AdvanceWrite => s.producer == Filled
    case CountUp => s.producer == Advanced
    case CheckCount => s.reader == Waiting
    case CheckIndex => s.reader == CountSeen
    case Abandon => s.reader == Holding
    case ReadCell => s.reader == Holding
    case AdvanceRead => s.reader == Holding
    case AssertCount => s.reader == Released
    case CountDown => s.reader == Checked
    case LateRead => s.taken != []
  }

  function Next<T>(s: Ring<T>, step: Step<T>): Ring<T>
    requires InBounds(s)
  {
    match step
    case WriteCell(v) => s.(store := s.store[s.nextWrite := v], producer := Filled)
    case AdvanceWrite =>
      s.(nextWrite := (s.nextWrite + 1) % |s.store|, written := s.written + [s.store[s.nextWrite]],
        producer := Advanced)
    case CountUp => s.(numElements := s.numElements + 1, producer := Idle)
    case CheckCount => if s.numElements == 0 then s else s.(reader := CountSeen)
    case CheckIndex =>
      if s.nextRead == s.nextWrite then s.(reader := Waiting) else s.(reader := Holding, held := s.nextRead)
    case Abandon => s.(reader := Waiting)
    case ReadCell => s.(seen := s.seen + [Observation(|s.taken|, s.store[s.held])])
    case AdvanceRead =>
      s.(nextRead := (s.nextRead + 1) % |s.store|, last := s.held, taken := s.taken + [s.store[s.held]],
        reader := Released)
    case AssertCount => s.(failed := s.failed || s.numElements == 0, reader := Checked)
    case CountDown => s.(numElements := s.numElements - 1, reader := Waiting)
    case LateRead => if s.taken == [] then s else s.(seen := s.seen + [Observation(|s.taken| - 1, s.store[s.last])])
  }

  /** The producer starts to fill a cell only when that leaves at most one cell less than all unread. */
  predicate Bounded<T>(s: Ring<T>, step: Step<T>) {
    step.WriteCell? ==> s.Unread() + 1 < |s.store|
  }

  // ---------- the invariant ----------

  /** The cell of element number `i`: round and round the ring. */
  function CellOf(i: nat, n: nat): (k: nat)
    requires n > 0
    ensures k < n
  {
    if i < n then i else CellOf(i - n, n)
  }

  /** Elements published and counted: the index moves first, the counter after it. */
  function Counted<T>(s: Ring<T>): int {
    if s.producer == Advanced then |s.written| - 1 else |s.written|
  }

  /** Releases not yet taken off the counter. */
  function Owed<T>(s: Ring<T>): int {
    if s.reader == Released || s.reader == Checked then 1 else 0
  }

  ghost predicate CellHolds<T>(s: Ring<T>, i: nat) {
    i < |s.written| && |s.store| > 0 && s.store[CellOf(i, |s.store|)] == s.written[i]
  }

  ghost predicate Inv<T>(s: Ring<T>) {
    && InBounds(s) && Positions(s) && Counters(s) && !s.failed
    && (forall i {:trigger CellHolds(s, i)} :: 0 <= i < |s.written| && i >= |s.taken| - 1 ==> CellHolds(s, i))
    && s.taken <= s.written
    && (forall i :: 0 <= i < |s.seen| ==> Seen(s, s.seen[i]))
  }

  ghost predicate Positions<T>(s: Ring<T>) {
    var n := |s.store|;
    && 0 <= s.Unread() < n && (s.producer == Filled ==> s.Unread() + 1 < n)
    && s.nextWrite == CellOf(|s.written|, n) && s.nextRead == CellOf(|s.taken|, n)
    && (s.reader == Holding ==> s.held == s.nextRead)
    && (s.taken != [] ==> s.last == CellOf(|s.taken| - 1, n))
  }

  ghost predicate Counters<T>(s: Ring<T>) {
    && s.numElements == Counted(s) - |s.taken| + Owed(s)
    && |s.taken| <= Counted(s)
    && (s.reader == CountSeen || s.reader == Holding ==> |s.taken| < Counted(s))
  }

  /** The value seen is the one published under that number. */
  ghost predicate Seen<T>(s: Ring<T>, o: Observation<T>) {
    o.index < |s.written| && o.index <= |s.taken| && o.value == s.written[o.index]
  }

  // ---------- arithmetic of the ring ----------

  /** Fewer than `n` apart, two numbers name the same cell only if they are equal. */
  lemma {:induction false} CellsDiffer(i: nat, j: nat, n: nat)
    requires i < j < i + n
    ensures CellOf(i, n) != CellOf(j, n)
  {
    if i >= n {
      CellsDiffer(i - n, j - n, n);
    }
  }

  lemma {:induction false} StepsOn(i: nat, n: nat)
    requires n > 0
    ensures (CellOf(i, n) + 1) % n == CellOf(i + 1, n)
  {
    if i >= n {
      StepsOn(i - n, n);
    } else if i + 1 == n {
      assert n % n == 0;
    }
  }

  // ---------- every step keeps it ----------

  lemma SameCells<T>(s: Ring<T>, t: Ring<T>)
    requires Inv(s) && t.store == s.store && s.written <= t.written && |s.taken| <= |t.taken|
    requires forall i :: |s.written| <= i < |t.written| ==> CellHolds(t, i)
    ensures forall i {:trigger CellHolds(t, i)} :: 0 <= i < |t.written| && i >= |t.taken| - 1 ==> CellHolds(t, i)
  {
    forall i | 0 <= i < |t.written| && i >= |t.taken| - 1 ensures CellHolds(t, i) {
      if i < |s.written| {
        assert CellHolds(s, i);
      }
    }
  }

  /** Filling the next cell disturbs neither an unread element nor the one just released. */
  lemma WriteKeepsInv<T>(s: Ring<T>, v: T)
    requires Inv(s) && AtStep(s, WriteCell(v)) && Bounded(s, WriteCell(v))
    ensures Inv(Next(s, WriteCell(v)))
  {
    var t := Next(s, WriteCell(v));
    forall i | 0 <= i < |t.written| && i >= |t.taken| - 1 ensures CellHolds(t, i) {
      assert CellHolds(s, i);
      CellsDiffer(i, |s.written|, |s.store|);
    }
    assert forall i :: 0 <= i < |t.seen| ==> Seen(s, s.seen[i]);
  }

  lemma PublishKeepsInv<T>(s: Ring<T>)
    requires Inv(s) && AtStep(s, AdvanceWrite)
    ensures Inv(Next(s, AdvanceWrite))
  {
    var t := Next(s, AdvanceWrite);
    StepsOn(|s.written|, |s.store|);
    assert CellHolds(t, |s.written|);
    SameCells(s, t);
    assert forall i :: 0 <= i < |t.seen| ==> Seen(s, s.seen[i]);
  }

  /** What the consumer holds is the oldest unread element. */
  lemma HeldIsOldest<T>(s: Ring<T>)
    requires Inv(s) && s.reader == Holding
    ensures |s.taken| < |s.written| && s.store[s.held] == s.written[|s.taken|]
  {
    assert CellHolds(s, |s.taken|);
  }

  lemma ReleaseKeepsInv<T>(s: Ring<T>)
    requires Inv(s) && AtStep(s, AdvanceRead)
    ensures Inv(Next(s, AdvanceRead))
  {
    var t := Next(s, AdvanceRead);
    HeldIsOldest(s);
    StepsOn(|s.taken|, |s.store|);
    SameCells(s, t);
    assert forall i :: 0 <= i < |t.seen| ==> Seen(s, s.seen[i]);
  }

  lemma ReadKeepsInv<T>(s: Ring<T>, step: Step<T>)
    requires Inv(s) && AtStep(s, step) && step in {ReadCell, LateRead}
    ensures Inv(Next(s, step))
  {
    var t := Next(s, step);
    if step == ReadCell {
      HeldIsOldest(s);
    } else {
      assert CellHolds(s, |s.taken| - 1);
    }
    SameCells(s, t);
    assert forall i :: 0 <= i < |s.seen| ==> Seen(s, s.seen[i]);
  }

  lemma StepKeepsInv<T>(s: Ring<T>, step: Step<T>)
    requires Inv(s) && AtStep(s, step) && Bounded(s, step)
    ensures Inv(Next(s, step))
  {
    match step
    case WriteCell(v) => WriteKeepsInv(s, v);
    case AdvanceWrite => PublishKeepsInv(s);
    case AdvanceRead => ReleaseKeepsInv(s);
    case ReadCell => ReadKeepsInv(s, step);
    case LateRead => ReadKeepsInv(s, step);
    case _ => CheckKeepsInv(s, step);
  }

  /** Steps that touch only the counter or a thread's own position. */
  lemma CheckKeepsInv<T>(s: Ring<T>, step: Step<T>)
    requires Inv(s) && AtStep(s, step) && step in {CountUp, CheckCount, CheckIndex, Abandon, AssertCount, CountDown}
    ensures Inv(Next(s, step))
  {
    SameCells(s, Next(s, step));
    assert forall i :: 0 <= i < |s.seen| ==> Seen(s, s.seen[i]);
  }

  // ---------- every interleaving ----------

  /** The state after the steps; any order of the two threads' steps is a sequence of this kind. */
  ghost predicate Reaches<T>(s: Ring<T>, steps: seq<Step<T>>, t: Ring<T>)
    decreases |steps|
  {
    if steps == [] then t == s
    else InBounds(s) && AtStep(s, steps[0]) && Bounded(s, steps[0]) && Reaches(Next(s, steps[0]), steps[1..], t)
  }

  lemma {:induction false} InterleavingKeepsInv<T>(s: Ring<T>, steps: seq<Step<T>>, t: Ring<T>)
    requires Inv(s) && Reaches(s, steps, t)
    ensures Inv(t) && |t.store| == |s.store|
    decreases |steps|
  {
    if steps != [] {
      StepKeepsInv(s, steps[0]);
      InterleavingKeepsInv(Next(s, steps[0]), steps[1..], t);
    }
  }

  /**
   From an empty ring, under every interleaving in which the producer leaves at most
   one cell less than all unread: values are taken in the order written; every read, even of the cell
   just released, sees the element it is meant to see; and the consumer's assertion never fails.
   */
  lemma EveryInterleaving<T>(n: nat, blank: T, steps: seq<Step<T>>, t: Ring<T>)
    requires n > 0 && Reaches(Empty(n, blank), steps, t)
    ensures t.taken <= t.written
    ensures forall i :: 0 <= i < |t.seen| ==>
            t.seen[i].index < |t.written| && t.seen[i].value == t.written[t.seen[i].index]
    ensures !t.failed && 0 <= t.numElements <= n
  {
    assert Inv(Empty(n, blank));
    InterleavingKeepsInv(Empty(n, blank), steps, t);
    assert forall i :: 0 <= i < |t.seen| ==> Seen(t, t.seen[i]);
  }

  /** Once the counter was seen positive, the index check cannot turn the consumer away. */
  lemma CountedMeansReadable<T>(s: Ring<T>)
    requires Inv(s) && s.reader == CountSeen
    ensures s.nextRead != s.nextWrite && Next(s, CheckIndex).reader == Holding
  {
    CellsDiffer(|s.taken|, |s.written|, |s.store|);
  }

  /** Without interference, an operation that starts on an idle ring delivers exactly when something is unread. */
  lemma PollDelivers<T>(s: Ring<T>)
    requires Inv(s) && s.producer == Idle && s.reader == Waiting
    ensures Next(s, CheckCount).reader == CountSeen <==> |s.taken| < |s.written|
    ensures |s.taken| < |s.written| ==>
              var h := Next(Next(s, CheckCount), CheckIndex);
              h.reader == Holding && h.store[h.held] == s.written[|s.taken|]
  {
    if |s.taken| < |s.written| {
      CheckKeepsInv(s, CheckCount);
      CountedMeansReadable(Next(s, CheckCount));
      CheckKeepsInv(Next(s, CheckCount), CheckIndex);
      HeldIsOldest(Next(Next(s, CheckCount), CheckIndex));
    }
  }

  predicate ByProducer<T>(step: Step<T>) {
    step.WriteCell? || step.AdvanceWrite? || step.CountUp?
  }

  ghost predicate AllByProducer<T>(steps: seq<Step<T>>) {
    forall i :: 0 <= i < |steps| ==> ByProducer(steps[i])
  }

  lemma {:induction false} ProducerLeavesReader<T>(s: Ring<T>, steps: seq<Step<T>>, t: Ring<T>)
    requires Inv(s) && Reaches(s, steps, t) && AllByProducer(steps)
    ensures Inv(t) && t.reader == s.reader && t.taken == s.taken && s.written <= t.written
    decreases |steps|
  {
    if steps != [] {
      assert ByProducer(steps[0]);
      StepKeepsInv(s, steps[0]);
      ProducerLeavesReader(Next(s, steps[0]), steps[1..], t);
    }
  }

  /**
   A poll that finds the counter positive gets the oldest unread element, whatever the producer does
   between its two checks, and still holds it whatever the producer does after them.
   */
  lemma InterruptedPollDelivers<T>(s: Ring<T>, between: seq<Step<T>>, t: Ring<T>, after: seq<Step<T>>, u: Ring<T>)
    requires Inv(s) && s.reader == Waiting && s.numElements != 0
    requires AllByProducer(between) && Reaches(Next(s, CheckCount), between, t) && InBounds(t)
    requires AllByProducer(after) && Reaches(Next(t, CheckIndex), after, u)
    ensures Inv(u) && u.reader == Holding && u.taken == s.taken
    ensures |s.taken| < |s.written| && u.store[u.held] == s.written[|s.taken|]
  {
    CheckKeepsInv(s, CheckCount);
    ProducerLeavesReader(Next(s, CheckCount), between, t);
    CountedMeansReadable(t);
    CheckKeepsInv(t, CheckIndex);
    ProducerLeavesReader(Next(t, CheckIndex), after, u);
    HeldIsOldest(u);
  }

  // ---------- the bound is needed ----------

  /** One whole write, with nothing to stop it. */
  function WriteOne<T>(s: Ring<T>, v: T): (r: Ring<T>)
    requires InBounds(s)
    ensures InBounds(r)
  {
    Next(Next(Next(s, WriteCell(v)), AdvanceWrite), CountUp)
  }

  lemma {:induction false} OneRoundOn(i: nat, n: nat)
    requires n > 0
    ensures CellOf(i + n, n) == CellOf(i, n)
  {
    if i >= n {
      OneRoundOn(i - n, n);
    }
  }

  /** Writing leaves the indices apart unless it fills the last cell. */
  lemma WriteMeets<T>(s: Ring<T>, v: T)
    requires Inv(s) && s.producer == Idle
    ensures WriteOne(s, v).nextRead == WriteOne(s, v).nextWrite <==> s.Unread() + 1 == |s.store|
  {
    var n := |s.store|;
    StepsOn(|s.written|, n);
    if s.Unread() + 1 == n {
      assert |s.written| + 1 == |s.taken| + n;
      OneRoundOn(|s.taken|, n);
    } else {
      CellsDiffer(|s.taken|, |s.written| + 1, n);
    }
  }

  /**
   From any state, a poll after one more write finds an element exactly when the write left a cell
   unfilled: with every cell unread the indices meet and the ring looks empty, whatever the counter says.
   */
  lemma FullRingLooksEmpty<T>(s: Ring<T>, v: T)
    requires Inv(s) && s.producer == Idle && s.reader == Waiting
    ensures WriteOne(s, v).numElements == s.Unread() + 1 > 0
    ensures Next(Next(WriteOne(s, v), CheckCount), CheckIndex).reader == Holding <==> s.Unread() + 1 < |s.store|
  {
    WriteMeets(s, v);
  }

  /**
   From any state, of two more writes the second spares the oldest unread element exactly when the
   first left a cell unfilled.
   */
  lemma OneMoreOverwrites<T>(s: Ring<T>, v: T, w: T)
    requires Inv(s) && s.producer == Idle && w != (s.written + [v])[|s.taken|]
    ensures var r := WriteOne(WriteOne(s, v), w);
            && r.taken == s.taken && r.written == s.written + [v, w]
            && (r.store[r.nextRead] == r.written[|r.taken|] <==> s.Unread() + 1 < |s.store|)
  {
    var k := |s.taken|;
    WriteMeets(s, v);
    if k < |s.written| {
      assert CellHolds(s, k);
      CellsDiffer(k, |s.written|, |s.store|);
    }
  }

  // ---------- the four operations ----------

  ghost predicate SameRing<T>(s: Ring<T>, r: Ring<T>) {
    s == r
  }

  /** `Inv`, folded: methods carry it whole and lemmas unfold it. */
  ghost predicate Sound<T(!new)>(s: Ring<T>) {
    InBounds(s) && forall r {:trigger SameRing(s, r)} :: SameRing(s, r) ==> Inv(r)
  }

  lemma SoundIsInv<T(!new)>(s: Ring<T>)
    ensures Sound(s) <==> Inv(s)
  {
    assert SameRing(s, s);
  }

  lemma StepKeepsSound<T(!new)>(s: Ring<T>, step: Step<T>)
    requires Sound(s) && AtStep(s, step) && Bounded(s, step)
    ensures Sound(Next(s, step))
  {
    SoundIsInv(s);
    SoundIsInv(Next(s, step));
    StepKeepsInv(s, step);
  }

  /** What is held is the oldest unread element; and the counter seen positive, the index check passes. */
  lemma SoundReads<T(!new)>(s: Ring<T>)
    requires Sound(s)
    ensures s.reader == Holding ==> |s.taken| < |s.written| && s.store[s.held] == s.written[|s.taken|]
    ensures s.reader == CountSeen ==> s.nextRead != s.nextWrite
  {
    SoundIsInv(s);
    if s.reader == Holding {
      HeldIsOldest(s);
    } else if s.reader == CountSeen {
      CountedMeansReadable(s);
    }
  }

  /** A whole release, undisturbed: the counter is positive when it is asserted to be. */
  lemma ReleaseOne<T(!new)>(s: Ring<T>)
    requires Sound(s) && s.reader == Holding
    ensures Sound(Next(Next(Next(s, AdvanceRead), AssertCount), CountDown)) && s.numElements != 0
    ensures |s.taken| < |s.written| && s.store[s.held] == s.written[|s.taken|]
  {
    SoundReads(s);
    StepKeepsSound(s, AdvanceRead);
    StepKeepsSound(Next(s, AdvanceRead), AssertCount);
    SoundIsInv(Next(Next(s, AdvanceRead), AssertCount));
    StepKeepsSound(Next(Next(s, AdvanceRead), AssertCount), CountDown);
  }

  /** The queue as the program has it; `ring` adds the history and the threads' positions. */
  class SpscQueue<T(0, !new)> {
    const store: array<T>
    var nextReadIdx: nat
    var nextWriteIdx: nat
    var numElements: int
    ghost var ring: Ring<T>

    /** The fields are the ring's, and the ring is well formed. */
    ghost predicate Valid()
      reads this, store
    {
      && Sound(ring)
      && ring.store == store[..] && ring.nextRead == nextReadIdx && ring.nextWrite == nextWriteIdx
      && ring.numElements == numElements
    }

    constructor (n: nat, blank: T)
      requires n > 0
      ensures Valid() && ring == Empty(n, blank) && fresh(store)
    {
      store := new T[n](_ => blank);
      nextReadIdx, nextWriteIdx, numElements := 0, 0, 0;
      ring := Empty(n, blank);
      new;
      assert store[..] == ring.store;
      SoundIsInv(ring);
    }

    /** Writes through the reference to the next cell. */
    method WriteNext(v: T)
      requires Valid() && AtStep(ring, WriteCell(v)) && Bounded(ring, WriteCell(v))
      modifies this, store
      ensures Valid() && ring == Next(old(ring), WriteCell(v))
    {
      StepKeepsSound(ring, WriteCell(v));
      ring := Next(ring, WriteCell(v));
      store[nextWriteIdx] := v;
    }

    /** Publishes the cell just written: the index first, then the counter. */
    method UpdateNextWrite()
      requires Valid() && ring.producer == Filled
      modifies this
      ensures Valid() && ring == Next(Next(old(ring), AdvanceWrite), CountUp)
      ensures ring.written == old(ring.written) + [old(store[nextWriteIdx])]
    {
      StepKeepsSound(ring, AdvanceWrite);
      ring := Next(ring, AdvanceWrite);
      nextWriteIdx := (nextWriteIdx + 1) % store.Length;
      StepKeepsSound(ring, CountUp);
      ring := Next(ring, CountUp);
      numElements := numElements + 1;
    }

    /** The cell of the oldest unread element, or none. */
    method GetNextRead() returns (cell: int)
      requires Valid() && ring.reader == Waiting
      modifies this`ring
      ensures Valid() && ring.written == old(ring.written) && ring.taken == old(ring.taken)
      ensures ring.reader == if cell == -1 then Waiting else Holding
      ensures cell == -1 <==> numElements == 0
      ensures cell != -1 ==>
        && 0 <= cell < store.Length && cell == ring.held
        && |ring.taken| < |ring.written| && store[cell] == ring.written[|ring.taken|]
    {
      StepKeepsSound(ring, CheckCount);
      ring := Next(ring, CheckCount);
      if numElements == 0 {
        return -1;
      }
      SoundReads(ring);
      StepKeepsSound(ring, CheckIndex);
      ring := Next(ring, CheckIndex);
      if nextReadIdx == nextWriteIdx {
        return -1;
      }
      SoundReads(ring);
      cell := nextReadIdx;
    }

    /** Releases the cell held; the assertion on the way holds. */
    method UpdateNextRead()
      requires Valid() && ring.reader == Holding
      modifies this
      ensures Valid() && ring == Next(Next(Next(old(ring), AdvanceRead), AssertCount), CountDown)
      ensures |old(ring.taken)| < |ring.written| && ring.taken == old(ring.taken) + [ring.written[|old(ring.taken)|]]
    {
      ReleaseOne(ring);
      ring := Next(Next(Next(ring, AdvanceRead), AssertCount), CountDown);
      nextReadIdx := (nextReadIdx + 1) % store.Length;
      assert numElements != 0;
      numElements := numElements - 1;
    }
  }
}

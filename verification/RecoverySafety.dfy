/**
 Recovery safety: whatever is lost, repeated or reordered, a consumer that is not in recovery has
 passed on a history that means exactly what the publisher's does.
 */
module RecoverySafety {
  import opened MarketTypes
  import opened Sequences
  import opened MarketFeed
  import opened LateJoiner
  import opened RecoveryProtocol

  /** The published updates; the one numbered `n` is at index `n - 1`. */
  type Published = seq<MarketUpdate>

  ghost function StateAt(p: Published, n: nat): Table
    requires n <= |p|
  {
    FoldAll(map[], p[..n])
  }

  ghost predicate WellPublished(p: Published) {
    forall i :: 0 <= i < |p| ==> InRange(p[i])
  }

  ghost function SnapshotAt(p: Published, n: nat): seq<Sequenced>
    requires n <= |p|
  {
    Snapshot(StateAt(p, n), n)
  }

  // ---------- genuine messages ----------

  predicate GenuineIncremental(p: Published, m: Sequenced) {
    1 <= m.num <= |p| && m.update == p[m.num - 1]
  }

  ghost predicate GenuineQueue(p: Published, q: Queue) {
    forall m :: m in q ==> GenuineIncremental(p, m)
  }

  ghost predicate PartOf(q: Queue, whole: seq<Sequenced>) {
    forall m :: m in q ==> m.num < |whole| && m == whole[m.num]
  }

  ghost predicate IsSnapshot(p: Published, n: nat, whole: seq<Sequenced>)
    requires n <= |p|
  {
    whole == SnapshotAt(p, n)
  }

  /** All of the queue is part of the publication after `n`; folded, for what only carries it from step to step. */
  ghost predicate FromPublication(p: Published, n: nat, q: Queue) {
    n <= |p| && forall whole {:trigger IsSnapshot(p, n, whole)} :: IsSnapshot(p, n, whole) ==> PartOf(q, whole)
  }

  lemma FromIsPart(p: Published, n: nat, q: Queue)
    requires n <= |p|
    ensures FromPublication(p, n, q) <==> PartOf(q, SnapshotAt(p, n))
  {
    assert IsSnapshot(p, n, SnapshotAt(p, n));
  }

  /** Everything in the queue comes from one and the same publication. */
  ghost predicate OnePublication(p: Published, q: Queue) {
    exists n: nat :: FromPublication(p, n, q)
  }

  lemma EmptyIsOnePublication(p: Published)
    ensures OnePublication(p, [])
  {
    assert FromPublication(p, 0, []);
  }

  /** The message is genuine; a snapshot message leaves the queue it joins within one publication. */
  ghost predicate Genuine(p: Published, c: Consumer, fromSnapshot: bool, m: Sequenced) {
    if fromSnapshot then c.lost || m.num != c.exp ==> OnePublication(p, WithSnapshot(InRecovery(c).snapshot, m))
    else GenuineIncremental(p, m)
  }

  // ---------- what every step keeps ----------

  /** Outside recovery, what was passed on means the published state just before the next number. */
  ghost predicate Faithful(p: Published, c: Consumer) {
    1 <= c.exp <= |p| + 1 && FoldAll(map[], c.out) == StateAt(p, c.exp - 1)
  }

  ghost predicate Safe(p: Published, c: Consumer) {
    && TickersInRange(FoldAll(map[], c.out))
    && (!c.lost ==> Faithful(p, c))
    && (c.lost ==> GenuineQueue(p, c.incremental) && Ascending(c.incremental))
    && (c.lost ==> OnePublication(p, c.snapshot) && Ascending(c.snapshot))
  }

  lemma {:induction false} StateOk(p: Published, n: nat)
    requires WellPublished(p) && n <= |p|
    ensures TableOk(StateAt(p, n))
  {
    if n > 0 {
      StateOk(p, n - 1);
      assert p[..n][..n - 1] == p[..n - 1] && InRange(p[n - 1]);
      FoldKeepsOk(StateAt(p, n - 1), p[n - 1]);
    }
  }

  lemma StateStep(p: Published, n: nat)
    requires n < |p|
    ensures StateAt(p, n + 1) == Fold(StateAt(p, n), p[n])
  {
    assert p[..n + 1][..n] == p[..n];
  }

  lemma {:induction false} PayloadMeansTheSame(t: Table, us: seq<MarketUpdate>)
    ensures FoldAll(t, Payload(us)) == FoldAll(t, us)
  {
    if us != [] {
      PayloadMeansTheSame(t, us[..|us| - 1]);
      FoldStep(t, Payload(us[..|us| - 1]), us[|us| - 1]);
    }
  }

  // ---------- the snapshot half of a splice ----------

  lemma {:induction false} BodiesHaveNoBounds(t: Table, n: nat)
    requires TableOk(t)
    ensures forall i :: 0 <= i < |Bodies(t, n)| ==> Bodies(t, n)[i].kind in {ADD, CLEAR}
  {
    if n > 0 {
      BodiesHaveNoBounds(t, n - 1);
      StoredAreAdds(t, n - 1, MAX_ORDER_IDS);
    }
  }

  lemma {:induction false} StoredAreAdds(t: Table, ticker: nat, n: nat)
    requires TableOk(t)
    ensures forall i :: 0 <= i < |Stored(t, ticker, n)| ==> Stored(t, ticker, n)[i].kind == ADD
  {
    if n > 0 {
      StoredAreAdds(t, ticker, n - 1);
    }
  }

  /** A whole snapshot made of parts of one publication is that publication. */
  lemma WholeIsThePublication(t: Table, n: nat, q: Queue)
    requires TableOk(t) && WholeSnapshot(q) && PartOf(q, Snapshot(t, n))
    ensures q == Snapshot(t, n) && q[|q| - 1].update.orderId == n && Updates(q) == SnapshotUpdates(t, n)
  {
    var whole := Snapshot(t, n);
    BodiesHaveNoBounds(t, MAX_TICKERS);
    var us := SnapshotUpdates(t, n);
    assert forall i :: 0 < i < |us| - 1 ==> us[i] == SnapshotBody(t)[i - 1];
    forall i | 0 <= i < |q| ensures q[i] == whole[i] {
      assert q[i] in q;
    }
    assert whole[|q| - 1].update == us[|q| - 1];
  }

  lemma SnapshotMeans(t: Table, m: Table, n: nat)
    requires TableOk(t) && TickersInRange(m)
    ensures FoldAll(m, SnapshotUpdates(t, n)) == t
  {
    var start, end := [Bound(SNAPSHOT_START, n)], Bound(SNAPSHOT_END, n);
    FoldStep(m, start + SnapshotBody(t), end);
    FoldConcat(m, start, SnapshotBody(t));
    FoldStep(m, [], start[0]);
    NothingBefore(start);
    SnapshotRestores(t, m);
  }

  // ---------- the incremental half ----------

  lemma {:induction false} CatchUpTakes(p: Published, q: Queue, exp: nat)
    requires GenuineQueue(p, q) && Ascending(q) && 1 <= exp <= |p| + 1
    ensures var s := CatchUp(q, exp);
            exp <= s.exp <= |p| + 1 && (s.complete ==> s.taken == p[exp - 1..s.exp - 1])
    decreases q
  {
    if q != [] {
      assert q[0] in q;
      assert forall m :: m in q[1..] ==> m in q;
      if q[0].num < exp {
        CatchUpTakes(p, q[1..], exp);
      } else if q[0].num == exp {
        CatchUpTakes(p, q[1..], exp + 1);
      }
    }
  }

  lemma TakenMeans(p: Published, from: nat, to: nat)
    requires from <= to <= |p|
    ensures FoldAll(StateAt(p, from), p[from..to]) == StateAt(p, to)
  {
    FoldConcat(map[], p[..from], p[from..to]);
    assert p[..from] + p[from..to] == p[..to];
  }

  // ---------- one step ----------

  /** `r` is what a completed recovery makes of `c`. */
  ghost predicate Spliced(c: Consumer, r: Consumer) {
    && WholeSnapshot(c.snapshot)
    && var s := CatchUp(c.incremental, c.snapshot[|c.snapshot| - 1].update.orderId + 1);
       && s.complete && !r.lost && r.exp == s.exp
       && r.out == c.out + Payload(Updates(c.snapshot)) + Payload(s.taken)
  }

  lemma CompletedIsSpliced(c: Consumer)
    requires c.lost && !CheckSync(c).lost
    ensures Spliced(c, CheckSync(c))
  {
  }

  /** A whole snapshot from one publication brings any state to the one published. */
  lemma QueueRestores(p: Published, q: Queue, m: Table) returns (n: nat)
    requires WellPublished(p) && OnePublication(p, q) && WholeSnapshot(q) && TickersInRange(m)
    ensures n <= |p| && q[|q| - 1].update.orderId == n && FoldAll(m, Updates(q)) == StateAt(p, n)
  {
    n :| FromPublication(p, n, q);
    FromIsPart(p, n, q);
    StateOk(p, n);
    WholeIsThePublication(StateAt(p, n), n, q);
    SnapshotMeans(StateAt(p, n), m, n);
  }

  /** `us` restores the state at `n` and `taken` leads on to the state at `to`. */
  lemma SplicedMeans(p: Published, out: seq<MarketUpdate>, n: nat, to: nat, us: seq<MarketUpdate>,
                     taken: seq<MarketUpdate>, out': seq<MarketUpdate>)
    requires out' == out + Payload(us) + Payload(taken)
    requires n <= to <= |p| && FoldAll(FoldAll(map[], out), us) == StateAt(p, n) && taken == p[n..to]
    ensures FoldAll(map[], out') == StateAt(p, to)
  {
    FoldConcat(map[], out + Payload(us), Payload(taken));
    FoldConcat(map[], out, Payload(us));
    PayloadMeansTheSame(FoldAll(map[], out), us);
    PayloadMeansTheSame(StateAt(p, n), taken);
    TakenMeans(p, n, to);
  }

  lemma TakenFrom(p: Published, q: Queue, n: nat, s: Splice)
    requires GenuineQueue(p, q) && Ascending(q) && n <= |p| && s == CatchUp(q, n + 1) && s.complete
    ensures n <= s.exp - 1 <= |p| && s.taken == p[n..s.exp - 1]
  {
    CatchUpTakes(p, q, n + 1);
  }

  lemma SpliceIsFaithful(p: Published, c: Consumer, r: Consumer, n: nat)
    requires Spliced(c, r) && GenuineQueue(p, c.incremental) && Ascending(c.incremental)
    requires n <= |p| && c.snapshot[|c.snapshot| - 1].update.orderId == n
    requires FoldAll(FoldAll(map[], c.out), Updates(c.snapshot)) == StateAt(p, n)
    ensures Faithful(p, r)
  {
    var s := CatchUp(c.incremental, n + 1);
    TakenFrom(p, c.incremental, n, s);
    SplicedMeans(p, c.out, n, r.exp - 1, Updates(c.snapshot), s.taken, r.out);
  }

  lemma OkIsInRange(t: Table)
    requires TableOk(t)
    ensures TickersInRange(t)
  {
  }

  lemma FaithfulIsSafe(p: Published, c: Consumer)
    requires WellPublished(p) && Faithful(p, c) && !c.lost
    ensures Safe(p, c)
  {
    StateOk(p, c.exp - 1);
    OkIsInRange(StateAt(p, c.exp - 1));
  }

  /** A recovery that does not complete only ever empties the snapshot queue. */
  lemma StillLost(c: Consumer)
    requires c.lost && CheckSync(c).lost
    ensures CheckSync(c).out == c.out && CheckSync(c).incremental == c.incremental
    ensures CheckSync(c).snapshot in {c.snapshot, []}
  {
  }

  lemma CheckSyncIsSafe(p: Published, c: Consumer)
    requires WellPublished(p) && Safe(p, c) && c.lost
    ensures Safe(p, CheckSync(c))
  {
    if CheckSync(c).lost {
      StillLost(c);
      EmptyIsOnePublication(p);
    } else {
      CompletedIsSpliced(c);
      var n := QueueRestores(p, c.snapshot, FoldAll(map[], c.out));
      SpliceIsFaithful(p, c, CheckSync(c), n);
      FaithfulIsSafe(p, CheckSync(c));
    }
  }

  lemma QueuedIsSafe(p: Published, c: Consumer, fromSnapshot: bool, m: Sequenced)
    requires Safe(p, c) && Genuine(p, c, fromSnapshot, m) && (c.lost || m.num != c.exp)
    ensures var c1 := InRecovery(c);
            Safe(p, if fromSnapshot then c1.(snapshot := WithSnapshot(c1.snapshot, m))
                    else c1.(incremental := Put(c1.incremental, m)))
  {
    var c1 := InRecovery(c);
    EmptyIsOnePublication(p);
    if fromSnapshot {
      PutKeepsOrder(if Queued(c1.snapshot, m.num) then [] else c1.snapshot, m);
    } else {
      PutKeepsOrder(c1.incremental, m);
    }
  }

  lemma ReceiveIsSafe(p: Published, c: Consumer, fromSnapshot: bool, m: Sequenced)
    requires WellPublished(p) && Safe(p, c) && Genuine(p, c, fromSnapshot, m)
    ensures Safe(p, Receive(c, fromSnapshot, m))
  {
    if c.lost || m.num != c.exp {
      var c1 := InRecovery(c);
      QueuedIsSafe(p, c, fromSnapshot, m);
      CheckSyncIsSafe(p, if fromSnapshot then c1.(snapshot := WithSnapshot(c1.snapshot, m))
                         else c1.(incremental := Put(c1.incremental, m)));
    } else if !fromSnapshot {
      FoldStep(map[], c.out, m.update);
      StateStep(p, c.exp - 1);
      StateOk(p, c.exp);
      OkIsInRange(StateAt(p, c.exp));
    }
  }

  // ---------- whole runs ----------

  ghost predicate AllGenuine(p: Published, c: Consumer, fromSnapshot: bool, ms: seq<Sequenced>) {
    ms == [] || (AllGenuine(p, c, fromSnapshot, ms[..|ms| - 1])
                 && Genuine(p, ReceiveAll(c, fromSnapshot, ms[..|ms| - 1]), fromSnapshot, ms[|ms| - 1]))
  }

  /** Every message that is looked at is genuine; discarded ones may be anything. */
  ghost predicate GenuineRun(p: Published, arrivals: seq<Arrival>) {
    arrivals == [] ||
    var before, last := RunConsumer(arrivals[..|arrivals| - 1]), arrivals[|arrivals| - 1];
    && GenuineRun(p, arrivals[..|arrivals| - 1])
    && (!last.fromSnapshot || before.lost ==> AllGenuine(p, before, last.fromSnapshot, last.messages))
  }

  lemma {:induction false} ReceiveAllIsSafe(p: Published, c: Consumer, fromSnapshot: bool, ms: seq<Sequenced>)
    requires WellPublished(p) && Safe(p, c) && AllGenuine(p, c, fromSnapshot, ms)
    ensures Safe(p, ReceiveAll(c, fromSnapshot, ms))
  {
    if ms != [] {
      ReceiveAllIsSafe(p, c, fromSnapshot, ms[..|ms| - 1]);
      ReceiveIsSafe(p, ReceiveAll(c, fromSnapshot, ms[..|ms| - 1]), fromSnapshot, ms[|ms| - 1]);
    }
  }

  lemma FreshIsSafe(p: Published)
    ensures Safe(p, FRESH)
  {
    assert p[..0] == [];
  }

  lemma CallbackIsSafe(p: Published, c: Consumer, a: Arrival)
    requires WellPublished(p) && Safe(p, c)
    requires !a.fromSnapshot || c.lost ==> AllGenuine(p, c, a.fromSnapshot, a.messages)
    ensures Safe(p, Callback(c, a.fromSnapshot, a.messages))
  {
    if !a.fromSnapshot || c.lost {
      ReceiveAllIsSafe(p, c, a.fromSnapshot, a.messages);
    }
  }

  lemma {:induction false} RunIsSafe(p: Published, arrivals: seq<Arrival>)
    requires WellPublished(p) && GenuineRun(p, arrivals)
    ensures Safe(p, RunConsumer(arrivals))
  {
    if arrivals == [] {
      FreshIsSafe(p);
    } else {
      RunIsSafe(p, arrivals[..|arrivals| - 1]);
      CallbackIsSafe(p, RunConsumer(arrivals[..|arrivals| - 1]), arrivals[|arrivals| - 1]);
    }
  }

  lemma SafeMeans(p: Published, c: Consumer)
    requires Safe(p, c) && !c.lost
    ensures 1 <= c.exp <= |p| + 1 && FoldAll(map[], c.out) == FoldAll(map[], p[..c.exp - 1])
  {
  }

  /**
   Over any run of callbacks with any losses, repetitions and reorderings of genuine messages: outside
   recovery, what was passed on means exactly the published state before the next expected number.
   */
  lemma RecoveryIsSafe(p: Published, arrivals: seq<Arrival>)
    requires WellPublished(p) && GenuineRun(p, arrivals)
    ensures var c := RunConsumer(arrivals);
            !c.lost ==> 1 <= c.exp <= |p| + 1 && FoldAll(map[], c.out) == FoldAll(map[], p[..c.exp - 1])
  {
    RunIsSafe(p, arrivals);
    if !RunConsumer(arrivals).lost {
      SafeMeans(p, RunConsumer(arrivals));
    }
  }

  /**
   With nothing lost or reordered there is no recovery and exactly the published updates are passed on,
   however the stream is cut into callbacks and whatever snapshot callbacks come in between.
   */
  lemma NoLossNoRecovery(p: Published, n: nat, arrivals: seq<Arrival>)
    requires n <= |p| && Incrementals(arrivals) == Numbered(p[..n], 1)
    ensures RunConsumer(arrivals) == Consumer(n + 1, false, [], [], p[..n])
  {
    RunInOrder(arrivals);
    assert Updates(Incrementals(arrivals)) == p[..n];
  }
}

/**
 Sequence numbers do not tell two snapshot publications apart. What the messages of one publication up
 to some number and of another from there on amount to: exactly when that is harmless, with any incremental
 messages queued, and a run in which it is not.
 */
module MixedSnapshots {
  import opened MarketTypes
  import opened Sequences
  import opened MarketFeed
  import opened RecoveryProtocol
  import opened RecoverySafety
  import opened RecoveryProgress
  import opened SettledTables

  // ---------- the order of a body ----------

  /** Ticker by ticker, the clear first and then the orders by id. */
  predicate Precedes(u: MarketUpdate, v: MarketUpdate) {
    || u.ticker < v.ticker
    || (u.ticker == v.ticker && v.kind == ADD && (u.kind == CLEAR || (u.kind == ADD && u.orderId < v.orderId)))
  }

  ghost predicate Ascends(us: seq<MarketUpdate>) {
    forall i, j :: 0 <= i < j < |us| ==> Precedes(us[i], us[j])
  }

  /** A ticker's clear, or an order of the table. */
  predicate Belongs(t: Table, u: MarketUpdate) {
    || (u.ticker < MAX_TICKERS && u == ClearOf(u.ticker))
    || (u.kind == ADD && KeyOf(u) in t && t[KeyOf(u)] == u)
  }

  /** The update sequence is the table's body, whatever else is known of it. */
  ghost predicate IsBody(us: seq<MarketUpdate>, t: Table) {
    Ascends(us) && forall u :: u in us <==> Belongs(t, u)
  }

  predicate StoredIn(t: Table, ticker: nat, n: nat, u: MarketUpdate) {
    u.kind == ADD && u.ticker == ticker && u.orderId < n && KeyOf(u) in t && t[KeyOf(u)] == u
  }

  lemma {:induction false} StoredAscends(t: Table, ticker: nat, n: nat)
    requires TableOk(t)
    ensures Ascends(Stored(t, ticker, n))
    ensures forall u :: u in Stored(t, ticker, n) <==> StoredIn(t, ticker, n, u)
  {
    if n > 0 {
      var before, k := Stored(t, ticker, n - 1), Key(ticker, n - 1);
      StoredAscends(t, ticker, n - 1);
      forall i | 0 <= i < |before| ensures StoredIn(t, ticker, n - 1, before[i]) {
        assert before[i] in before;
      }
      assert k in t ==> KeyOf(t[k]) == k;
    }
  }

  lemma BlockAscends(t: Table, ticker: nat, block: seq<MarketUpdate>)
    requires TableOk(t) && ticker < MAX_TICKERS && block == [ClearOf(ticker)] + Stored(t, ticker, MAX_ORDER_IDS)
    ensures Ascends(block)
    ensures forall u :: u in block <==> u.ticker == ticker && Belongs(t, u)
  {
    var stored := Stored(t, ticker, MAX_ORDER_IDS);
    StoredAscends(t, ticker, MAX_ORDER_IDS);
    forall i | 0 <= i < |stored| ensures StoredIn(t, ticker, MAX_ORDER_IDS, stored[i]) {
      assert stored[i] in stored;
    }
  }

  lemma JoinAscends(a: seq<MarketUpdate>, b: seq<MarketUpdate>)
    requires Ascends(a) && Ascends(b)
    requires forall u, v :: u in a && v in b ==> u.ticker < v.ticker
    ensures Ascends(a + b)
  {
  }

  lemma {:induction false} BodiesAscend(t: Table, n: nat)
    requires TableOk(t) && n <= MAX_TICKERS
    ensures Ascends(Bodies(t, n))
    ensures forall u :: u in Bodies(t, n) <==> u.ticker < n && Belongs(t, u)
  {
    if n > 0 {
      var block := [ClearOf(n - 1)] + Stored(t, n - 1, MAX_ORDER_IDS);
      BodiesAscend(t, n - 1);
      BlockAscends(t, n - 1, block);
      JoinAscends(Bodies(t, n - 1), block);
    }
  }

  lemma SnapshotIsBody(t: Table, us: seq<MarketUpdate>)
    requires TableOk(t) && us == SnapshotBody(t)
    ensures IsBody(us, t)
  {
    BodiesAscend(t, MAX_TICKERS);
    assert forall u :: Belongs(t, u) ==> u.ticker < MAX_TICKERS;
  }

  // ---------- what settles the entry under a key ----------

  predicate Adds(u: MarketUpdate, k: Key) {
    u.kind == ADD && KeyOf(u) == k
  }

  predicate Clears(u: MarketUpdate, k: Key) {
    u.kind == CLEAR && u.ticker == k.ticker
  }

  /** Additions, clears and bounds. */
  predicate Plain(u: MarketUpdate) {
    u.kind in {ADD, CLEAR, SNAPSHOT_START, SNAPSHOT_END}
  }

  ghost predicate Leaves(us: seq<MarketUpdate>, k: Key) {
    forall i :: 0 <= i < |us| ==> Plain(us[i]) && !Adds(us[i], k) && !Clears(us[i], k)
  }

  lemma {:induction false} LeftAlone(t: Table, us: seq<MarketUpdate>, k: Key)
    requires Leaves(us, k)
    ensures Get(FoldAll(t, us), k) == Get(t, k)
  {
    if us != [] {
      LeftAlone(t, us[..|us| - 1], k);
    }
  }

  lemma {:induction false} NeverAdded(t: Table, us: seq<MarketUpdate>, k: Key)
    requires k !in t && forall i :: 0 <= i < |us| ==> Plain(us[i]) && !Adds(us[i], k)
    ensures k !in FoldAll(t, us)
  {
    if us != [] {
      NeverAdded(t, us[..|us| - 1], k);
    }
  }

  lemma FoldSplit(t: Table, us: seq<MarketUpdate>, i: nat)
    requires i < |us|
    ensures FoldAll(t, us) == FoldAll(Fold(FoldAll(t, us[..i]), us[i]), us[i + 1..])
  {
    FoldStep(t, us[..i], us[i]);
    FoldConcat(t, us[..i] + [us[i]], us[i + 1..]);
    assert us[..i] + [us[i]] + us[i + 1..] == us;
  }

  /** An addition that nothing after it touches stands. */
  lemma AddedLast(t: Table, us: seq<MarketUpdate>, i: nat, k: Key)
    requires i < |us| && Adds(us[i], k) && Leaves(us[i + 1..], k)
    ensures Get(FoldAll(t, us), k) == Some(us[i])
  {
    FoldSplit(t, us, i);
    LeftAlone(Fold(FoldAll(t, us[..i]), us[i]), us[i + 1..], k);
  }

  /** A clear that no addition follows leaves nothing under the key. */
  lemma ClearedForGood(t: Table, us: seq<MarketUpdate>, i: nat, k: Key)
    requires i < |us| && Clears(us[i], k)
    requires forall j :: 0 <= j < |us| ==> Plain(us[j]) && !Adds(us[j], k)
    ensures k !in FoldAll(t, us)
  {
    FoldSplit(t, us, i);
    NeverAdded(Fold(FoldAll(t, us[..i]), us[i]), us[i + 1..], k);
  }

  // ---------- the first difference of two bodies ----------

  /** Same place in the order of a body. */
  predicate SamePlace(u: MarketUpdate, v: MarketUpdate) {
    u.ticker == v.ticker && u.kind == v.kind && (u.kind == ADD ==> u.orderId == v.orderId)
  }

  /** Of two bodies that agree before `i`, what comes earlier at `i` is an order the other table does not have. */
  lemma EarlierIsForeign(a: seq<MarketUpdate>, ta: Table, b: seq<MarketUpdate>, tb: Table, i: nat)
    requires IsBody(a, ta) && IsBody(b, tb) && i < |a| && i < |b| && a[..i] == b[..i] && Precedes(a[i], b[i])
    requires TableOk(tb)
    ensures a[i].kind == ADD && KeyOf(a[i]) !in tb
  {
    assert a[i] in a && Belongs(ta, a[i]);
    if a[i].kind == CLEAR {
      assert Belongs(tb, a[i]);
      NotInOther(a, b, i, a[i]);
    }
    if KeyOf(a[i]) in tb {
      assert Belongs(tb, tb[KeyOf(a[i])]);
      NotInOther(a, b, i, tb[KeyOf(a[i])]);
    }
  }

  lemma NotInOther(a: seq<MarketUpdate>, b: seq<MarketUpdate>, i: nat, x: MarketUpdate)
    requires Ascends(a) && Ascends(b) && i < |a| && i < |b| && a[..i] == b[..i] && Precedes(a[i], b[i])
    requires SamePlace(a[i], x) && x.kind in {ADD, CLEAR}
    ensures x !in b
  {
    forall j | 0 <= j < |b| ensures b[j] != x {
      if j < i {
        assert b[j] == b[..i][j] == a[..i][j] == a[j] && Precedes(a[j], a[i]);
      } else if j > i {
        assert Precedes(b[i], b[j]);
      }
    }
  }

  /** `mix` is `a` before position `k` and `b` from there on. */
  ghost predicate CutAt(mix: seq<MarketUpdate>, a: seq<MarketUpdate>, b: seq<MarketUpdate>, k: nat) {
    k <= |a| && k <= |b| && mix == a[..k] + b[k..]
  }

  /** Behind position `i`, everything in the mix comes after both bodies' entries there. */
  lemma MixFollows(mix: seq<MarketUpdate>, a: seq<MarketUpdate>, b: seq<MarketUpdate>, k: nat, i: nat, x: MarketUpdate)
    requires CutAt(mix, a, b, k) && Ascends(a) && Ascends(b) && i < k
    requires x == a[i] && (SamePlace(x, b[i]) || Precedes(x, b[i]))
    ensures forall j :: i < j < |mix| ==> Precedes(x, mix[j])
  {
    forall j | i < j < |mix| ensures Precedes(x, mix[j]) {
      assert if j < k then mix[j] == a[j] && Precedes(a[i], a[j]) else mix[j] == b[j] && Precedes(b[i], b[j]);
    }
  }

  ghost predicate AllPlain(us: seq<MarketUpdate>) {
    forall i :: 0 <= i < |us| ==> Plain(us[i])
  }

  lemma MixIsPlain(mix: seq<MarketUpdate>, a: seq<MarketUpdate>, ta: Table, b: seq<MarketUpdate>, tb: Table, k: nat)
    requires CutAt(mix, a, b, k) && IsBody(a, ta) && IsBody(b, tb)
    ensures AllPlain(mix)
  {
    forall j | 0 <= j < |mix| ensures Plain(mix[j]) {
      assert if j < k then mix[j] == a[j] && a[j] in a else mix[j] == b[j] && b[j] in b;
    }
  }

  /** An order of the first body that is not in the second table, or not the same there, stays. */
  lemma WrongOrderStays(t: Table, mix: seq<MarketUpdate>, a: seq<MarketUpdate>, b: seq<MarketUpdate>, k: nat, i: nat)
    requires CutAt(mix, a, b, k) && Ascends(a) && Ascends(b) && i < k && AllPlain(mix)
    requires a[i].kind == ADD && (SamePlace(a[i], b[i]) || Precedes(a[i], b[i]))
    ensures Get(FoldAll(t, mix), KeyOf(a[i])) == Some(a[i])
  {
    MixFollows(mix, a, b, k, i, a[i]);
    assert mix[i] == a[i];
    AddedLast(t, mix, i, KeyOf(a[i]));
  }

  /** A body that has an order at `i` has its ticker's clear before it. */
  lemma ClearIsBefore(b: seq<MarketUpdate>, tb: Table, i: nat) returns (c: nat)
    requires IsBody(b, tb) && i < |b| && b[i].kind == ADD && b[i].ticker < MAX_TICKERS
    ensures c < i && b[c] == ClearOf(b[i].ticker)
  {
    var clear := ClearOf(b[i].ticker);
    forall j | i < j < |b| ensures b[j] != clear {
      assert Precedes(b[i], b[j]);
    }
    assert Belongs(tb, clear);
    c :| 0 <= c < |b| && b[c] == clear;
  }

  /** An order of the second body that the first does not have, before the cut, goes missing. */
  lemma OrderGoesMissing(t: Table, mix: seq<MarketUpdate>, a: seq<MarketUpdate>, ta: Table, b: seq<MarketUpdate>,
                         tb: Table, k: nat, i: nat)
    requires CutAt(mix, a, b, k) && IsBody(a, ta) && IsBody(b, tb) && i < k && a[..i] == b[..i] && AllPlain(mix)
    requires b[i].kind == ADD && b[i].ticker < MAX_TICKERS && KeyOf(b[i]) !in ta
    ensures KeyOf(b[i]) !in FoldAll(t, mix)
  {
    var key := KeyOf(b[i]);
    var c := ClearIsBefore(b, tb, i);
    assert mix[c] == a[c] == a[..i][c] == b[..i][c] == b[c];
    forall j | 0 <= j < |mix| ensures !Adds(mix[j], key) {
      if j < k {
        assert mix[j] == a[j] && a[j] in a && Belongs(ta, a[j]);
      } else {
        assert mix[j] == b[j] && Precedes(b[i], b[j]);
      }
    }
    ClearedForGood(t, mix, c, key);
  }

  lemma {:induction false} FirstDifference<T>(a: seq<T>, b: seq<T>, k: nat) returns (i: nat)
    requires k <= |a| && k <= |b| && a[..k] != b[..k]
    ensures i < k && a[..i] == b[..i] && a[i] != b[i]
  {
    i := 0;
    while a[i] == b[i]
      invariant i < k && a[..i] == b[..i]
      decreases k - i
    {
      assert a[..i + 1] == a[..i] + [a[i]] && b[..i + 1] == b[..i] + [b[i]];
      i := i + 1;
    }
  }

  /** Two bodies that differ before the cut leave something else than the second table. */
  lemma DifferenceShows(t: Table, mix: seq<MarketUpdate>, a: seq<MarketUpdate>, ta: Table, b: seq<MarketUpdate>,
                        tb: Table, k: nat)
    requires CutAt(mix, a, b, k) && IsBody(a, ta) && IsBody(b, tb) && TableOk(ta) && TableOk(tb)
    requires a[..k] != b[..k]
    ensures FoldAll(t, mix) != tb
  {
    var i := FirstDifference(a, b, k);
    MixIsPlain(mix, a, ta, b, tb, k);
    assert a[i] in a && b[i] in b && Belongs(ta, a[i]) && Belongs(tb, b[i]);
    if Precedes(a[i], b[i]) {
      EarlierIsForeign(a, ta, b, tb, i);
      WrongOrderStays(t, mix, a, b, k, i);
    } else if Precedes(b[i], a[i]) {
      EarlierIsForeign(b, tb, a, ta, i);
      OrderGoesMissing(t, mix, a, ta, b, tb, k, i);
    } else {
      WrongOrderStays(t, mix, a, b, k, i);
    }
  }

  /**
   The body of one publication up to some position and of another from there on restores what the second
   published if and only if the two bodies agree up to that position.
   */
  lemma CutRestoresExactly(t: Table, ta: Table, tb: Table, a: seq<MarketUpdate>, b: seq<MarketUpdate>, k: nat)
    requires TableOk(ta) && TableOk(tb) && TickersInRange(t)
    requires a == SnapshotBody(ta) && b == SnapshotBody(tb) && k <= |a| && k <= |b|
    ensures FoldAll(t, a[..k] + b[k..]) == tb <==> a[..k] == b[..k]
  {
    if a[..k] == b[..k] {
      SplitJoins(b, k);
      SnapshotRestores(tb, t);
    } else {
      SnapshotIsBody(ta, a);
      SnapshotIsBody(tb, b);
      DifferenceShows(t, a[..k] + b[k..], a, ta, b, tb, k);
    }
  }

  // ---------- what a consumer makes of any whole snapshot ----------

  ghost predicate GenuineIncrementals(p: Published, steps: seq<Step>) {
    forall i :: 0 <= i < |steps| && !steps[i].fromSnapshot ==> GenuineIncremental(p, steps[i].message)
  }

  lemma {:induction false} QueueStaysGenuine(p: Published, q: Queue, steps: seq<Step>)
    requires GenuineQueue(p, q) && Ascending(q) && GenuineIncrementals(p, steps)
    ensures GenuineQueue(p, WithIncrementals(q, steps)) && Ascending(WithIncrementals(q, steps))
  {
    if steps != [] {
      var init := steps[..|steps| - 1];
      assert forall i :: 0 <= i < |init| ==> init[i] == steps[i];
      QueueStaysGenuine(p, q, init);
      PutKeepsOrder(WithIncrementals(q, init), steps[|steps| - 1].message);
    }
  }

  /** What was passed on means the snapshot on top of what it meant before, and then the updates after its number. */
  lemma RecoveredMeans(p: Published, c: Consumer, whole: Queue, q: Queue, m: nat)
    requires whole != [] && whole[|whole| - 1].update.orderId == m <= |p|
    requires GenuineQueue(p, q) && Ascending(q) && RunsFrom(q, m + 1)
    ensures var r := Recovered(c, whole, q);
            && m < r.exp <= |p| + 1
            && FoldAll(map[], r.out) == FoldAll(FoldAll(FoldAll(map[], c.out), Updates(whole)), p[m..r.exp - 1])
  {
    var s := CatchUp(q, m + 1);
    CatchUpExactly(q, m + 1);
    TakenFrom(p, q, m, s);
    FoldConcat(map[], c.out + Payload(Updates(whole)), Payload(s.taken));
    FoldConcat(map[], c.out, Payload(Updates(whole)));
    PayloadMeansTheSame(FoldAll(map[], c.out), Updates(whole));
    PayloadMeansTheSame(FoldAll(FoldAll(map[], c.out), Updates(whole)), s.taken);
  }

  /** What was passed on, if the recovery is complete, means the published state before the next expected number. */
  ghost predicate Right(p: Published, r: Consumer) {
    1 <= r.exp <= |p| + 1 && FoldAll(map[], r.out) == StateAt(p, r.exp - 1)
  }

  lemma RecoveredIsRight(p: Published, c: Consumer, whole: Queue, q: Queue, m: nat, r: Consumer)
    requires whole != [] && whole[|whole| - 1].update.orderId == m <= |p|
    requires GenuineQueue(p, q) && Ascending(q) && RunsFrom(q, m + 1) && r == Recovered(c, whole, q)
    ensures m < r.exp <= |p| + 1
    ensures Right(p, r)
            <==> AllSettled(FoldAll(FoldAll(map[], c.out), Updates(whole)), StateAt(p, m), p[m..r.exp - 1])
  {
    RecoveredMeans(p, c, whole, q, m);
    TakenMeans(p, m, r.exp - 1);
    AgreeExactly(FoldAll(FoldAll(map[], c.out), Updates(whole)), StateAt(p, m), p[m..r.exp - 1]);
  }

  /**
   A whole snapshot numbered as of `m`, wherever its messages are from and whatever genuine incremental messages
   come in between: the recovery ends if and only if what is queued runs on from `m`; and then what was passed on
   means the published state if and only if the updates after `m` that were taken settle every key in which the
   snapshot and the state at `m` differ.
   */
  ghost predicate RightExactly(p: Published, c: Consumer, r: Consumer, q: Queue, whole: Queue, m: nat)
    requires m <= |p|
  {
    && (!r.lost <==> RunsFrom(q, m + 1))
    && (!r.lost ==>
          && m < r.exp <= |p| + 1
          && (Right(p, r) <==>
              AllSettled(FoldAll(FoldAll(map[], c.out), Updates(whole)), StateAt(p, m), p[m..r.exp - 1])))
  }

  lemma RecoveredExactly(p: Published, c: Consumer, r: Consumer, q: Queue, whole: Queue, m: nat)
    requires whole != [] && whole[|whole| - 1].update.orderId == m <= |p| && GenuineQueue(p, q) && Ascending(q)
    requires !r.lost <==> RunsFrom(q, m + 1)
    requires !r.lost ==> r == Recovered(c, whole, q)
    ensures RightExactly(p, c, r, q, whole, m)
  {
    if !r.lost {
      RecoveredIsRight(p, c, whole, q, m, r);
    }
  }

  lemma WholeIsRightExactly(p: Published, c: Consumer, steps: seq<Step>, whole: seq<Sequenced>, m: nat)
    requires c.lost && QueuesInv(c) && GenuineQueue(p, c.incremental)
    requires InWhole(whole) && whole[|whole| - 1].update.orderId == m <= |p|
    requires steps != [] && SnapshotPart(steps) == whole && steps[|steps| - 1].fromSnapshot
    requires GenuineIncrementals(p, steps)
    ensures RightExactly(p, c, StepAll(c, steps), WithIncrementals(c.incremental, steps), whole, m)
  {
    QueueStaysGenuine(p, c.incremental, steps);
    PublicationRecovers(c, steps, whole);
    RecoveredExactly(p, c, StepAll(c, steps), WithIncrementals(c.incremental, steps), whole, m);
  }

  lemma LostRunIsGenuine(p: Published, arrivals: seq<Arrival>)
    requires WellPublished(p) && GenuineRun(p, arrivals) && RunConsumer(arrivals).lost
    ensures QueuesInv(RunConsumer(arrivals)) && GenuineQueue(p, RunConsumer(arrivals).incremental)
    ensures TickersInRange(FoldAll(map[], RunConsumer(arrivals).out))
  {
    RunIsSafe(p, arrivals);
    RunIsSteps(arrivals);
    StepsKeepQueuesInv(FRESH, Handled(arrivals));
  }

  /** After any genuine run that ends in recovery, any whole snapshot is taken exactly so. */
  lemma SnapshotIsRightExactly(p: Published, arrivals: seq<Arrival>, steps: seq<Step>, whole: seq<Sequenced>, m: nat)
    requires WellPublished(p) && GenuineRun(p, arrivals) && RunConsumer(arrivals).lost
    requires InWhole(whole) && whole[|whole| - 1].update.orderId == m <= |p|
    requires steps != [] && SnapshotPart(steps) == whole && steps[|steps| - 1].fromSnapshot
    requires GenuineIncrementals(p, steps)
    ensures var c := RunConsumer(arrivals);
            RightExactly(p, c, StepAll(c, steps), WithIncrementals(c.incremental, steps), whole, m)
  {
    LostRunIsGenuine(p, arrivals);
    WholeIsRightExactly(p, RunConsumer(arrivals), steps, whole, m);
  }

  // ---------- what a consumer makes of a mix ----------

  lemma {:induction false} NothingAbove(q: Queue, from: nat)
    requires forall i :: 0 <= i < |q| ==> q[i].num < from
    ensures CountFrom(q, from) == 0 && RunsFrom(q, from)
    decreases q
  {
    if q != [] {
      NothingAbove(q[1..], from);
    }
  }

  ghost predicate NoBoundsIn(us: seq<MarketUpdate>) {
    forall i :: 0 <= i < |us| ==> us[i].kind in {ADD, CLEAR}
  }

  function Bounded(n: nat, body: seq<MarketUpdate>, m: nat): seq<MarketUpdate> {
    [Bound(SNAPSHOT_START, n)] + body + [Bound(SNAPSHOT_END, m)]
  }

  lemma PublishedBody(p: Published, n: nat, a: seq<MarketUpdate>, x: seq<Sequenced>)
    requires WellPublished(p) && n <= |p| && a == SnapshotBody(StateAt(p, n)) && x == SnapshotAt(p, n)
    ensures NoBoundsIn(a) && x == Numbered(Bounded(n, a, n), 0)
  {
    StateOk(p, n);
    BodiesHaveNoBounds(StateAt(p, n), MAX_TICKERS);
  }

  lemma CutMessages(n: nat, a: seq<MarketUpdate>, m: nat, b: seq<MarketUpdate>, k: nat)
    requires k <= |a| && k <= |b|
    ensures Numbered(Bounded(n, a, n), 0)[..k + 1] + Numbered(Bounded(m, b, m), 0)[k + 1..]
         == Numbered(Bounded(n, a[..k] + b[k..], m), 0)
  {
  }

  /** The messages of the publication after `n` up to the `k`-th of its body, and of the one after `m` from there on. */
  ghost predicate MixOf(p: Published, n: nat, m: nat, k: nat, whole: seq<Sequenced>) {
    && n <= |p| && m <= |p| && k + 2 <= |SnapshotAt(p, n)| && k + 2 <= |SnapshotAt(p, m)|
    && whole == SnapshotAt(p, n)[..k + 1] + SnapshotAt(p, m)[k + 1..]
  }

  /** The mixed messages are one whole snapshot to the consumer. */
  lemma MixIsWhole(p: Published, n: nat, m: nat, k: nat, whole: seq<Sequenced>)
      returns (a: seq<MarketUpdate>, b: seq<MarketUpdate>)
    requires WellPublished(p) && MixOf(p, n, m, k, whole)
    ensures a == SnapshotBody(StateAt(p, n)) && b == SnapshotBody(StateAt(p, m)) && k <= |a| && k <= |b|
    ensures InWhole(whole) && whole[|whole| - 1].update.orderId == m && Updates(whole) == Bounded(n, a[..k] + b[k..], m)
    ensures SnapshotAt(p, n)[1..k + 1] == SnapshotAt(p, m)[1..k + 1] <==> a[..k] == b[..k]
  {
    a, b := SnapshotBody(StateAt(p, n)), SnapshotBody(StateAt(p, m));
    PublishedBody(p, n, a, SnapshotAt(p, n));
    PublishedBody(p, m, b, SnapshotAt(p, m));
    CutMessages(n, a, m, b, k);
    MixedIsWhole(n, a, m, b, k);
    SameMessages(n, a, m, b, k);
  }

  lemma MixedIsWhole(n: nat, a: seq<MarketUpdate>, m: nat, b: seq<MarketUpdate>, k: nat)
    requires k <= |a| && k <= |b| && NoBoundsIn(a) && NoBoundsIn(b)
    ensures var us := Bounded(n, a[..k] + b[k..], m);
            InWhole(Numbered(us, 0)) && Numbered(us, 0)[|us| - 1].update.orderId == m && Updates(Numbered(us, 0)) == us
  {
    NumberedIsWhole(Bounded(n, a[..k] + b[k..], m), a[..k] + b[k..], n, m);
  }

  lemma SameMessages(n: nat, a: seq<MarketUpdate>, m: nat, b: seq<MarketUpdate>, k: nat)
    requires k <= |a| && k <= |b|
    ensures Numbered(Bounded(n, a, n), 0)[1..k + 1] == Numbered(Bounded(m, b, m), 0)[1..k + 1] <==> a[..k] == b[..k]
  {
    var x, y := Numbered(Bounded(n, a, n), 0)[1..k + 1], Numbered(Bounded(m, b, m), 0)[1..k + 1];
    assert forall i :: 0 <= i < k ==> x[i] == Sequenced(i + 1, a[..k][i]) && y[i] == Sequenced(i + 1, b[..k][i]);
    if x == y {
      assert forall i :: 0 <= i < k ==> a[..k][i] == x[i].update == b[..k][i];
    }
  }

  lemma MixIsOne(p: Published, n: nat, m: nat, k: nat, whole: seq<Sequenced>)
    requires WellPublished(p) && MixOf(p, n, m, k, whole)
    ensures InWhole(whole) && whole[|whole| - 1].update.orderId == m <= |p|
  {
    var a, b := MixIsWhole(p, n, m, k, whole);
  }

  lemma BoundsMeanNothing(t: Table, us: seq<MarketUpdate>, body: seq<MarketUpdate>, n: nat, m: nat)
    requires us == [Bound(SNAPSHOT_START, n)] + body + [Bound(SNAPSHOT_END, m)]
    ensures FoldAll(t, us) == FoldAll(t, body)
  {
    var start := [Bound(SNAPSHOT_START, n)];
    FoldStep(t, start + body, Bound(SNAPSHOT_END, m));
    FoldConcat(t, start, body);
    FoldStep(t, [], start[0]);
    NothingBefore(start);
  }

  /** A mix on top of any table in range is the state at `m` if and only if the two publications agree up to the cut. */
  lemma MixRestoresExactly(p: Published, t: Table, n: nat, m: nat, k: nat, whole: seq<Sequenced>)
    requires WellPublished(p) && MixOf(p, n, m, k, whole) && TickersInRange(t)
    ensures FoldAll(t, Updates(whole)) == StateAt(p, m) <==> SnapshotAt(p, n)[1..k + 1] == SnapshotAt(p, m)[1..k + 1]
  {
    var a, b := MixIsWhole(p, n, m, k, whole);
    StateOk(p, n);
    StateOk(p, m);
    BoundsMeanNothing(t, Updates(whole), a[..k] + b[k..], n, m);
    CutRestoresExactly(t, StateAt(p, n), StateAt(p, m), a, b, k);
  }

  lemma SameIsSettled(t: Table, us: seq<MarketUpdate>)
    ensures AllSettled(t, t, us)
  {
  }

  lemma NothingSettles(s: Table, t: Table)
    ensures AllSettled(s, t, []) <==> s == t
  {
    AgreeExactly(s, t, []);
  }

  /**
   The same for a snapshot received from the publication after `n` up to some message and from the one after `m`
   from there on, its messages in any callbacks with any genuine incremental messages in between.
   If the two publications agree up to that message it is harmless, whatever is queued.
   */
  lemma MixIsHarmlessExactly(p: Published, arrivals: seq<Arrival>, steps: seq<Step>, n: nat, m: nat, k: nat,
                             whole: seq<Sequenced>)
    requires WellPublished(p) && GenuineRun(p, arrivals) && RunConsumer(arrivals).lost && MixOf(p, n, m, k, whole)
    requires steps != [] && SnapshotPart(steps) == whole && steps[|steps| - 1].fromSnapshot
    requires GenuineIncrementals(p, steps)
    ensures var c, r := RunConsumer(arrivals), StepAll(RunConsumer(arrivals), steps);
            && RightExactly(p, c, r, WithIncrementals(c.incremental, steps), whole, m)
            && (!r.lost && SnapshotAt(p, n)[1..k + 1] == SnapshotAt(p, m)[1..k + 1] ==> Right(p, r))
  {
    MixIsOne(p, n, m, k, whole);
    SnapshotIsRightExactly(p, arrivals, steps, whole, m);
    LostRunIsGenuine(p, arrivals);
    AgreeingMixIsRight(p, RunConsumer(arrivals), StepAll(RunConsumer(arrivals), steps),
                       WithIncrementals(RunConsumer(arrivals).incremental, steps), n, m, k, whole);
  }

  lemma AgreeingMixIsRight(p: Published, c: Consumer, r: Consumer, q: Queue, n: nat, m: nat, k: nat,
                           whole: seq<Sequenced>)
    requires WellPublished(p) && MixOf(p, n, m, k, whole) && TickersInRange(FoldAll(map[], c.out))
    requires RightExactly(p, c, r, q, whole, m)
    ensures !r.lost && SnapshotAt(p, n)[1..k + 1] == SnapshotAt(p, m)[1..k + 1] ==> Right(p, r)
    ensures !r.lost && r.exp == m + 1 ==>
              (Right(p, r) <==> SnapshotAt(p, n)[1..k + 1] == SnapshotAt(p, m)[1..k + 1])
  {
    MixRestoresExactly(p, FoldAll(map[], c.out), n, m, k, whole);
    if !r.lost {
      SameIsSettled(StateAt(p, m), p[m..r.exp - 1]);
      NothingSettles(FoldAll(FoldAll(map[], c.out), Updates(whole)), StateAt(p, m));
      assert p[m..m] == [];
    }
  }

  /** In one callback with nothing queued above `m`, the recovery ends, and the same holds. */
  lemma AloneEnds(p: Published, arrivals: seq<Arrival>, c: Consumer, r: Consumer, whole: seq<Sequenced>, m: nat)
    requires WellPublished(p) && GenuineRun(p, arrivals)
    requires InWhole(whole) && whole[|whole| - 1].update.orderId == m <= |p|
    requires c == RunConsumer(arrivals) && c.lost && r == RunConsumer(arrivals + [Arrival(true, whole)])
    requires forall i :: 0 <= i < |c.incremental| ==> c.incremental[i].num <= m
    ensures !r.lost && r.exp == m + 1 && RightExactly(p, c, r, c.incremental, whole, m)
    ensures TickersInRange(FoldAll(map[], c.out))
  {
    LostRunIsGenuine(p, arrivals);
    NothingAbove(c.incremental, m + 1);
    CallbackRecovers(arrivals, whole);
    RecoveredExactly(p, c, r, c.incremental, whole, m);
  }

  /**
   In one callback with nothing queued above `m`, such a snapshot ends the recovery, and what was passed on means
   the published state if and only if the two publications agree up to the cut.
   */
  lemma MixAloneIsHarmlessExactly(p: Published, arrivals: seq<Arrival>, n: nat, m: nat, k: nat, whole: seq<Sequenced>,
                                  c: Consumer, r: Consumer)
    requires WellPublished(p) && GenuineRun(p, arrivals) && MixOf(p, n, m, k, whole)
    requires c == RunConsumer(arrivals) && c.lost && r == RunConsumer(arrivals + [Arrival(true, whole)])
    requires forall i :: 0 <= i < |c.incremental| ==> c.incremental[i].num <= m
    ensures !r.lost && r.exp == m + 1
    ensures Right(p, r) <==> SnapshotAt(p, n)[1..k + 1] == SnapshotAt(p, m)[1..k + 1]
  {
    MixIsOne(p, n, m, k, whole);
    AloneEnds(p, arrivals, c, r, whole, m);
    AgreeingMixIsRight(p, c, r, c.incremental, n, m, k, whole);
  }

  // ---------- a run in which an order goes missing ----------

  const FIRST_ORDER: MarketUpdate := MarketUpdate(ADD, 1, 0, BUY, 10, 5, 1)

  lemma {:induction false} NothingStored(t: Table, ticker: nat, n: nat)
    requires forall k :: k in t ==> k.ticker != ticker
    ensures Stored(t, ticker, n) == []
  {
    if n > 0 {
      NothingStored(t, ticker, n - 1);
    }
  }

  lemma {:induction false} OneStored(n: nat)
    requires n >= 2
    ensures Stored(map[Key(0, 1) := FIRST_ORDER], 0, n) == [FIRST_ORDER]
  {
    var t: Table := map[Key(0, 1) := FIRST_ORDER];
    if n == 2 {
      assert Stored(t, 0, 1) == [];
    } else {
      OneStored(n - 1);
    }
  }

  function ClearsOf(from: nat, to: nat): (us: seq<MarketUpdate>)
    requires from <= to
    ensures |us| == to - from && forall i :: 0 <= i < |us| ==> us[i] == ClearOf(from + i)
  {
    seq(to - from, i requires 0 <= i < to - from => ClearOf(from + i))
  }

  lemma {:induction false} EmptyBodies(n: nat)
    ensures Bodies(map[], n) == ClearsOf(0, n)
  {
    if n > 0 {
      EmptyBodies(n - 1);
      NothingStored(map[], n - 1, MAX_ORDER_IDS);
      assert ClearsOf(0, n) == ClearsOf(0, n - 1) + [ClearOf(n - 1)];
    }
  }

  lemma {:induction false} OneOrderBodies(n: nat)
    requires n >= 1
    ensures Bodies(map[Key(0, 1) := FIRST_ORDER], n) == [ClearOf(0), FIRST_ORDER] + ClearsOf(1, n)
  {
    var t: Table := map[Key(0, 1) := FIRST_ORDER];
    if n == 1 {
      OneStored(MAX_ORDER_IDS);
      assert Bodies(t, 0) == [];
    } else {
      OneOrderBodies(n - 1);
      NothingStored(t, n - 1, MAX_ORDER_IDS);
      assert ClearsOf(1, n) == ClearsOf(1, n - 1) + [ClearOf(n - 1)];
    }
  }

  lemma FirstTwoPublications(p: Published)
    requires p == [FIRST_ORDER]
    ensures WellPublished(p) && StateAt(p, 0) == map[] && StateAt(p, 1) == map[Key(0, 1) := FIRST_ORDER]
    ensures SnapshotBody(StateAt(p, 0)) == ClearsOf(0, 8)
    ensures SnapshotBody(StateAt(p, 1)) == [ClearOf(0), FIRST_ORDER] + ClearsOf(1, 8)
  {
    assert p[..0] == [] && p[..1] == [] + [FIRST_ORDER];
    FoldStep(map[], [], FIRST_ORDER);
    EmptyBodies(MAX_TICKERS);
    OneOrderBodies(MAX_TICKERS);
  }

  lemma OneMessage(arrivals: seq<Arrival>, m: Sequenced)
    ensures RunConsumer(arrivals + [Arrival(false, [m])]) == Receive(RunConsumer(arrivals), false, m)
  {
    assert (arrivals + [Arrival(false, [m])])[..|arrivals|] == arrivals && [m][..0] == [];
    assert ReceiveAll(RunConsumer(arrivals), false, []) == RunConsumer(arrivals);
  }

  /** The first message twice: the second time it starts a recovery. */
  lemma RepeatStartsRecovery(m: Sequenced)
    requires m.num == 1
    ensures RunConsumer([Arrival(false, [m]), Arrival(false, [m])]) == Consumer(2, true, [], [m], [m.update])
  {
    var one := Arrival(false, [m]);
    OneMessage([], m);
    OneMessage([one], m);
    assert [] + [one] == [one] && [one] + [one] == [one, one];
    assert Receive(FRESH, false, m) == Consumer(2, false, [], [], [] + [m.update]);
    assert Put([], m) == [m];
  }

  lemma OneGenuine(p: Published, arrivals: seq<Arrival>, m: Sequenced)
    requires GenuineRun(p, arrivals) && GenuineIncremental(p, m)
    ensures GenuineRun(p, arrivals + [Arrival(false, [m])])
  {
    assert (arrivals + [Arrival(false, [m])])[..|arrivals|] == arrivals && [m][..0] == [];
    assert AllGenuine(p, RunConsumer(arrivals), false, []);
    assert AllGenuine(p, RunConsumer(arrivals), false, [m]);
  }

  lemma RepeatIsGenuine(p: Published, m: Sequenced)
    requires GenuineIncremental(p, m)
    ensures GenuineRun(p, [Arrival(false, [m]), Arrival(false, [m])])
  {
    var one := Arrival(false, [m]);
    OneGenuine(p, [], m);
    OneGenuine(p, [one], m);
    assert [] + [one] == [one] && [one] + [one] == [one, one];
  }

  /**
   One order is published and its message repeated, which starts a recovery; the snapshot comes up to
   number 8 from before that order and from number 9 on from after it. The recovery completes without it.
   */
  lemma MixedPublicationsMislead()
    ensures var p, m := [FIRST_ORDER], Sequenced(1, FIRST_ORDER);
            && WellPublished(p) && GenuineRun(p, [Arrival(false, [m]), Arrival(false, [m])])
            && |SnapshotAt(p, 0)| >= 10 && |SnapshotAt(p, 1)| >= 10
            && var mix := SnapshotAt(p, 0)[..9] + SnapshotAt(p, 1)[9..];
               var r := RunConsumer([Arrival(false, [m]), Arrival(false, [m]), Arrival(true, mix)]);
               !r.lost && r.exp == 2 && Key(0, 1) in StateAt(p, 1) && Key(0, 1) !in FoldAll(map[], r.out)
  {
    var p, m := [FIRST_ORDER], Sequenced(1, FIRST_ORDER);
    FirstTwoPublications(p);
    RepeatIsGenuine(p, m);
    BothHaveTen(p);
    OrderIsSkipped(p, m, SnapshotAt(p, 0)[..9] + SnapshotAt(p, 1)[9..]);
  }

  lemma BothHaveTen(p: Published)
    requires p == [FIRST_ORDER]
    ensures |SnapshotAt(p, 0)| >= 10 && |SnapshotAt(p, 1)| >= 10
  {
    FirstTwoPublications(p);
    PublishedBody(p, 0, SnapshotBody(StateAt(p, 0)), SnapshotAt(p, 0));
    PublishedBody(p, 1, SnapshotBody(StateAt(p, 1)), SnapshotAt(p, 1));
  }

  lemma OrderIsSkipped(p: Published, m: Sequenced, mix: seq<Sequenced>)
    requires p == [FIRST_ORDER] && m == Sequenced(1, FIRST_ORDER) && MixOf(p, 0, 1, 8, mix)
    ensures var r := RunConsumer([Arrival(false, [m]), Arrival(false, [m]), Arrival(true, mix)]);
            !r.lost && r.exp == 2 && Key(0, 1) !in FoldAll(map[], r.out)
  {
    var c := Consumer(2, true, [], [m], [m.update]);
    NothingAbove([m], 2);
    FirstOrderIsSkipped(p, c, m, mix);
    RepeatRecovers(m, mix, c);
  }

  lemma RepeatRecovers(m: Sequenced, mix: seq<Sequenced>, c: Consumer)
    requires m.num == 1 && c == Consumer(2, true, [], [m], [m.update])
    requires InWhole(mix) && mix[|mix| - 1].update.orderId == 1 && RunsFrom([m], 2)
    ensures RunConsumer([Arrival(false, [m]), Arrival(false, [m]), Arrival(true, mix)]) == Recovered(c, mix, [m])
  {
    var before := [Arrival(false, [m]), Arrival(false, [m])];
    RepeatStartsRecovery(m);
    CallbackRecovers(before, mix);
    assert before + [Arrival(true, mix)] == [Arrival(false, [m]), Arrival(false, [m]), Arrival(true, mix)];
  }

  lemma FirstOrderIsSkipped(p: Published, c: Consumer, m: Sequenced, mix: seq<Sequenced>)
    requires p == [FIRST_ORDER] && m == Sequenced(1, FIRST_ORDER) && MixOf(p, 0, 1, 8, mix) && RunsFrom([m], 2)
    ensures InWhole(mix) && mix[|mix| - 1].update.orderId == 1
    ensures Recovered(c, mix, [m]).exp == 2 && Key(0, 1) !in FoldAll(map[], Recovered(c, mix, [m]).out)
  {
    FirstTwoPublications(p);
    var a, b := MixIsWhole(p, 0, 1, 8, mix);
    RecoveredMeans(p, c, mix, [m], 1);
    BoundsMeanNothing(FoldAll(map[], c.out), Updates(mix), a[..8] + b[8..], 0, 1);
    FirstOrderIsLost(c.out, a, b);
    assert p[1..1] == [];
  }

  lemma FirstOrderIsLost(out: seq<MarketUpdate>, a: seq<MarketUpdate>, b: seq<MarketUpdate>)
    requires a == ClearsOf(0, 8) && b == [ClearOf(0), FIRST_ORDER] + ClearsOf(1, 8)
    ensures Key(0, 1) !in FoldAll(FoldAll(map[], out), a[..8] + b[8..])
  {
    var mix := a[..8] + b[8..];
    assert mix[0] == ClearOf(0) && b[8..] == [ClearOf(7)];
    ClearedForGood(FoldAll(map[], out), mix, 0, Key(0, 1));
  }
}

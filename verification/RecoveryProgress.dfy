/**
 Recovery makes progress: whatever the queues of a consumer in recovery hold, one publication received
 whole and in order ends the recovery exactly when the queued incremental messages run on from it.
 */
module RecoveryProgress {
  import opened MarketTypes
  import opened MarketFeed
  import opened RecoveryProtocol
  import opened RecoverySafety

  // ---------- what the queues hold between messages ----------

  /** Nothing, or a start and what follows it without a gap, up to before the end. */
  ghost predicate Collecting(q: Queue) {
    q == [] || (Contiguous(q) && q[0].update.kind == SNAPSHOT_START && q[|q| - 1].update.kind != SNAPSHOT_END)
  }

  ghost predicate QueuesInv(c: Consumer) {
    c.lost ==> Ascending(c.incremental) && Collecting(c.snapshot)
  }

  lemma ReceiveKeepsQueuesInv(c: Consumer, fromSnapshot: bool, m: Sequenced)
    requires QueuesInv(c)
    ensures QueuesInv(Receive(c, fromSnapshot, m))
  {
    if (c.lost || m.num != c.exp) && !fromSnapshot {
      PutKeepsOrder(InRecovery(c).incremental, m);
    }
  }

  lemma {:induction false} StepsKeepQueuesInv(c: Consumer, steps: seq<Step>)
    requires QueuesInv(c)
    ensures QueuesInv(StepAll(c, steps))
  {
    if steps != [] {
      var init, last := steps[..|steps| - 1], steps[|steps| - 1];
      StepsKeepQueuesInv(c, init);
      ReceiveKeepsQueuesInv(StepAll(c, init), last.fromSnapshot, last.message);
    }
  }

  // ---------- one publication comes in ----------

  /** A start numbered 0, an end, and no other end in between. */
  ghost predicate InWhole(whole: seq<Sequenced>) {
    WholeSnapshot(whole) && forall i :: 0 <= i < |whole| - 1 ==> whole[i].update.kind != SNAPSHOT_END
  }

  function SnapshotPart(steps: seq<Step>): seq<Sequenced> {
    if steps == [] then []
    else if steps[|steps| - 1].fromSnapshot then SnapshotPart(steps[..|steps| - 1]) + [steps[|steps| - 1].message]
    else SnapshotPart(steps[..|steps| - 1])
  }

  /** The incremental queue with the incremental messages among the steps put in. */
  function WithIncrementals(q: Queue, steps: seq<Step>): Queue {
    if steps == [] then q
    else if steps[|steps| - 1].fromSnapshot then WithIncrementals(q, steps[..|steps| - 1])
    else Put(WithIncrementals(q, steps[..|steps| - 1]), steps[|steps| - 1].message)
  }

  lemma {:induction false} WithIncrementalsAscends(q: Queue, steps: seq<Step>)
    requires Ascending(q)
    ensures Ascending(WithIncrementals(q, steps))
  {
    if steps != [] {
      WithIncrementalsAscends(q, steps[..|steps| - 1]);
      PutKeepsOrder(WithIncrementals(q, steps[..|steps| - 1]), steps[|steps| - 1].message);
    }
  }

  lemma {:induction false} PutLast(q: Queue, m: Sequenced)
    requires forall i :: 0 <= i < |q| ==> q[i].num < m.num
    ensures Put(q, m) == q + [m]
  {
    if q != [] {
      PutLast(q[1..], m);
    }
  }

  /** Number 0 starts the queue afresh, whatever was in it. */
  lemma FirstStartsAfresh(q: Queue, m: Sequenced)
    requires Collecting(q) && m.num == 0
    ensures WithSnapshot(q, m) == [m]
  {
    if q != [] {
      assert Queued(q, q[0].num);
    }
  }

  lemma NextIsAppended(q: Queue, m: Sequenced)
    requires Contiguous(q) && m.num == |q|
    ensures WithSnapshot(q, m) == q + [m]
  {
    PutLast(q, m);
  }

  lemma PartIsQueued(whole: seq<Sequenced>, q: Queue, j: nat)
    requires InWhole(whole) && j < |whole| && (if j == 0 then Collecting(q) else q == whole[..j])
    ensures WithSnapshot(q, whole[j]) == whole[..j + 1]
    ensures j + 1 < |whole| ==> Collecting(whole[..j + 1])
  {
    if j == 0 {
      FirstStartsAfresh(q, whole[0]);
    } else {
      NextIsAppended(q, whole[j]);
      assert whole[..j + 1] == whole[..j] + [whole[j]];
    }
  }

  /** The state with this snapshot queue, as long as that is not complete. */
  lemma StillCollecting(c: Consumer, fromSnapshot: bool, m: Sequenced)
    requires c.lost && Collecting(if fromSnapshot then WithSnapshot(c.snapshot, m) else c.snapshot)
    ensures Receive(c, fromSnapshot, m)
         == if fromSnapshot then c.(snapshot := WithSnapshot(c.snapshot, m))
            else c.(incremental := Put(c.incremental, m))
  {
  }

  /** The state after the first `j` messages of a publication. */
  function Collected(c: Consumer, steps: seq<Step>, whole: seq<Sequenced>, j: nat): Consumer
    requires j <= |whole|
  {
    c.(snapshot := if j == 0 then c.snapshot else whole[..j], incremental := WithIncrementals(c.incremental, steps))
  }

  /** Up to its end the publication is collected, with the incremental messages in between queued. */
  lemma {:induction false} Collects(c: Consumer, steps: seq<Step>, whole: seq<Sequenced>, j: nat)
    requires c.lost && Collecting(c.snapshot) && InWhole(whole)
    requires j < |whole| && SnapshotPart(steps) == whole[..j]
    ensures StepAll(c, steps) == Collected(c, steps, whole, j) && Collecting(StepAll(c, steps).snapshot)
  {
    if steps == [] {
      assert whole[..j] == [];
    } else {
      var init, last := steps[..|steps| - 1], steps[|steps| - 1];
      if last.fromSnapshot {
        assert SnapshotPart(init) == whole[..j][..j - 1] == whole[..j - 1];
        assert last.message == whole[..j][j - 1];
        Collects(c, init, whole, j - 1);
        PartIsQueued(whole, StepAll(c, init).snapshot, j - 1);
        StillCollecting(StepAll(c, init), true, last.message);
      } else {
        Collects(c, init, whole, j);
        StillCollecting(StepAll(c, init), false, last.message);
      }
    }
  }

  /** A whole snapshot and the incremental queue that runs on from it, spliced. */
  ghost function Recovered(c: Consumer, whole: Queue, q: Queue): Consumer
    requires whole != []
  {
    var from := whole[|whole| - 1].update.orderId + 1;
    Consumer(from + CountFrom(q, from), false, [], [],
             c.out + Payload(Updates(whole)) + Payload(CatchUp(q, from).taken))
  }

  lemma WholeRecovers(c: Consumer, whole: Queue, q: Queue)
    requires c.lost && WholeSnapshot(whole) && Ascending(q) && c.snapshot == whole && c.incremental == q
    ensures !CheckSync(c).lost <==> RunsFrom(q, whole[|whole| - 1].update.orderId + 1)
    ensures !CheckSync(c).lost ==> CheckSync(c) == Recovered(c, whole, q)
  {
    CatchUpExactly(q, whole[|whole| - 1].update.orderId + 1);
  }

  /**
   From a consumer in recovery, whatever its queues hold: one publication whole and in order, with any
   incremental messages in between, ends the recovery exactly when the queued incremental messages run on from it.
   */
  lemma PublicationRecovers(c: Consumer, steps: seq<Step>, whole: seq<Sequenced>)
    requires c.lost && QueuesInv(c) && InWhole(whole)
    requires steps != [] && SnapshotPart(steps) == whole && steps[|steps| - 1].fromSnapshot
    ensures var q := WithIncrementals(c.incremental, steps);
            && (!StepAll(c, steps).lost <==> RunsFrom(q, whole[|whole| - 1].update.orderId + 1))
            && (!StepAll(c, steps).lost ==> StepAll(c, steps) == Recovered(c, whole, q))
  {
    var init, last, j := steps[..|steps| - 1], steps[|steps| - 1], |whole| - 1;
    assert SnapshotPart(init) == whole[..j] && last.message == whole[j];
    Collects(c, init, whole, j);
    PartIsQueued(whole, StepAll(c, init).snapshot, j);
    assert whole[..|whole|] == whole;
    WithIncrementalsAscends(c.incremental, steps);
    WholeRecovers(StepAll(c, init).(snapshot := whole), whole, WithIncrementals(c.incremental, steps));
  }

  /** The same after any run of callbacks that ends in recovery. */
  lemma RunRecovers(arrivals: seq<Arrival>, steps: seq<Step>, whole: seq<Sequenced>)
    requires RunConsumer(arrivals).lost && InWhole(whole)
    requires steps != [] && SnapshotPart(steps) == whole && steps[|steps| - 1].fromSnapshot
    ensures var c := RunConsumer(arrivals);
            var q := WithIncrementals(c.incremental, steps);
            && (!StepAll(c, steps).lost <==> RunsFrom(q, whole[|whole| - 1].update.orderId + 1))
            && (!StepAll(c, steps).lost ==> StepAll(c, steps) == Recovered(c, whole, q))
  {
    RunIsSteps(arrivals);
    StepsKeepQueuesInv(FRESH, Handled(arrivals));
    PublicationRecovers(RunConsumer(arrivals), steps, whole);
  }

  // ---------- what recovery has queued ----------

  lemma {:induction false} QueuedBefore(q: Queue, a: seq<Step>, b: seq<Step>)
    ensures WithIncrementals(q, a + b) == WithIncrementals(WithIncrementals(q, a), b)
  {
    if b == [] {
      assert a + b == a;
    } else {
      QueuedBefore(q, a, b[..|b| - 1]);
      assert (a + b)[..|a + b| - 1] == a + b[..|b| - 1];
    }
  }

  /**
   While recovery goes on, a message that does not end it is queued if it is incremental, and the queue only grows so.
   */
  lemma LostQueues(c: Consumer, fromSnapshot: bool, m: Sequenced)
    requires Receive(c, fromSnapshot, m).lost
    ensures Receive(c, fromSnapshot, m).incremental
         == if fromSnapshot then InRecovery(c).incremental else Put(InRecovery(c).incremental, m)
  {
  }

  /**
   From the message that starts recovery on, that message included, and as long as recovery lasts, every
   incremental message is queued and nothing else is.
   */
  lemma {:induction false} LostQueuesEverything(c: Consumer, steps: seq<Step>)
    requires !c.lost && steps != [] && forall k :: 0 < k <= |steps| ==> StepAll(c, steps[..k]).lost
    ensures StepAll(c, steps).incremental == WithIncrementals([], steps)
  {
    var init, last := steps[..|steps| - 1], steps[|steps| - 1];
    assert steps[..|steps|] == steps;
    LostQueues(StepAll(c, init), last.fromSnapshot, last.message);
    if init != [] {
      forall k | 0 < k <= |init| ensures StepAll(c, init[..k]).lost {
        assert init[..k] == steps[..k];
      }
      assert init[..|init|] == init;
      LostQueuesEverything(c, init);
    }
  }

  /**
   From the gap to the end of recovery: whatever came since the message that showed the gap, a publication received
   whole and in order ends the recovery if and only if all incremental messages since then, the first one included,
   run on from it; and the next number expected is one past them.
   */
  lemma GapToRecovery(c: Consumer, before: seq<Step>, steps: seq<Step>, whole: seq<Sequenced>)
    requires !c.lost && before != [] && forall k :: 0 < k <= |before| ==> StepAll(c, before[..k]).lost
    requires InWhole(whole) && steps != [] && SnapshotPart(steps) == whole && steps[|steps| - 1].fromSnapshot
    ensures var q, from := WithIncrementals([], before + steps), whole[|whole| - 1].update.orderId + 1;
            var r := StepAll(c, before + steps);
            && (!r.lost <==> RunsFrom(q, from))
            && (!r.lost ==> r.exp == from + CountFrom(q, from))
  {
    GapIsLost(c, before);
    QueuedBefore([], before, steps);
    StepConcat(c, before, steps);
    EndsExactly(StepAll(c, before), steps, whole, WithIncrementals([], before + steps), StepAll(c, before + steps));
  }

  lemma GapIsLost(c: Consumer, before: seq<Step>)
    requires !c.lost && before != [] && forall k :: 0 < k <= |before| ==> StepAll(c, before[..k]).lost
    ensures var l := StepAll(c, before); l.lost && QueuesInv(l) && l.incremental == WithIncrementals([], before)
  {
    assert before[..|before|] == before;
    LostQueuesEverything(c, before);
    StepsKeepQueuesInv(c, before);
  }

  lemma EndsExactly(l: Consumer, steps: seq<Step>, whole: seq<Sequenced>, q: Queue, r: Consumer)
    requires l.lost && QueuesInv(l) && InWhole(whole)
    requires steps != [] && SnapshotPart(steps) == whole && steps[|steps| - 1].fromSnapshot
    requires q == WithIncrementals(l.incremental, steps) && r == StepAll(l, steps)
    ensures var from := whole[|whole| - 1].update.orderId + 1;
            (!r.lost <==> RunsFrom(q, from)) && (!r.lost ==> r.exp == from + CountFrom(q, from))
  {
    PublicationRecovers(l, steps, whole);
  }

  // ---------- when the queue does not run on ----------

  predicate HasNumber(q: Queue, num: nat) {
    exists i :: 0 <= i < |q| && q[i].num == num
  }

  /** An incomplete splice stops at the first number that is missing: all before it are queued, and one beyond it is. */
  lemma {:induction false} CatchUpStopsAtGap(q: Queue, exp: nat)
    requires Ascending(q) && !CatchUp(q, exp).complete
    ensures var gap := CatchUp(q, exp).exp;
            && gap >= exp && !HasNumber(q, gap) && (forall num :: exp <= num < gap ==> HasNumber(q, num))
            && exists i :: 0 <= i < |q| && q[i].num > gap
    decreases |q|
  {
    var rest := q[1..];
    var gap := CatchUp(q, exp).exp;
    if q[0].num > exp {
      assert q[0].num > gap;
    } else {
      CatchUpStopsAtGap(rest, if q[0].num < exp then exp else exp + 1);
      forall num | exp <= num < gap ensures HasNumber(q, num) {
        if num == q[0].num {
          assert q[0].num == num;
        } else {
          assert HasNumber(rest, num);
          var i :| 0 <= i < |rest| && rest[i].num == num;
          assert q[i + 1].num == num;
        }
      }
      assert !HasNumber(rest, gap);
      forall i | 0 <= i < |q| ensures q[i].num != gap {
        if i > 0 {
          assert rest[i - 1] == q[i];
        }
      }
      var i :| 0 <= i < |rest| && rest[i].num > gap;
      assert q[i + 1].num > gap;
    }
  }

  /**
   A recovery that a whole snapshot cannot end drops the snapshot, keeps the queue, and expects the missing number.
   */
  lemma FailedRecovery(c: Consumer)
    requires c.lost && WholeSnapshot(c.snapshot) && Ascending(c.incremental) && CheckSync(c).lost
    ensures CheckSync(c).snapshot == [] && CheckSync(c).incremental == c.incremental && CheckSync(c).out == c.out
    ensures !HasNumber(c.incremental, CheckSync(c).exp)
    ensures exists i :: 0 <= i < |c.incremental| && c.incremental[i].num > CheckSync(c).exp
  {
    CatchUpStopsAtGap(c.incremental, c.snapshot[|c.snapshot| - 1].update.orderId + 1);
  }

  /**
   What is left of a buffer of snapshot messages once recovery is over: one under the number expected next is
   dropped, and any other starts a recovery of its own, with that message queued if it begins a snapshot.
   */
  lemma LeftoverRestartsRecovery(c: Consumer, m: Sequenced)
    requires !c.lost
    ensures var r := Receive(c, true, m);
            && r.lost == (m.num != c.exp) && r.exp == c.exp && r.out == c.out
            && (r.lost ==> r.incremental == [])
            && (r.lost ==> r.snapshot == if m.num == 0 && m.update.kind == SNAPSHOT_START then [m] else [])
  {
    assert Put([], m) == [m];
    assert Contiguous([m]) <==> [m][0].num == 0;
  }

  // ---------- a publication of the stream ----------

  /** Messages numbered from zero, with bounds around a body that has none. */
  lemma NumberedIsWhole(us: seq<MarketUpdate>, body: seq<MarketUpdate>, n: nat, m: nat)
    requires us == [Bound(SNAPSHOT_START, n)] + body + [Bound(SNAPSHOT_END, m)]
    requires forall i :: 0 <= i < |body| ==> body[i].kind in {ADD, CLEAR}
    ensures InWhole(Numbered(us, 0)) && Numbered(us, 0)[|us| - 1].update.orderId == m
    ensures Updates(Numbered(us, 0)) == us
  {
    assert forall i :: 0 < i < |us| - 1 ==> us[i] == body[i - 1];
    assert us[0].kind == SNAPSHOT_START && us[|us| - 1] == Bound(SNAPSHOT_END, m);
  }

  lemma PublicationIsWhole(t: Table, n: nat)
    requires TableOk(t)
    ensures InWhole(Snapshot(t, n)) && Snapshot(t, n)[|Snapshot(t, n)| - 1].update.orderId == n
  {
    BodiesHaveNoBounds(t, MAX_TICKERS);
    NumberedIsWhole(SnapshotUpdates(t, n), SnapshotBody(t), n, n);
  }

  /** A callback's messages, all off the snapshot socket. */
  lemma {:induction false} AllSnapshot(q: Queue, ms: seq<Sequenced>)
    ensures SnapshotPart(StepsOf(true, ms)) == ms && WithIncrementals(q, StepsOf(true, ms)) == q
  {
    if ms != [] {
      AllSnapshot(q, ms[..|ms| - 1]);
      assert StepsOf(true, ms)[..|ms| - 1] == StepsOf(true, ms[..|ms| - 1]);
    }
  }

  /** One callback with a whole snapshot in it, after any run that ends in recovery. */
  lemma CallbackRecovers(arrivals: seq<Arrival>, whole: seq<Sequenced>)
    requires RunConsumer(arrivals).lost && InWhole(whole)
    ensures var c, r := RunConsumer(arrivals), RunConsumer(arrivals + [Arrival(true, whole)]);
            && (!r.lost <==> RunsFrom(c.incremental, whole[|whole| - 1].update.orderId + 1))
            && (!r.lost ==> r == Recovered(c, whole, c.incremental))
  {
    assert (arrivals + [Arrival(true, whole)])[..|arrivals|] == arrivals;
    BufferIsSteps(RunConsumer(arrivals), true, whole);
    AllSnapshot(RunConsumer(arrivals).incremental, whole);
    RunRecovers(arrivals, StepsOf(true, whole), whole);
  }

  lemma PublishedIsWhole(p: Published, n: nat, whole: seq<Sequenced>)
    requires WellPublished(p) && n <= |p| && whole == SnapshotAt(p, n)
    ensures InWhole(whole) && whole[|whole| - 1].update.orderId == n
  {
    StateOk(p, n);
    PublicationIsWhole(StateAt(p, n), n);
  }

  /** The publication after message `n` ends any recovery whose queued messages above `n` run on from it. */
  lemma PublishedSnapshotRecovers(p: Published, arrivals: seq<Arrival>, n: nat, whole: seq<Sequenced>)
    requires WellPublished(p) && n <= |p| && whole == SnapshotAt(p, n) && RunConsumer(arrivals).lost
    ensures !RunConsumer(arrivals + [Arrival(true, whole)]).lost <==> RunsFrom(RunConsumer(arrivals).incremental, n + 1)
  {
    PublishedIsWhole(p, n, whole);
    CallbackRecovers(arrivals, whole);
  }
}

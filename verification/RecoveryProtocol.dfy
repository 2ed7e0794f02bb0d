/**
 The consumer's recovery protocol: gap detection, the two queues, and the splice of a snapshot
 with the incremental messages that follow it.
 */
module RecoveryProtocol {
  import opened MarketTypes
  import opened Sequences
  import opened MarketFeed

  // ---------- an ordered map from sequence number to update, as its entries in order ----------

  type Queue = seq<Sequenced>

  ghost predicate Ascending(q: Queue) {
    forall i, j :: 0 <= i < j < |q| ==> q[i].num < q[j].num
  }

  predicate Queued(q: Queue, num: nat) {
    exists i :: 0 <= i < |q| && q[i].num == num
  }

  /** Inserts an entry, or replaces the one under its number. */
  function Put(q: Queue, m: Sequenced): (r: Queue)
    ensures r != []
  {
    if q == [] || m.num < q[0].num then [m] + q
    else if m.num == q[0].num then [m] + q[1..]
    else [q[0]] + Put(q[1..], m)
  }

  lemma {:induction false} PutKeepsOrder(q: Queue, m: Sequenced)
    requires Ascending(q)
    ensures Ascending(Put(q, m))
    ensures forall x :: x in Put(q, m) <==> x == m || (x in q && x.num != m.num)
  {
    if q != [] && m.num > q[0].num {
      PutKeepsOrder(q[1..], m);
      var rest := Put(q[1..], m);
      assert forall i :: 0 <= i < |rest| ==> rest[i] in rest;
      forall i | 0 <= i < |rest| ensures q[0].num < rest[i].num {
        assert rest[i] == m || rest[i] in q[1..];
      }
    }
  }

  // ---------- the state and its steps ----------

  datatype Consumer = Consumer(exp: nat, lost: bool, snapshot: Queue, incremental: Queue, out: seq<MarketUpdate>)

  const FRESH: Consumer := Consumer(1, false, [], [], [])

  /** The bounds of a snapshot are not passed on. */
  function Payload(us: seq<MarketUpdate>): seq<MarketUpdate> {
    if us == [] then []
    else if us[|us| - 1].kind in {SNAPSHOT_START, SNAPSHOT_END} then Payload(us[..|us| - 1])
    else Payload(us[..|us| - 1]) + [us[|us| - 1]]
  }

  function Updates(q: Queue): (us: seq<MarketUpdate>)
    ensures |us| == |q| && forall i :: 0 <= i < |q| ==> us[i] == q[i].update
  {
    seq(|q|, i requires 0 <= i < |q| => q[i].update)
  }

  /** The numbers are 0, 1, 2 and so on. */
  ghost predicate Contiguous(q: Queue) {
    forall i :: 0 <= i < |q| ==> q[i].num == i
  }

  /** The result of going through the incremental queue: whether there is no gap, the next number, what was taken. */
  datatype Splice = Splice(complete: bool, exp: nat, taken: seq<MarketUpdate>)

  /** Old numbers are skipped; from the expected one on they must follow each other. */
  function CatchUp(q: Queue, exp: nat): Splice {
    if q == [] then Splice(true, exp, [])
    else if q[0].num < exp then CatchUp(q[1..], exp)
    else if q[0].num != exp then Splice(false, exp, [])
    else
      var rest := CatchUp(q[1..], exp + 1);
      rest.(taken := [q[0].update] + rest.taken)
  }

  /** Tries to recover from what is queued. */
  ghost function CheckSync(c: Consumer): Consumer {
    if c.snapshot == [] then c
    else if c.snapshot[0].update.kind != SNAPSHOT_START || !Contiguous(c.snapshot) then c.(snapshot := [])
    else
      var last := c.snapshot[|c.snapshot| - 1].update;
      if last.kind != SNAPSHOT_END then c
      else
        var s := CatchUp(c.incremental, last.orderId + 1);
        if !s.complete then c.(exp := s.exp, snapshot := [])
        else Consumer(s.exp, false, [], [], c.out + Payload(Updates(c.snapshot)) + Payload(s.taken))
  }

  /** The snapshot queue with a message in it; a number seen twice starts the queue afresh. */
  function WithSnapshot(q: Queue, m: Sequenced): Queue {
    Put(if Queued(q, m.num) then [] else q, m)
  }

  ghost function QueueMessage(c: Consumer, fromSnapshot: bool, m: Sequenced): Consumer {
    CheckSync(if fromSnapshot then c.(snapshot := WithSnapshot(c.snapshot, m))
              else c.(incremental := Put(c.incremental, m)))
  }

  /** The state in which a message is queued: recovery starts with both queues empty. */
  function InRecovery(c: Consumer): Consumer {
    if c.lost then c else c.(lost := true, snapshot := [], incremental := [])
  }

  /** One message off either socket. */
  ghost function Receive(c: Consumer, fromSnapshot: bool, m: Sequenced): Consumer {
    if c.lost || m.num != c.exp then QueueMessage(InRecovery(c), fromSnapshot, m)
    else if fromSnapshot then c
    else c.(exp := c.exp + 1, out := c.out + [m.update])
  }

  ghost function ReceiveAll(c: Consumer, fromSnapshot: bool, ms: seq<Sequenced>): Consumer {
    if ms == [] then c else Receive(ReceiveAll(c, fromSnapshot, ms[..|ms| - 1]), fromSnapshot, ms[|ms| - 1])
  }

  /** One callback: snapshot data is thrown away unless recovery is under way. */
  ghost function Callback(c: Consumer, fromSnapshot: bool, ms: seq<Sequenced>): Consumer {
    if fromSnapshot && !c.lost then c else ReceiveAll(c, fromSnapshot, ms)
  }

  // ---------- runs of callbacks, message by message ----------

  /** One callback's messages. */
  datatype Arrival = Arrival(fromSnapshot: bool, messages: seq<Sequenced>)

  ghost function RunConsumer(arrivals: seq<Arrival>): Consumer {
    if arrivals == [] then FRESH
    else
      var last := arrivals[|arrivals| - 1];
      Callback(RunConsumer(arrivals[..|arrivals| - 1]), last.fromSnapshot, last.messages)
  }

  /** One message and the socket it came from. */
  datatype Step = Step(fromSnapshot: bool, message: Sequenced)

  ghost function StepAll(c: Consumer, steps: seq<Step>): Consumer {
    if steps == [] then c
    else Receive(StepAll(c, steps[..|steps| - 1]), steps[|steps| - 1].fromSnapshot, steps[|steps| - 1].message)
  }

  function StepsOf(fromSnapshot: bool, ms: seq<Sequenced>): (steps: seq<Step>)
    ensures |steps| == |ms| && forall i :: 0 <= i < |ms| ==> steps[i] == Step(fromSnapshot, ms[i])
  {
    seq(|ms|, i requires 0 <= i < |ms| => Step(fromSnapshot, ms[i]))
  }

  /** The messages that are looked at, in order: all but the snapshot callbacks that come outside recovery. */
  ghost function Handled(arrivals: seq<Arrival>): seq<Step> {
    if arrivals == [] then []
    else
      var init, last := arrivals[..|arrivals| - 1], arrivals[|arrivals| - 1];
      if last.fromSnapshot && !RunConsumer(init).lost then Handled(init)
      else Handled(init) + StepsOf(last.fromSnapshot, last.messages)
  }

  lemma {:induction false} StepConcat(c: Consumer, a: seq<Step>, b: seq<Step>)
    ensures StepAll(c, a + b) == StepAll(StepAll(c, a), b)
  {
    if b == [] {
      assert a + b == a;
    } else {
      StepConcat(c, a, b[..|b| - 1]);
      ConcatInit(a, b);
    }
  }

  lemma {:induction false} BufferIsSteps(c: Consumer, fromSnapshot: bool, ms: seq<Sequenced>)
    ensures ReceiveAll(c, fromSnapshot, ms) == StepAll(c, StepsOf(fromSnapshot, ms))
  {
    if ms != [] {
      BufferIsSteps(c, fromSnapshot, ms[..|ms| - 1]);
      assert StepsOf(fromSnapshot, ms)[..|ms| - 1] == StepsOf(fromSnapshot, ms[..|ms| - 1]);
    }
  }

  /** A run of callbacks is the run of the messages it looks at. */
  lemma {:induction false} RunIsSteps(arrivals: seq<Arrival>)
    ensures RunConsumer(arrivals) == StepAll(FRESH, Handled(arrivals))
  {
    if arrivals != [] {
      var init, last := arrivals[..|arrivals| - 1], arrivals[|arrivals| - 1];
      RunIsSteps(init);
      BufferIsSteps(RunConsumer(init), last.fromSnapshot, last.messages);
      StepConcat(FRESH, Handled(init), StepsOf(last.fromSnapshot, last.messages));
    }
  }

  // ---------- when recovery starts ----------

  /** Everything that came off the incremental socket. */
  function Incrementals(arrivals: seq<Arrival>): seq<Sequenced> {
    if arrivals == [] then []
    else if arrivals[|arrivals| - 1].fromSnapshot then Incrementals(arrivals[..|arrivals| - 1])
    else Incrementals(arrivals[..|arrivals| - 1]) + arrivals[|arrivals| - 1].messages
  }

  /** The numbers are 1, 2, 3 and so on. */
  ghost predicate InOrder(ms: seq<Sequenced>) {
    forall i :: 0 <= i < |ms| ==> ms[i].num == i + 1
  }

  lemma {:induction false} StepsInOrder(ms: seq<Sequenced>)
    requires InOrder(ms)
    ensures StepAll(FRESH, StepsOf(false, ms)) == Consumer(|ms| + 1, false, [], [], Updates(ms))
  {
    if ms == [] {
      assert Updates(ms) == [];
    } else {
      var init := ms[..|ms| - 1];
      StepsInOrder(init);
      assert StepsOf(false, ms)[..|ms| - 1] == StepsOf(false, init);
      assert Updates(ms) == Updates(init) + [ms[|ms| - 1].update];
    }
  }

  lemma StepsJoin(a: seq<Sequenced>, b: seq<Sequenced>)
    ensures StepsOf(false, a + b) == StepsOf(false, a) + StepsOf(false, b)
  {
  }

  /** As long as the incremental messages are in order, they are all that is looked at, and all is passed on. */
  lemma {:induction false} RunInOrder(arrivals: seq<Arrival>)
    requires InOrder(Incrementals(arrivals))
    ensures Handled(arrivals) == StepsOf(false, Incrementals(arrivals))
    ensures RunConsumer(arrivals)
         == Consumer(|Incrementals(arrivals)| + 1, false, [], [], Updates(Incrementals(arrivals)))
  {
    if arrivals != [] {
      var init, last := arrivals[..|arrivals| - 1], arrivals[|arrivals| - 1];
      assert forall i :: 0 <= i < |Incrementals(init)| ==> Incrementals(arrivals)[i] == Incrementals(init)[i];
      RunInOrder(init);
      StepsJoin(Incrementals(init), last.messages);
    }
    StepsInOrder(Incrementals(arrivals));
    RunIsSteps(arrivals);
  }

  /** Some message of the run leaves the consumer in recovery. */
  ghost predicate EverLost(arrivals: seq<Arrival>) {
    exists k :: 0 <= k <= |Handled(arrivals)| && StepAll(FRESH, Handled(arrivals)[..k]).lost
  }

  lemma LostEarlier(arrivals: seq<Arrival>)
    requires arrivals != [] && EverLost(arrivals[..|arrivals| - 1])
    ensures EverLost(arrivals)
  {
    var before := Handled(arrivals[..|arrivals| - 1]);
    var k :| 0 <= k <= |before| && StepAll(FRESH, before[..k]).lost;
    assert Handled(arrivals)[..k] == before[..k];
  }

  /** The first number out of order starts recovery. */
  lemma GapIsNoticed(ms: seq<Sequenced>, i: nat)
    requires i < |ms| && InOrder(ms[..i]) && ms[i].num != i + 1
    ensures StepAll(FRESH, StepsOf(false, ms)[..i + 1]).lost
  {
    var steps := StepsOf(false, ms);
    StepsInOrder(ms[..i]);
    assert steps[..i + 1][..i] == StepsOf(false, ms[..i]);
  }

  lemma {:induction false} FirstGap(ms: seq<Sequenced>) returns (i: nat)
    requires !InOrder(ms)
    ensures i < |ms| && InOrder(ms[..i]) && ms[i].num != i + 1
  {
    var init := ms[..|ms| - 1];
    if InOrder(init) {
      i := |ms| - 1;
    } else {
      i := FirstGap(init);
      assert init[..i] == ms[..i];
    }
  }

  lemma InOrderIsNeverLost(arrivals: seq<Arrival>)
    requires InOrder(Incrementals(arrivals))
    ensures !EverLost(arrivals)
  {
    var ms := Incrementals(arrivals);
    RunInOrder(arrivals);
    forall k | 0 <= k <= |ms| ensures !StepAll(FRESH, Handled(arrivals)[..k]).lost {
      StepsInOrder(ms[..k]);
      assert Handled(arrivals)[..k] == StepsOf(false, ms[..k]);
    }
  }

  /** The callback in which the first number out of order comes. */
  lemma GapInCallback(arrivals: seq<Arrival>)
    requires arrivals != []
    requires !InOrder(Incrementals(arrivals)) && InOrder(Incrementals(arrivals[..|arrivals| - 1]))
    ensures EverLost(arrivals)
  {
    var init, last, ms := arrivals[..|arrivals| - 1], arrivals[|arrivals| - 1], Incrementals(arrivals);
    RunInOrder(init);
    StepsJoin(Incrementals(init), last.messages);
    assert Handled(arrivals) == StepsOf(false, ms);
    var i := FirstGap(ms);
    GapIsNoticed(ms, i);
    assert StepAll(FRESH, Handled(arrivals)[..i + 1]).lost;
  }

  /** Recovery starts exactly when the incremental messages, in whatever callbacks, are not numbered 1, 2, 3, ... */
  lemma {:induction false} RecoveryStartsOnGap(arrivals: seq<Arrival>)
    ensures EverLost(arrivals) <==> !InOrder(Incrementals(arrivals))
  {
    if InOrder(Incrementals(arrivals)) {
      InOrderIsNeverLost(arrivals);
    } else if InOrder(Incrementals(arrivals[..|arrivals| - 1])) {
      GapInCallback(arrivals);
    } else {
      RecoveryStartsOnGap(arrivals[..|arrivals| - 1]);
      LostEarlier(arrivals);
    }
  }

  // ---------- when recovery completes ----------

  /** How many entries are numbered `exp` or above. */
  function CountFrom(q: Queue, exp: nat): nat {
    if q == [] then 0 else (if q[0].num >= exp then 1 else 0) + CountFrom(q[1..], exp)
  }

  /** The entries numbered `exp` and above are exactly `exp`, `exp + 1` and so on. */
  ghost predicate RunsFrom(q: Queue, exp: nat) {
    forall i :: 0 <= i < |q| && q[i].num >= exp ==> q[i].num < exp + CountFrom(q, exp)
  }

  lemma {:induction false} CountAll(q: Queue, exp: nat)
    requires forall i :: 0 <= i < |q| ==> q[i].num >= exp
    ensures CountFrom(q, exp) == |q|
  {
    if q != [] {
      CountAll(q[1..], exp);
    }
  }

  lemma {:induction false} AtLeast(q: Queue, exp: nat)
    requires Ascending(q) && q != [] && q[0].num > exp
    ensures q[|q| - 1].num > exp + |q| - 1
  {
    if |q| > 1 {
      AtLeast(q[1..], q[0].num);
    }
  }

  /** A head below the expected number is skipped; one that is the expected number moves it on. */
  lemma RunsAfterHead(q: Queue, exp: nat)
    requires q != [] && q[0].num <= exp && Ascending(q)
    ensures q[0].num < exp ==>
            CountFrom(q, exp) == CountFrom(q[1..], exp) && (RunsFrom(q, exp) <==> RunsFrom(q[1..], exp))
    ensures q[0].num == exp ==>
              CountFrom(q, exp) == 1 + CountFrom(q[1..], exp + 1) && (RunsFrom(q, exp) <==> RunsFrom(q[1..], exp + 1))
  {
    var rest := q[1..];
    assert forall i :: 0 <= i < |rest| ==> rest[i] == q[i + 1];
    assert forall i :: 1 <= i < |q| ==> q[i] == rest[i - 1];
    if q[0].num == exp {
      CountAll(rest, exp);
      CountAll(rest, exp + 1);
    }
  }

  /** The queue is caught up with exactly when it runs on from the snapshot, and then every entry of the run is used. */
  lemma {:induction false} CatchUpExactly(q: Queue, exp: nat)
    requires Ascending(q)
    ensures CatchUp(q, exp).complete <==> RunsFrom(q, exp)
    ensures CatchUp(q, exp).complete ==> CatchUp(q, exp).exp == exp + CountFrom(q, exp)
    decreases q
  {
    if q != [] {
      var rest := q[1..];
      if q[0].num < exp {
        CatchUpExactly(rest, exp);
        RunsAfterHead(q, exp);
      } else {
        CountAll(q, exp);
        if q[0].num != exp {
          AtLeast(q, exp);
          assert !RunsFrom(q, exp);
        } else {
          CountAll(rest, exp + 1);
          CatchUpExactly(rest, exp + 1);
          RunsAfterHead(q, exp);
        }
      }
    }
  }

  /** A whole snapshot is queued: keys 0 to n, a start at 0 and an end at n. */
  ghost predicate WholeSnapshot(q: Queue) {
    && q != [] && Contiguous(q)
    && q[0].update.kind == SNAPSHOT_START && q[|q| - 1].update.kind == SNAPSHOT_END
  }

  /**
   Recovery completes exactly when a whole snapshot is queued and the incremental messages above its
   last number run on from it; the next number expected is one past them, or past the snapshot.
   */
  lemma RecoveryCompletes(c: Consumer)
    requires c.lost && Ascending(c.incremental)
    ensures !CheckSync(c).lost
            <==> WholeSnapshot(c.snapshot) && RunsFrom(c.incremental, c.snapshot[|c.snapshot| - 1].update.orderId + 1)
    ensures !CheckSync(c).lost ==>
              var from := c.snapshot[|c.snapshot| - 1].update.orderId + 1;
              CheckSync(c).exp == from + CountFrom(c.incremental, from)
    ensures CheckSync(c).lost ==> CheckSync(c).out == c.out
  {
    if c.snapshot != [] {
      CatchUpExactly(c.incremental, c.snapshot[|c.snapshot| - 1].update.orderId + 1);
    }
  }

  /** A message that leaves the consumer in recovery passes nothing on. */
  lemma StaysLost(c: Consumer, fromSnapshot: bool, m: Sequenced)
    requires Receive(c, fromSnapshot, m).lost
    ensures Receive(c, fromSnapshot, m).out == c.out
  {
  }

  /**
   From the message that starts recovery up to any later one that has not completed it, off whichever
   sockets and in whichever callbacks they come, nothing is passed on.
   */
  lemma {:induction false} NothingForwardedWhileLost(c: Consumer, steps: seq<Step>, n: nat)
    requires n <= |steps|
    requires forall k :: n < k <= |steps| ==> StepAll(c, steps[..k]).lost
    ensures StepAll(c, steps).out == StepAll(c, steps[..n]).out
  {
    if n == |steps| {
      assert steps[..n] == steps;
    } else {
      var init, last := steps[..|steps| - 1], steps[|steps| - 1];
      assert steps[..|steps|] == steps && init[..n] == steps[..n];
      forall k | n < k <= |init| ensures StepAll(c, init[..k]).lost {
        assert init[..k] == steps[..k];
      }
      NothingForwardedWhileLost(c, init, n);
      StaysLost(StepAll(c, init), last.fromSnapshot, last.message);
    }
  }

  /** The same for any run of callbacks of both sockets. */
  lemma RunForwardsNothingWhileLost(arrivals: seq<Arrival>, n: nat)
    requires n <= |Handled(arrivals)|
    requires forall k :: n < k <= |Handled(arrivals)| ==> StepAll(FRESH, Handled(arrivals)[..k]).lost
    ensures RunConsumer(arrivals).out == StepAll(FRESH, Handled(arrivals)[..n]).out
  {
    NothingForwardedWhileLost(FRESH, Handled(arrivals), n);
    RunIsSteps(arrivals);
  }
}

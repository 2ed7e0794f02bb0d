/** The consumer's receive and recovery loops, proved to take the protocol's steps. */
module MarketDataConsumers {
  import opened MarketTypes
  import opened MarketFeed
  import opened RecoveryProtocol

  class MarketDataConsumer {
    var expSeqNum: nat
    var packetLost: bool
    var snapshotQueue: Queue
    var incrementalQueue: Queue
    /** Everything written to the trading engine's queue, in order. */
    var incoming: seq<MarketUpdate>

    ghost function State(): Consumer
      reads this
    {
      Consumer(expSeqNum, packetLost, snapshotQueue, incrementalQueue, incoming)
    }

    constructor ()
      ensures State() == FRESH
    {
      expSeqNum, packetLost := 1, false;
      snapshotQueue, incrementalQueue, incoming := [], [], [];
    }

    /** Handles every whole message in a socket's buffer, front to back. */
    method RecvCallbacks(fromSnapshot: bool, buffer: seq<Sequenced>)
      modifies this
      ensures State() == Callback(old(State()), fromSnapshot, buffer)
    {
      if !packetLost && fromSnapshot {
        return;
      }
      var rest := buffer;
      ghost var done := [];
      while rest != []
        invariant done + rest == buffer
        invariant State() == ReceiveAll(old(State()), fromSnapshot, done)
      {
        assert (done + [rest[0]])[..|done|] == done;
        RecvMessage(fromSnapshot, rest[0]);
        done := done + [rest[0]];
        rest := rest[1..];
      }
      assert done == buffer;
    }

    method RecvMessage(fromSnapshot: bool, message: Sequenced)
      modifies this
      ensures State() == Receive(old(State()), fromSnapshot, message)
    {
      var alreadyInRecovery := packetLost;
      packetLost := alreadyInRecovery || message.num != expSeqNum;
      if packetLost {
        if !alreadyInRecovery {
          StartSnapshotSync();
        }
        QueueMessage(fromSnapshot, message);
      } else if !fromSnapshot {
        expSeqNum := expSeqNum + 1;
        incoming := incoming + [message.update];
      }
    }

    method StartSnapshotSync()
      modifies this`snapshotQueue, this`incrementalQueue
      ensures State() == old(State()).(snapshot := [], incremental := [])
    {
      snapshotQueue := [];
      incrementalQueue := [];
    }

    method QueueMessage(fromSnapshot: bool, message: Sequenced)
      modifies this
      ensures State() == RecoveryProtocol.QueueMessage(old(State()), fromSnapshot, message)
    {
      if fromSnapshot {
        if Queued(snapshotQueue, message.num) {
          snapshotQueue := [];
        }
        snapshotQueue := Put(snapshotQueue, message);
      } else {
        incrementalQueue := Put(incrementalQueue, message);
      }
      CheckSnapshotSync();
    }

    /** Recovers if the queues allow it. */
    method CheckSnapshotSync()
      modifies this
      ensures State() == CheckSync(old(State()))
    {
      if snapshotQueue == [] {
        return;
      }
      if snapshotQueue[0].update.kind != SNAPSHOT_START {
        snapshotQueue := [];
        return;
      }
      var whole, joint := JoinSnapshot();
      if !whole {
        snapshotQueue := [];
        return;
      }
      var last := snapshotQueue[|snapshotQueue| - 1].update;
      if last.kind != SNAPSHOT_END {
        return;
      }
      expSeqNum := last.orderId + 1;
      var complete;
      complete, joint := JoinIncremental(joint);
      if !complete {
        snapshotQueue := [];
        return;
      }
      Forward(joint);
      packetLost := false;
      snapshotQueue := [];
      incrementalQueue := [];
    }

    /** Checks the snapshot queue for gaps and collects what it carries. */
    method JoinSnapshot() returns (whole: bool, joint: seq<MarketUpdate>)
      ensures whole <==> Contiguous(snapshotQueue)
      ensures whole ==> joint == Payload(Updates(snapshotQueue))
    {
      joint := [];
      var nextSeqNum := 0;
      var i := 0;
      while i < |snapshotQueue|
        invariant i <= |snapshotQueue| && nextSeqNum == i
        invariant forall j :: 0 <= j < i ==> snapshotQueue[j].num == j
        invariant joint == Payload(Updates(snapshotQueue)[..i])
      {
        var message := snapshotQueue[i];
        if message.num != nextSeqNum {
          return false, [];
        }
        assert Updates(snapshotQueue)[..i + 1][..i] == Updates(snapshotQueue)[..i];
        if message.update.kind != SNAPSHOT_START && message.update.kind != SNAPSHOT_END {
          joint := joint + [message.update];
        }
        nextSeqNum := nextSeqNum + 1;
        i := i + 1;
      }
      assert Updates(snapshotQueue)[..i] == Updates(snapshotQueue);
      whole := true;
    }

    /** Skips what the snapshot already covers and collects what follows it, up to a gap. */
    method JoinIncremental(joined: seq<MarketUpdate>) returns (complete: bool, joint: seq<MarketUpdate>)
      modifies this`expSeqNum
      ensures var s := CatchUp(incrementalQueue, old(expSeqNum));
              && complete == s.complete && expSeqNum == s.exp
              && (complete ==> joint == joined + Payload(s.taken))
    {
      joint := joined;
      ghost var taken := [];
      ghost var s := CatchUp(incrementalQueue, expSeqNum);
      var i := 0;
      while i < |incrementalQueue|
        invariant i <= |incrementalQueue|
        invariant var rest := CatchUp(incrementalQueue[i..], expSeqNum);
                  rest.complete == s.complete && rest.exp == s.exp && s.taken == taken + rest.taken
        invariant joint == joined + Payload(taken)
      {
        var message := incrementalQueue[i];
        assert incrementalQueue[i..][1..] == incrementalQueue[i + 1..];
        if message.num >= expSeqNum {
          if message.num != expSeqNum {
            return false, [];
          }
          assert (taken + [message.update])[..|taken|] == taken;
          if message.update.kind != SNAPSHOT_START && message.update.kind != SNAPSHOT_END {
            joint := joint + [message.update];
          }
          taken := taken + [message.update];
          expSeqNum := expSeqNum + 1;
        }
        i := i + 1;
      }
      assert s.taken == taken;
      complete := true;
    }

    method Forward(joint: seq<MarketUpdate>)
      modifies this`incoming
      ensures incoming == old(incoming) + joint
    {
      var i := 0;
      while i < |joint|
        invariant i <= |joint| && incoming == old(incoming) + joint[..i]
      {
        incoming := incoming + [joint[i]];
        i := i + 1;
      }
    }
  }

  /** A consumer serving any run of callbacks; what recovery safety says of the run it says of this object. */
  method Consume(arrivals: seq<Arrival>) returns (consumer: MarketDataConsumer)
    ensures fresh(consumer) && consumer.State() == RunConsumer(arrivals)
  {
    consumer := new MarketDataConsumer();
    var n := 0;
    while n < |arrivals|
      invariant n <= |arrivals| && fresh(consumer) && consumer.State() == RunConsumer(arrivals[..n])
    {
      assert arrivals[..n + 1][..n] == arrivals[..n];
      consumer.RecvCallbacks(arrivals[n].fromSnapshot, arrivals[n].messages);
      n := n + 1;
    }
    assert arrivals[..n] == arrivals;
  }
}

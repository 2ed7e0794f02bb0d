/** Recovery seen from the replicas: what a consumer passes on rebuilds every ticker's queues. */
module ReplicaRecovery {
  import opened MarketTypes
  import opened ReplicaBook
  import opened MarketFeed
  import opened LateJoiner
  import opened RecoveryProtocol
  import opened RecoverySafety

  /** What was passed on gives each ticker's replica the queues of the published stream. */
  ghost predicate QueuesMatch(us: seq<MarketUpdate>, vs: seq<MarketUpdate>) {
    forall ticker {:trigger ReplicaAt(us, ticker)} :: 0 <= ticker < MAX_TICKERS ==>
        ReplicaAt(us, ticker) == ReplicaAt(vs, ticker)
  }

  lemma ReplicaConcat(us: seq<MarketUpdate>, vs: seq<MarketUpdate>, ticker: nat)
    ensures ReplicaAt(us + vs, ticker) == Replay(ReplicaAt(us, ticker), Only(vs, ticker))
  {
    OnlyConcat(us, vs, ticker);
    ReplayConcat(BLANK, Only(us, ticker), Only(vs, ticker));
  }

  lemma MatchExtends(us: seq<MarketUpdate>, vs: seq<MarketUpdate>, ws: seq<MarketUpdate>)
    requires QueuesMatch(us, vs)
    ensures QueuesMatch(us + ws, vs + ws)
  {
    forall ticker | 0 <= ticker < MAX_TICKERS ensures ReplicaAt(us + ws, ticker) == ReplicaAt(vs + ws, ticker) {
      ReplicaConcat(us, ws, ticker);
      ReplicaConcat(vs, ws, ticker);
    }
  }

  /** After any history, a snapshot's body puts every queue where the publication had it. */
  lemma BodyMatches(p: Published, out: seq<MarketUpdate>, n: nat)
    requires LegalMarket(p) && n <= |p|
    ensures QueuesMatch(out + SnapshotBody(StateAt(p, n)), p[..n])
  {
    LegalMarketPrefix(p, n);
    TableFollows(p[..n]);
    forall ticker | 0 <= ticker < MAX_TICKERS
      ensures ReplicaAt(out + SnapshotBody(StateAt(p, n)), ticker) == ReplicaAt(p[..n], ticker)
    {
      assert Follows(p[..n], ticker);
      ReplicaConcat(out, SnapshotBody(StateAt(p, n)), ticker);
      SnapshotRebuilds(StateAt(p, n), ticker, ReplicaAt(p[..n], ticker), ReplicaAt(out, ticker));
    }
  }

  ghost predicate NoBounds(us: seq<MarketUpdate>) {
    forall i :: 0 <= i < |us| ==> us[i].kind !in {SNAPSHOT_START, SNAPSHOT_END}
  }

  lemma {:induction false} PayloadOfLegal(us: seq<MarketUpdate>)
    requires NoBounds(us)
    ensures Payload(us) == us
  {
    if us != [] {
      PayloadOfLegal(us[..|us| - 1]);
    }
  }

  lemma LegalHasNoBounds(p: Published)
    requires LegalMarket(p)
    ensures NoBounds(p)
  {
    forall i | 0 <= i < |p| ensures p[i].kind !in {SNAPSHOT_START, SNAPSHOT_END} {
      LegalMarketPrefix(p, i + 1);
      LegalMarketInit(p[..i + 1]);
    }
  }

  lemma PayloadOfSnapshot(t: Table, n: nat)
    requires TableOk(t)
    ensures Payload(SnapshotUpdates(t, n)) == SnapshotBody(t)
  {
    BodiesHaveNoBounds(t, MAX_TICKERS);
    PayloadBetweenBounds(SnapshotBody(t), Bound(SNAPSHOT_START, n), Bound(SNAPSHOT_END, n));
  }

  lemma {:induction false} PayloadBetweenBounds(us: seq<MarketUpdate>, start: MarketUpdate, end: MarketUpdate)
    requires start.kind == SNAPSHOT_START && end.kind == SNAPSHOT_END
    requires forall i :: 0 <= i < |us| ==> us[i].kind in {ADD, CLEAR}
    ensures Payload([start] + us + [end]) == us
  {
    PayloadAfterStart(us, start);
    assert ([start] + us + [end])[..|us| + 1] == [start] + us;
  }

  lemma {:induction false} PayloadAfterStart(us: seq<MarketUpdate>, start: MarketUpdate)
    requires start.kind == SNAPSHOT_START && forall i :: 0 <= i < |us| ==> us[i].kind in {ADD, CLEAR}
    ensures Payload([start] + us) == us
  {
    if us == [] {
      assert [start] + us == [start] && [start][..0] == [];
    } else {
      PayloadAfterStart(us[..|us| - 1], start);
      assert ([start] + us)[..|us|] == [start] + us[..|us| - 1];
    }
  }

  lemma TakenMatches(p: Published, out: seq<MarketUpdate>, n: nat, to: nat, out': seq<MarketUpdate>)
    requires n <= to <= |p| && QueuesMatch(out, p[..n]) && out' == out + p[n..to]
    ensures QueuesMatch(out', p[..to])
  {
    MatchExtends(out, p[..n], p[n..to]);
    assert p[..n] + p[n..to] == p[..to];
  }

  /** Outside recovery, the queues are those of the stream before the next expected number. */
  ghost predicate QueuesFaithful(p: Published, c: Consumer) {
    !c.lost ==> 1 <= c.exp <= |p| + 1 && QueuesMatch(c.out, p[..c.exp - 1])
  }

  /** A whole snapshot from one publication puts every queue where that publication had it. */
  lemma QueueMatches(p: Published, q: Queue, out: seq<MarketUpdate>) returns (n: nat)
    requires LegalMarket(p) && OnePublication(p, q) && WholeSnapshot(q)
    ensures n <= |p| && q[|q| - 1].update.orderId == n && QueuesMatch(out + Payload(Updates(q)), p[..n])
  {
    n :| FromPublication(p, n, q);
    FromIsPart(p, n, q);
    StateOk(p, n);
    WholeIsThePublication(StateAt(p, n), n, q);
    PayloadOfSnapshot(StateAt(p, n), n);
    BodyMatches(p, out, n);
  }

  lemma TakenPayload(p: Published, q: Queue, n: nat, s: Splice)
    requires NoBounds(p) && GenuineQueue(p, q) && Ascending(q) && n <= |p| && s == CatchUp(q, n + 1) && s.complete
    ensures n <= s.exp - 1 <= |p| && Payload(s.taken) == p[n..s.exp - 1]
  {
    TakenFrom(p, q, n, s);
    assert NoBounds(p[n..s.exp - 1]);
    PayloadOfLegal(s.taken);
  }

  lemma TakenQueues(p: Published, q: Queue, out: seq<MarketUpdate>, r: Consumer, n: nat, s: Splice)
    requires NoBounds(p) && GenuineQueue(p, q) && Ascending(q) && n <= |p| && QueuesMatch(out, p[..n])
    requires s == CatchUp(q, n + 1) && s.complete && r.exp == s.exp && r.out == out + Payload(s.taken)
    ensures QueuesFaithful(p, r)
  {
    TakenPayload(p, q, n, s);
    TakenMatches(p, out, n, r.exp - 1, r.out);
  }

  lemma SplicedQueues(p: Published, c: Consumer, r: Consumer)
    requires LegalMarket(p) && Spliced(c, r) && GenuineQueue(p, c.incremental) && Ascending(c.incremental)
    requires OnePublication(p, c.snapshot)
    ensures QueuesFaithful(p, r)
  {
    LegalHasNoBounds(p);
    var n := QueueMatches(p, c.snapshot, c.out);
    TakenQueues(p, c.incremental, c.out + Payload(Updates(c.snapshot)), r, n, CatchUp(c.incremental, n + 1));
  }

  lemma CheckSyncKeepsQueues(p: Published, c: Consumer)
    requires LegalMarket(p) && c.lost && Safe(p, c)
    ensures QueuesFaithful(p, CheckSync(c))
  {
    if !CheckSync(c).lost {
      CompletedIsSpliced(c);
      SplicedQueues(p, c, CheckSync(c));
    }
  }

  lemma ReceiveKeepsQueues(p: Published, c: Consumer, fromSnapshot: bool, m: Sequenced)
    requires LegalMarket(p) && Safe(p, c) && QueuesFaithful(p, c) && Genuine(p, c, fromSnapshot, m)
    ensures QueuesFaithful(p, Receive(c, fromSnapshot, m))
  {
    if c.lost || m.num != c.exp {
      var c1 := InRecovery(c);
      var c2 := if fromSnapshot then c1.(snapshot := WithSnapshot(c1.snapshot, m))
                else c1.(incremental := Put(c1.incremental, m));
      QueuedIsSafe(p, c, fromSnapshot, m);
      CheckSyncKeepsQueues(p, c2);
    } else if !fromSnapshot {
      MatchExtends(c.out, p[..c.exp - 1], [m.update]);
      assert p[..c.exp - 1] + [m.update] == p[..c.exp];
    }
  }

  lemma {:induction false} ReceiveAllKeepsQueues(p: Published, c: Consumer, fromSnapshot: bool, ms: seq<Sequenced>)
    requires LegalMarket(p) && Safe(p, c) && QueuesFaithful(p, c) && AllGenuine(p, c, fromSnapshot, ms)
    ensures QueuesFaithful(p, ReceiveAll(c, fromSnapshot, ms))
  {
    if ms != [] {
      ReceiveAllIsSafe(p, c, fromSnapshot, ms[..|ms| - 1]);
      ReceiveAllKeepsQueues(p, c, fromSnapshot, ms[..|ms| - 1]);
      ReceiveKeepsQueues(p, ReceiveAll(c, fromSnapshot, ms[..|ms| - 1]), fromSnapshot, ms[|ms| - 1]);
    }
  }

  /**
   Over any run of genuine callbacks: outside recovery, a replica fed with what was passed on has, for
   every ticker, the levels, queues and quantities of one that saw the whole stream.
   */
  lemma {:induction false} RecoveryKeepsQueues(p: Published, arrivals: seq<Arrival>)
    requires LegalMarket(p) && GenuineRun(p, arrivals)
    ensures QueuesFaithful(p, RunConsumer(arrivals))
  {
    if arrivals == [] {
      assert p[..0] == [];
    } else {
      var before, last := RunConsumer(arrivals[..|arrivals| - 1]), arrivals[|arrivals| - 1];
      RecoveryKeepsQueues(p, arrivals[..|arrivals| - 1]);
      RunIsSafe(p, arrivals[..|arrivals| - 1]);
      if !last.fromSnapshot || before.lost {
        ReceiveAllKeepsQueues(p, before, last.fromSnapshot, last.messages);
      }
    }
  }
}

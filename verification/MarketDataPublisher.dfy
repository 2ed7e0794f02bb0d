/** The publisher: it numbers the engine's updates, sends them, and hands the synthesizer a copy of each. */
module MarketDataPublishers {
  import opened MarketTypes
  import opened Sequences
  import opened PriceTimeBook
  import opened MarketFeed
  import opened LateJoiner
  import opened SnapshotSynthesizers

  class MarketDataPublisher {
    var nextSeqNum: nat
    /** Updates the engine has queued and the publisher has not read. */
    var outgoing: seq<MarketUpdate>
    /** Everything sent to the incremental socket, in order. */
    var sent: seq<Sequenced>
    /** Everything queued for the synthesizer, in order. */
    var snapshotUpdates: seq<Sequenced>

    /** Whatever was sent is numbered from one without a gap, and the synthesizer's copy is the same. */
    ghost predicate Valid(published: seq<MarketUpdate>)
      reads this
    {
      nextSeqNum == |published| + 1 && sent == Numbered(published, 1) && snapshotUpdates == sent
    }

    constructor (queued: seq<MarketUpdate>)
      ensures Valid([]) && outgoing == queued
    {
      nextSeqNum := 1;
      outgoing := queued;
      sent, snapshotUpdates := [], [];
    }

    /** Drains the engine's queue. */
    method Drain(ghost published: seq<MarketUpdate>)
      requires Valid(published)
      modifies this
      ensures Valid(published + old(outgoing)) && outgoing == []
    {
      ghost var done := published;
      while outgoing != []
        invariant Valid(done) && done + outgoing == published + old(outgoing)
        decreases |outgoing|
      {
        var update := outgoing[0];
        sent := sent + [Sequenced(nextSeqNum, update)];
        outgoing := outgoing[1..];
        snapshotUpdates := snapshotUpdates + [Sequenced(nextSeqNum, update)];
        NumberedStep(done, update, 1);
        done := done + [update];
        nextSeqNum := nextSeqNum + 1;
      }
      assert done == published + old(outgoing);
    }
  }

  /** At every addition a cell of the synthesizer's pool can be spared. */
  ghost predicate Roomy(us: seq<MarketUpdate>) {
    forall n :: 0 <= n < |us| && us[n].kind == ADD ==> |FoldAll(map[], us[..n])| + 1 < MAX_ORDER_IDS
  }

  lemma NothingIsCleared(us: seq<MarketUpdate>)
    requires LegalMarket(us)
    ensures forall i :: 0 <= i < |us| ==> us[i].kind != CLEAR
  {
    forall i | 0 <= i < |us| ensures us[i].kind != CLEAR {
      LegalMarketPrefix(us, i + 1);
      LegalMarketInit(us[..i + 1]);
    }
  }

  /** The engine's own stream never meets a failing assertion. */
  lemma EngineIsDrainable(us: seq<MarketUpdate>, hs: seq<seq<Request>>)
    requires Histories(hs) && Interleaves(us, hs) && Roomy(us)
    ensures Drainable(map[], us) && KeptAll(map[], us) == FoldAll(map[], us)
  {
    EngineIsLegal(us, hs);
    NothingIsCleared(us);
    KeptIsFold(map[], us);
    TableHoldsTheBooks(us, hs);
    forall n | 0 <= n < |us| ensures Drains(KeptAll(map[], us[..n]), us[n]) {
      KeptIsFold(map[], us[..n]);
    }
  }

  /** A stream through the publisher. */
  method Publish(us: seq<MarketUpdate>) returns (incremental: seq<Sequenced>, copy: seq<Sequenced>)
    ensures incremental == Numbered(us, 1) && copy == Numbered(us, 1)
  {
    var publisher := new MarketDataPublisher(us);
    publisher.Drain([]);
    NothingBefore(us);
    incremental, copy := publisher.sent, publisher.snapshotUpdates;
  }

  /** The same stream through a fresh synthesizer, and the snapshot published after it. */
  method Synthesize(copy: seq<Sequenced>, ghost us: seq<MarketUpdate>, ghost t: Table)
      returns (snapshot: seq<Sequenced>)
    requires copy == Numbered(us, 1) && t == map[] && Drainable(t, us)
    ensures snapshot == Snapshot(KeptAll(t, us), |us|)
  {
    var synthesizer := new SnapshotSynthesizer();
    synthesizer.Drain(copy, us);
    synthesizer.PublishSnapshot();
    snapshot := synthesizer.sent;
    NothingBefore(Snapshot(KeptAll(t, us), |us|));
  }

  /** Both channels of the feed, for any stream that meets the synthesizer's assertions. */
  method Serve(us: seq<MarketUpdate>) returns (incremental: seq<Sequenced>, snapshot: seq<Sequenced>)
    requires Drainable(map[], us)
    ensures incremental == Numbered(us, 1)
    ensures snapshot == Snapshot(KeptAll(map[], us), |us|)
  {
    var copy;
    incremental, copy := Publish(us);
    snapshot := Synthesize(copy, us, map[]);
  }
}

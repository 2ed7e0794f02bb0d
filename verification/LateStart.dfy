/**
 From the wire to the linked book: a participant that misses the start of the stream recovers once, and
 the updates its consumer then passes on are those of a late joiner.
 */
module LateStart {
  import opened MarketTypes
  import opened ReplicaBook
  import opened MarketFeed
  import opened LateJoiner
  import opened RecoveryProtocol
  import opened RecoverySafety
  import opened BestBidOffer
  import opened BookFollower
  import opened FeedFollower
  import opened MarketDataConsumers
  import opened MarketOrderBooks

  // ---------- one recovery ----------

  /** The message that ends the first recovery. */
  lemma FirstRecovery(p: Published, c: Consumer, fromSnapshot: bool, m: Sequenced)
      returns (n: nat, body: seq<MarketUpdate>)
    requires LegalMarket(p) && Safe(p, c) && c.lost && c.out == [] && Genuine(p, c, fromSnapshot, m)
    requires !Receive(c, fromSnapshot, m).lost
    ensures BodyAt(p, n, body) && PassedOn(p, [], Receive(c, fromSnapshot, m), n, body)
  {
    n, body := EndOfRecovery(p, c, fromSnapshot, m);
  }

  lemma TakeOneMore(p: Published, n: nat, m: nat, body: seq<MarketUpdate>)
    requires n <= m < |p|
    ensures [] + (body + p[n..m]) + [p[m]] == [] + (body + p[n..m + 1])
  {
  }

  lemma StaysJoined(p: Published, c: Consumer, r: Consumer, fromSnapshot: bool, m: Sequenced, n: nat,
                    body: seq<MarketUpdate>)
    requires PassedOn(p, [], c, n, body) && !c.lost && r == Receive(c, fromSnapshot, m) && m.num == c.exp
    requires !fromSnapshot ==> GenuineIncremental(p, m)
    ensures PassedOn(p, [], r, n, body)
  {
    if !fromSnapshot {
      TakeOneMore(p, n, c.exp - 1, body);
    }
  }

  /** In recovery from the first message to the `k`-th, and never after it. */
  ghost predicate LostUpTo(steps: seq<Step>, k: nat) {
    && 0 < k < |steps|
    && (forall i {:trigger StepAll(FRESH, steps[..i])} :: 0 < i <= k ==> StepAll(FRESH, steps[..i]).lost)
    && (forall i {:trigger StepAll(FRESH, steps[..i])} :: k < i <= |steps| ==> !StepAll(FRESH, steps[..i]).lost)
  }

  lemma NothingYet(steps: seq<Step>, k: nat)
    requires LostUpTo(steps, k)
    ensures StepAll(FRESH, steps[..k]).lost && StepAll(FRESH, steps[..k]).out == []
  {
    forall i | 0 < i <= k ensures StepAll(FRESH, steps[..k][..i]).lost {
      assert steps[..k][..i] == steps[..i];
    }
    NothingForwardedWhileLost(FRESH, steps[..k], 0);
  }

  lemma InitLostUpTo(steps: seq<Step>, k: nat)
    requires LostUpTo(steps, k) && k < |steps| - 1
    ensures LostUpTo(steps[..|steps| - 1], k) && !StepAll(FRESH, steps[..|steps| - 1]).lost
    ensures !StepAll(FRESH, steps).lost
  {
    var init := steps[..|steps| - 1];
    forall i | 0 < i <= |init| ensures init[..i] == steps[..i] {
    }
    forall i | 0 < i <= k ensures StepAll(FRESH, init[..i]).lost {
      assert init[..i] == steps[..i];
    }
    forall i | k < i <= |init| ensures !StepAll(FRESH, init[..i]).lost {
      assert init[..i] == steps[..i];
    }
    assert init[..|init|] == init && steps[..|steps|] == steps;
  }

  /** The state just before the message that ends the recovery. */
  lemma BeforeRecovery(p: Published, steps: seq<Step>, k: nat, c: Consumer)
    requires WellPublished(p) && GenuineSteps(p, FRESH, steps) && LostUpTo(steps, k) && k == |steps| - 1
    requires c == StepAll(FRESH, steps[..|steps| - 1])
    ensures Safe(p, c) && c.lost && c.out == [] && !StepAll(FRESH, steps).lost
  {
    NothingYet(steps, k);
    FreshIsSafe(p);
    StepsAreSafe(p, FRESH, steps[..|steps| - 1]);
    assert steps[..|steps|] == steps;
  }

  lemma LastStepRecovers(p: Published, steps: seq<Step>, k: nat, c: Consumer) returns (n: nat, body: seq<MarketUpdate>)
    requires LegalMarket(p) && GenuineSteps(p, FRESH, steps) && LostUpTo(steps, k) && k == |steps| - 1
    requires c == StepAll(FRESH, steps[..|steps| - 1])
    ensures BodyAt(p, n, body) && PassedOn(p, [], StepAll(FRESH, steps), n, body)
  {
    LegalIsWell(p);
    BeforeRecovery(p, steps, k, c);
    n, body := FirstRecovery(p, c, steps[|steps| - 1].fromSnapshot, steps[|steps| - 1].message);
  }

  lemma LastStepStays(p: Published, steps: seq<Step>, n: nat, body: seq<MarketUpdate>)
    requires steps != [] && GenuineSteps(p, FRESH, steps) && !StepAll(FRESH, steps).lost
    requires var c := StepAll(FRESH, steps[..|steps| - 1]); !c.lost && PassedOn(p, [], c, n, body)
    ensures PassedOn(p, [], StepAll(FRESH, steps), n, body)
  {
    var c, last := StepAll(FRESH, steps[..|steps| - 1]), steps[|steps| - 1];
    if last.message.num != c.exp {
      OutOfOrderIsLost(c, last.fromSnapshot, last.message);
    }
    StaysJoined(p, c, StepAll(FRESH, steps), last.fromSnapshot, last.message, n, body);
  }

  /** A genuine run that recovers once, from its first message on, passes on a snapshot's body and what follows it. */
  lemma {:induction false} OneRecoveryJoins(p: Published, steps: seq<Step>, k: nat)
      returns (n: nat, body: seq<MarketUpdate>)
    requires LegalMarket(p) && GenuineSteps(p, FRESH, steps) && LostUpTo(steps, k)
    ensures BodyAt(p, n, body) && PassedOn(p, [], StepAll(FRESH, steps), n, body)
    decreases |steps|
  {
    if k == |steps| - 1 {
      n, body := LastStepRecovers(p, steps, k, StepAll(FRESH, steps[..|steps| - 1]));
    } else {
      InitLostUpTo(steps, k);
      n, body := OneRecoveryJoins(p, steps[..|steps| - 1], k);
      LastStepStays(p, steps, n, body);
    }
  }

  // ---------- the linked book behind the consumer ----------

  lemma RunJoins(p: Published, arrivals: seq<Arrival>, k: nat) returns (n: nat, body: seq<MarketUpdate>)
    requires LegalMarket(p) && GenuineRun(p, arrivals) && LostUpTo(Handled(arrivals), k)
    ensures BodyAt(p, n, body) && PassedOn(p, [], RunConsumer(arrivals), n, body)
  {
    RunIsGenuine(p, arrivals);
    RunIsSteps(arrivals);
    n, body := OneRecoveryJoins(p, Handled(arrivals), k);
  }

  lemma RecoveredAtTheEnd(arrivals: seq<Arrival>, k: nat)
    requires LostUpTo(Handled(arrivals), k)
    ensures !RunConsumer(arrivals).lost
  {
    var steps := Handled(arrivals);
    RunIsSteps(arrivals);
    assert steps[..|steps|] == steps;
  }

  /** Such a participant is out of recovery, and every ticker's book was blank at the one clear it got. */
  lemma LateStarterIsBlank(p: Published, arrivals: seq<Arrival>, k: nat, ticker: nat)
    requires LegalMarket(p) && GenuineRun(p, arrivals) && LostUpTo(Handled(arrivals), k)
    requires ticker < MAX_TICKERS && ManageableTo(BLANK, Only(p, ticker))
    ensures !RunConsumer(arrivals).lost && BlankAtClears(Only(RunConsumer(arrivals).out, ticker))
  {
    var n, body := RunJoins(p, arrivals, k);
    RecoveredAtTheEnd(arrivals, k);
    SegmentIsBlank(p, RunConsumer(arrivals), n, body, ticker);
  }

  lemma FollowedMeans(p: Published, c: Consumer, us: seq<MarketUpdate>, ticker: nat)
    requires Followed(p, c, us, ticker) && BlankAtClears(us) && !c.lost
    ensures 1 <= c.exp <= |p| + 1
    ensures ManageableTo(BLANK, us) && Replay(BLANK, us) == ReplicaAt(p[..c.exp - 1], ticker)
    ensures QuoteRight(us, BUY) && QuoteRight(us, SELL)
  {
  }

  /** The linked book has room for what the consumer passes on, and ends up with the published replica. */
  lemma LateStarterFollows(p: Published, arrivals: seq<Arrival>, k: nat, ticker: nat, c: Consumer,
                           us: seq<MarketUpdate>)
    requires LegalMarket(p) && GenuineRun(p, arrivals) && LostUpTo(Handled(arrivals), k)
    requires ticker < MAX_TICKERS && ManageableTo(BLANK, Only(p, ticker))
    requires c == RunConsumer(arrivals) && us == Only(c.out, ticker)
    ensures !c.lost && 1 <= c.exp <= |p| + 1
    ensures ManageableTo(BLANK, us) && Replay(BLANK, us) == ReplicaAt(p[..c.exp - 1], ticker)
    ensures QuoteRight(us, BUY) && QuoteRight(us, SELL)
  {
    LateStarterIsBlank(p, arrivals, k, ticker);
    RunIsFollowed(p, arrivals, ticker);
    FollowedMeans(p, c, us, ticker);
  }

  /**
   A participant that misses the start of the stream: its consumer serves a genuine run that recovers once,
   its linked book of a ticker takes what the consumer passes on, and shows what was published up to there.
   */
  method StartLate(ghost p: Published, arrivals: seq<Arrival>, ghost k: nat, ghost c: Consumer,
                   ghost us: seq<MarketUpdate>, ticker: nat)
      returns (consumer: MarketDataConsumer, book: MarketOrderBook)
    requires LegalMarket(p) && GenuineRun(p, arrivals) && LostUpTo(Handled(arrivals), k)
    requires ticker < MAX_TICKERS && ManageableTo(BLANK, Only(p, ticker))
    requires c == RunConsumer(arrivals) && us == Only(c.out, ticker)
    ensures consumer.State() == c && book.Valid()
    ensures !c.lost && 1 <= c.exp <= |p| + 1 && book.Model() == ReplicaAt(p[..c.exp - 1], ticker)
    ensures book.bbo.bid == if Touched(us, BUY) then Best(book.Model().bids) else NO_QUOTE
    ensures book.bbo.ask == if Touched(us, SELL) then Best(book.Model().asks) else NO_QUOTE
  {
    LateStarterIsBlank(p, arrivals, k, ticker);
    consumer, book := FollowFeed(p, arrivals, c, us, ticker);
  }
}

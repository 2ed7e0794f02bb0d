/**
 From the wire to the linked book: over any genuine run of callbacks, what the consumer passes on is what a
 linked book of a ticker can follow, as long as that book is empty whenever a recovery clears it.
 */
module FeedFollower {
  import opened MarketTypes
  import opened Sequences
  import opened ReplicaBook
  import opened MarketFeed
  import opened LateJoiner
  import opened RecoveryProtocol
  import opened RecoverySafety
  import opened ReplicaRecovery
  import opened BestBidOffer
  import opened BookFollower
  import opened LateFollower
  import opened MarketDataConsumers
  import opened MarketOrderBooks

  // ---------- genuine runs, message by message ----------

  ghost predicate GenuineSteps(p: Published, c: Consumer, steps: seq<Step>) {
    steps == [] ||
    var init, last := steps[..|steps| - 1], steps[|steps| - 1];
    GenuineSteps(p, c, init) && Genuine(p, StepAll(c, init), last.fromSnapshot, last.message)
  }

  lemma {:induction false} BufferIsGenuine(p: Published, c: Consumer, fromSnapshot: bool, ms: seq<Sequenced>)
    requires AllGenuine(p, c, fromSnapshot, ms)
    ensures GenuineSteps(p, c, StepsOf(fromSnapshot, ms))
  {
    if ms != [] {
      BufferIsGenuine(p, c, fromSnapshot, ms[..|ms| - 1]);
      BufferIsSteps(c, fromSnapshot, ms[..|ms| - 1]);
      assert StepsOf(fromSnapshot, ms)[..|ms| - 1] == StepsOf(fromSnapshot, ms[..|ms| - 1]);
    }
  }

  lemma {:induction false} GenuineConcat(p: Published, c: Consumer, a: seq<Step>, b: seq<Step>)
    requires GenuineSteps(p, c, a) && GenuineSteps(p, StepAll(c, a), b)
    ensures GenuineSteps(p, c, a + b)
  {
    if b == [] {
      assert a + b == a;
    } else {
      GenuineConcat(p, c, a, b[..|b| - 1]);
      StepConcat(c, a, b[..|b| - 1]);
      ConcatInit(a, b);
    }
  }

  lemma {:induction false} RunIsGenuine(p: Published, arrivals: seq<Arrival>)
    requires GenuineRun(p, arrivals)
    ensures GenuineSteps(p, FRESH, Handled(arrivals))
  {
    if arrivals != [] {
      var init, last := arrivals[..|arrivals| - 1], arrivals[|arrivals| - 1];
      RunIsGenuine(p, init);
      if !last.fromSnapshot || RunConsumer(init).lost {
        RunIsSteps(init);
        BufferIsGenuine(p, RunConsumer(init), last.fromSnapshot, last.messages);
        GenuineConcat(p, FRESH, Handled(init), StepsOf(last.fromSnapshot, last.messages));
      }
    }
  }

  lemma {:induction false} StepsAreSafe(p: Published, c: Consumer, steps: seq<Step>)
    requires WellPublished(p) && Safe(p, c) && GenuineSteps(p, c, steps)
    ensures Safe(p, StepAll(c, steps))
  {
    if steps != [] {
      var init, last := steps[..|steps| - 1], steps[|steps| - 1];
      StepsAreSafe(p, c, init);
      ReceiveIsSafe(p, StepAll(c, init), last.fromSnapshot, last.message);
    }
  }

  // ---------- what a recovery passes on ----------

  /** On top of `out`, `body` was passed on and then the updates after `n`. */
  ghost predicate PassedOn(p: Published, out: seq<MarketUpdate>, r: Consumer, n: nat, body: seq<MarketUpdate>) {
    n < r.exp <= |p| + 1 && r.out == out + (body + p[n..r.exp - 1])
  }

  ghost predicate IsStateAt(p: Published, n: nat, t: Table)
    requires n <= |p|
  {
    t == StateAt(p, n)
  }

  /** `body` is that of the publication after `n`; folded, for what only carries it from step to step. */
  ghost predicate BodyAt(p: Published, n: nat, body: seq<MarketUpdate>) {
    n <= |p| && forall t {:trigger IsStateAt(p, n, t)} :: IsStateAt(p, n, t) ==> body == SnapshotBody(t)
  }

  lemma BodyIs(p: Published, n: nat, body: seq<MarketUpdate>)
    requires n <= |p|
    ensures BodyAt(p, n, body) <==> body == SnapshotBody(StateAt(p, n))
  {
    assert IsStateAt(p, n, StateAt(p, n));
  }

  lemma SnapshotPasses(p: Published, q: Queue) returns (n: nat, body: seq<MarketUpdate>)
    requires LegalMarket(p) && OnePublication(p, q) && WholeSnapshot(q)
    ensures BodyAt(p, n, body) && q[|q| - 1].update.orderId == n && Payload(Updates(q)) == body
  {
    n :| FromPublication(p, n, q);
    FromIsPart(p, n, q);
    body := SnapshotBody(StateAt(p, n));
    BodyIs(p, n, body);
    StateOk(p, n);
    WholeIsThePublication(StateAt(p, n), n, q);
    PayloadOfSnapshot(StateAt(p, n), n);
  }

  lemma SplicedPasses(p: Published, c: Consumer, r: Consumer, n: nat, body: seq<MarketUpdate>)
    requires LegalMarket(p) && Spliced(c, r) && GenuineQueue(p, c.incremental) && Ascending(c.incremental)
    requires n <= |p| && c.snapshot[|c.snapshot| - 1].update.orderId == n && Payload(Updates(c.snapshot)) == body
    ensures PassedOn(p, c.out, r, n, body)
  {
    LegalHasNoBounds(p);
    TakenPayload(p, c.incremental, n, CatchUp(c.incremental, n + 1));
    JoinsEitherWay(c.out, body, p[n..r.exp - 1]);
  }

  lemma RecoveryPasses(p: Published, c: Consumer) returns (n: nat, body: seq<MarketUpdate>)
    requires LegalMarket(p) && Safe(p, c) && c.lost && !CheckSync(c).lost
    ensures BodyAt(p, n, body) && PassedOn(p, c.out, CheckSync(c), n, body)
  {
    CompletedIsSpliced(c);
    n, body := SnapshotPasses(p, c.snapshot);
    SplicedPasses(p, c, CheckSync(c), n, body);
  }

  /** The message that ends a recovery. */
  lemma EndOfRecovery(p: Published, c: Consumer, fromSnapshot: bool, m: Sequenced)
      returns (n: nat, body: seq<MarketUpdate>)
    requires LegalMarket(p) && Safe(p, c) && c.lost && Genuine(p, c, fromSnapshot, m)
    requires !Receive(c, fromSnapshot, m).lost
    ensures BodyAt(p, n, body) && PassedOn(p, c.out, Receive(c, fromSnapshot, m), n, body)
  {
    QueuedIsSafe(p, c, fromSnapshot, m);
    n, body := RecoveryPasses(p, if fromSnapshot then c.(snapshot := WithSnapshot(c.snapshot, m))
                                 else c.(incremental := Put(c.incremental, m)));
  }

  /** A message out of order starts a recovery, which cannot end with it. */
  lemma OutOfOrderIsLost(c: Consumer, fromSnapshot: bool, m: Sequenced)
    requires !c.lost && m.num != c.exp
    ensures Receive(c, fromSnapshot, m).lost
  {
  }

  // ---------- what a linked book makes of it ----------

  /** Whenever the stream clears the book, there is nothing in it. */
  ghost predicate BlankAtClears(us: seq<MarketUpdate>) {
    us == [] ||
    var init, last := us[..|us| - 1], us[|us| - 1];
    BlankAtClears(init) && (last.kind == CLEAR ==> Replay(BLANK, init) == BLANK)
  }

  /** The linked book has room for the stream, and the cache's rule applies to it. */
  ghost predicate Followable(us: seq<MarketUpdate>) {
    ManageableTo(BLANK, us) && FreshTo(BLANK, us)
  }

  lemma {:induction false} BlankBefore(us: seq<MarketUpdate>, vs: seq<MarketUpdate>)
    requires BlankAtClears(us + vs)
    ensures BlankAtClears(us)
    ensures vs != [] && vs[0].kind == CLEAR ==> Replay(BLANK, us) == BLANK
  {
    if vs == [] {
      assert us + vs == us;
    } else {
      ConcatInit(us, vs);
      BlankBefore(us, vs[..|vs| - 1]);
      if |vs| == 1 {
        assert us + vs[..0] == us;
      }
    }
  }

  lemma FollowableConcat(us: seq<MarketUpdate>, vs: seq<MarketUpdate>)
    requires Followable(us) && ManageableTo(Replay(BLANK, us), vs) && FreshTo(Replay(BLANK, us), vs)
    ensures Followable(us + vs)
  {
    ManageableConcat(BLANK, us, vs);
    FreshConcat(BLANK, us, vs);
  }

  lemma {:induction false} ManageableIsBlank(us: seq<MarketUpdate>)
    requires ManageableTo(BLANK, us)
    ensures BlankAtClears(us)
  {
    if us != [] {
      ManageableIsBlank(us[..|us| - 1]);
      CanTakeIs(Replay(BLANK, us[..|us| - 1]), us[|us| - 1]);
    }
  }

  /** What a consumer has passed on of the ticker can be followed if the book was blank at every clear. */
  ghost predicate FollowedIfBlank(out: seq<MarketUpdate>, ticker: nat) {
    BlankAtClears(Only(out, ticker)) ==> Followable(Only(out, ticker))
  }

  /** One more update of the stream, with the book where the stream before it has it. */
  lemma NextIsFollowed(p: Published, out: seq<MarketUpdate>, e: nat, ticker: nat)
    requires LegalMarket(p) && e < |p| && ticker < MAX_TICKERS && ManageableTo(BLANK, Only(p, ticker))
    requires Replay(BLANK, Only(out, ticker)) == ReplicaAt(p[..e], ticker) && FollowedIfBlank(out, ticker)
    ensures FollowedIfBlank(out + [p[e]], ticker)
  {
    var us, vs := Only(out, ticker), Only([p[e]], ticker);
    OnlyConcat(out, [p[e]], ticker);
    OneMoreUpdate(p, e, ticker);
    if BlankAtClears(us + vs) {
      BlankBefore(us, vs);
      FollowableConcat(us, vs);
    }
  }

  lemma OneMoreUpdate(p: Published, e: nat, ticker: nat)
    requires LegalMarket(p) && e < |p| && ticker < MAX_TICKERS && ManageableTo(BLANK, Only(p, ticker))
    ensures ManageableTo(ReplicaAt(p[..e], ticker), Only([p[e]], ticker))
    ensures FreshTo(ReplicaAt(p[..e], ticker), Only([p[e]], ticker))
  {
    var before, one, rest := p[..e], [p[e]], p[e + 1..];
    assert p == before + (one + rest);
    OnlyConcat(before, one + rest, ticker);
    OnlyConcat(one, rest, ticker);
    ManageableSplit(BLANK, Only(before, ticker), Only(one + rest, ticker));
    ManageableSplit(ReplicaAt(before, ticker), Only(one, ticker), Only(rest, ticker));
    LegalSplit(BLANK, Only(before, ticker), Only(one + rest, ticker));
    LegalSplit(ReplicaAt(before, ticker), Only(one, ticker), Only(rest, ticker));
    LegalIsFresh(ReplicaAt(before, ticker), Only(one, ticker));
  }

  lemma PrefixIsManageable(p: Published, e: nat, ticker: nat)
    requires e <= |p| && ManageableTo(BLANK, Only(p, ticker))
    ensures ManageableTo(BLANK, Only(p[..e], ticker))
  {
    SplitJoins(p, e);
    OnlyConcat(p[..e], p[e..], ticker);
    ManageableSplit(BLANK, Only(p[..e], ticker), Only(p[e..], ticker));
  }

  /** Of each ticker, a recovery passes on what a late joiner of the stream up to the next number gets. */
  lemma SegmentIsLateStream(p: Published, n: nat, body: seq<MarketUpdate>, ticker: nat, e: nat)
    requires BodyAt(p, n, body) && n <= e <= |p|
    ensures Only(body + p[n..e], ticker) == LateStream(p[..e], n, ticker)
  {
    BodyIs(p, n, body);
    assert p[..e][..n] == p[..n] && p[..e][n..] == p[n..e];
  }

  /** A late joiner's stream starts with the clear, and can be followed from a blank book. */
  lemma SegmentIsFollowed(p: Published, n: nat, ticker: nat, e: nat)
    requires LegalMarket(p) && n <= e <= |p| && ticker < MAX_TICKERS && ManageableTo(BLANK, Only(p, ticker))
    ensures var vs := LateStream(p[..e], n, ticker); vs != [] && vs[0].kind == CLEAR && Followable(vs)
  {
    LegalMarketPrefix(p, e);
    PrefixIsManageable(p, e, ticker);
    LateJoinerIsManageable(p[..e], n, ticker);
    LateJoinerIsFresh(p[..e], n, ticker);
    var stored, r := LateStreamIs(p[..e], n, ticker);
  }

  lemma SegmentIsBlank(p: Published, r: Consumer, n: nat, body: seq<MarketUpdate>, ticker: nat)
    requires LegalMarket(p) && BodyAt(p, n, body) && PassedOn(p, [], r, n, body)
    requires ticker < MAX_TICKERS && ManageableTo(BLANK, Only(p, ticker))
    ensures BlankAtClears(Only(r.out, ticker))
  {
    var e := r.exp - 1;
    SegmentIsLateStream(p, n, body, ticker, e);
    SegmentIsFollowed(p, n, ticker, e);
    StreamIsBlank(r.out, body + p[n..e], LateStream(p[..e], n, ticker), ticker);
  }

  lemma StreamIsBlank(out: seq<MarketUpdate>, segment: seq<MarketUpdate>, us: seq<MarketUpdate>, ticker: nat)
    requires out == [] + segment && us == Only(segment, ticker) && ManageableTo(BLANK, us)
    ensures BlankAtClears(Only(out, ticker))
  {
    NothingBefore(segment);
    ManageableIsBlank(us);
  }

  lemma AfterClear(us: seq<MarketUpdate>, vs: seq<MarketUpdate>)
    requires BlankAtClears(us) ==> Followable(us)
    requires vs != [] && vs[0].kind == CLEAR && Followable(vs)
    ensures BlankAtClears(us + vs) ==> Followable(us + vs)
  {
    if BlankAtClears(us + vs) {
      BlankBefore(us, vs);
      FollowableConcat(us, vs);
    }
  }

  lemma RecoveryIsFollowed(p: Published, out: seq<MarketUpdate>, r: Consumer, n: nat, body: seq<MarketUpdate>,
                           ticker: nat)
    requires LegalMarket(p) && ticker < MAX_TICKERS && ManageableTo(BLANK, Only(p, ticker))
    requires BodyAt(p, n, body) && PassedOn(p, out, r, n, body) && FollowedIfBlank(out, ticker)
    ensures FollowedIfBlank(r.out, ticker)
  {
    var e := r.exp - 1;
    SegmentIsLateStream(p, n, body, ticker, e);
    SegmentIsFollowed(p, n, ticker, e);
    OnlyConcat(out, body + p[n..e], ticker);
    AfterClear(Only(out, ticker), LateStream(p[..e], n, ticker));
  }

  lemma InOrderIsFollowed(p: Published, c: Consumer, fromSnapshot: bool, m: Sequenced, ticker: nat)
    requires LegalMarket(p) && ticker < MAX_TICKERS && ManageableTo(BLANK, Only(p, ticker))
    requires !c.lost && m.num == c.exp && QueuesFaithful(p, c) && FollowedIfBlank(c.out, ticker)
    requires !fromSnapshot ==> GenuineIncremental(p, m)
    ensures FollowedIfBlank(Receive(c, fromSnapshot, m).out, ticker)
  {
    if !fromSnapshot {
      assert ReplicaAt(c.out, ticker) == ReplicaAt(p[..c.exp - 1], ticker);
      NextIsFollowed(p, c.out, c.exp - 1, ticker);
    }
  }

  lemma EndIsFollowed(p: Published, c: Consumer, fromSnapshot: bool, m: Sequenced, r: Consumer, ticker: nat)
    requires LegalMarket(p) && ticker < MAX_TICKERS && ManageableTo(BLANK, Only(p, ticker))
    requires Safe(p, c) && Genuine(p, c, fromSnapshot, m) && FollowedIfBlank(c.out, ticker)
    requires c.lost && r == Receive(c, fromSnapshot, m) && !r.lost
    ensures FollowedIfBlank(r.out, ticker)
  {
    var n, body := EndOfRecovery(p, c, fromSnapshot, m);
    RecoveryIsFollowed(p, c.out, r, n, body, ticker);
  }

  lemma ReceiveIsFollowed(p: Published, c: Consumer, fromSnapshot: bool, m: Sequenced, ticker: nat)
    requires LegalMarket(p) && ticker < MAX_TICKERS && ManageableTo(BLANK, Only(p, ticker))
    requires Safe(p, c) && QueuesFaithful(p, c) && Genuine(p, c, fromSnapshot, m) && FollowedIfBlank(c.out, ticker)
    ensures FollowedIfBlank(Receive(c, fromSnapshot, m).out, ticker)
  {
    if Receive(c, fromSnapshot, m).lost {
      StaysLost(c, fromSnapshot, m);
    } else if c.lost {
      EndIsFollowed(p, c, fromSnapshot, m, Receive(c, fromSnapshot, m), ticker);
    } else if m.num != c.exp {
      OutOfOrderIsLost(c, fromSnapshot, m);
    } else {
      InOrderIsFollowed(p, c, fromSnapshot, m, ticker);
    }
  }

  // ---------- whole runs ----------

  lemma LegalIsWell(p: Published)
    requires LegalMarket(p)
    ensures WellPublished(p)
  {
  }

  lemma {:induction false} StepsAreFollowed(p: Published, steps: seq<Step>, ticker: nat)
    requires LegalMarket(p) && WellPublished(p) && ticker < MAX_TICKERS && ManageableTo(BLANK, Only(p, ticker))
    requires GenuineSteps(p, FRESH, steps)
    ensures var c := StepAll(FRESH, steps);
            Safe(p, c) && QueuesFaithful(p, c) && FollowedIfBlank(c.out, ticker)
  {
    if steps == [] {
      FreshIsSafe(p);
      assert p[..0] == [];
      assert Followable([]);
    } else {
      var init, last := steps[..|steps| - 1], steps[|steps| - 1];
      StepsAreFollowed(p, init, ticker);
      ReceiveIsSafe(p, StepAll(FRESH, init), last.fromSnapshot, last.message);
      ReceiveKeepsQueues(p, StepAll(FRESH, init), last.fromSnapshot, last.message);
      ReceiveIsFollowed(p, StepAll(FRESH, init), last.fromSnapshot, last.message, ticker);
    }
  }

  /** What a linked book of the ticker that takes `us` needs and shows; `c` is the consumer that passed `us` on. */
  ghost predicate Followed(p: Published, c: Consumer, us: seq<MarketUpdate>, ticker: nat) {
    && (ManageableTo(BLANK, us) <==> BlankAtClears(us))
    && (BlankAtClears(us) ==> QuoteRight(us, BUY) && QuoteRight(us, SELL))
    && (!c.lost ==> 1 <= c.exp <= |p| + 1 && Replay(BLANK, us) == ReplicaAt(p[..c.exp - 1], ticker))
  }

  lemma StateIsFollowed(p: Published, c: Consumer, us: seq<MarketUpdate>, ticker: nat)
    requires QueuesFaithful(p, c) && FollowedIfBlank(c.out, ticker) && us == Only(c.out, ticker) && ticker < MAX_TICKERS
    ensures Followed(p, c, us, ticker)
  {
    if ManageableTo(BLANK, us) {
      ManageableIsBlank(us);
    }
    if BlankAtClears(us) {
      BboIsRight(us);
    }
    if !c.lost {
      assert ReplicaAt(c.out, ticker) == ReplicaAt(p[..c.exp - 1], ticker);
    }
  }

  /**
   Over any genuine run of callbacks, for a ticker a linked book could follow from the start: what the consumer
   passes on of it can be followed if and only if the book is blank at every clear; then its cache is right or
   invalid by the one rule; and outside recovery it means the published stream before the next expected number.
   */
  lemma RunIsFollowed(p: Published, arrivals: seq<Arrival>, ticker: nat)
    requires LegalMarket(p) && GenuineRun(p, arrivals) && ticker < MAX_TICKERS && ManageableTo(BLANK, Only(p, ticker))
    ensures Followed(p, RunConsumer(arrivals), Only(RunConsumer(arrivals).out, ticker), ticker)
  {
    LegalIsWell(p);
    RunIsGenuine(p, arrivals);
    RunIsSteps(arrivals);
    StepsAreFollowed(p, Handled(arrivals), ticker);
    StateIsFollowed(p, RunConsumer(arrivals), Only(RunConsumer(arrivals).out, ticker), ticker);
  }

  /** A linked book that takes what was passed on. */
  method FollowPassed(ghost p: Published, ghost c: Consumer, us: seq<MarketUpdate>, ticker: nat)
      returns (book: MarketOrderBook)
    requires Followed(p, c, us, ticker) && BlankAtClears(us)
    ensures fresh(book) && book.Valid() && book.Model() == Replay(BLANK, us)
    ensures book.bbo.bid == if Touched(us, BUY) then Best(book.Model().bids) else NO_QUOTE
    ensures book.bbo.ask == if Touched(us, SELL) then Best(book.Model().asks) else NO_QUOTE
  {
    book := Follow(ticker, us);
  }

  /** A consumer and a linked book of what it passes on, wherever that can be followed. */
  method TakeRun(ghost p: Published, arrivals: seq<Arrival>, ghost c: Consumer, ghost us: seq<MarketUpdate>,
                 ticker: nat)
      returns (consumer: MarketDataConsumer, book: MarketOrderBook)
    requires c == RunConsumer(arrivals) && us == Only(c.out, ticker) && Followed(p, c, us, ticker) && BlankAtClears(us)
    ensures consumer.State() == c && book.Valid() && book.Model() == Replay(BLANK, us)
    ensures !c.lost ==> 1 <= c.exp <= |p| + 1 && book.Model() == ReplicaAt(p[..c.exp - 1], ticker)
    ensures book.bbo.bid == if Touched(us, BUY) then Best(book.Model().bids) else NO_QUOTE
    ensures book.bbo.ask == if Touched(us, SELL) then Best(book.Model().asks) else NO_QUOTE
  {
    consumer := Consume(arrivals);
    book := FollowPassed(p, consumer.State(), Only(consumer.incoming, ticker), ticker);
  }

  /** Consumer object and linked book together, over any genuine run that clears the book only while it is empty. */
  method FollowFeed(ghost p: Published, arrivals: seq<Arrival>, ghost c: Consumer, ghost us: seq<MarketUpdate>,
                    ticker: nat)
      returns (consumer: MarketDataConsumer, book: MarketOrderBook)
    requires LegalMarket(p) && GenuineRun(p, arrivals) && ticker < MAX_TICKERS && ManageableTo(BLANK, Only(p, ticker))
    requires c == RunConsumer(arrivals) && us == Only(c.out, ticker) && BlankAtClears(us)
    ensures consumer.State() == c && book.Valid() && book.Model() == Replay(BLANK, us)
    ensures !c.lost ==> 1 <= c.exp <= |p| + 1 && book.Model() == ReplicaAt(p[..c.exp - 1], ticker)
    ensures book.bbo.bid == if Touched(us, BUY) then Best(book.Model().bids) else NO_QUOTE
    ensures book.bbo.ask == if Touched(us, SELL) then Best(book.Model().asks) else NO_QUOTE
  {
    RunIsFollowed(p, arrivals, ticker);
    consumer, book := TakeRun(p, arrivals, c, us, ticker);
  }
}

/** A participant's linked book follows the exchange's over any history the pools and tables can hold. */
module BookFollower {
  import opened MarketTypes
  import opened Sequences
  import opened PriceTimeBook
  import opened BookSafety
  import opened Lifecycle
  import opened MatchingBook
  import opened ReplicaBook
  import opened Replication
  import opened LateJoiner
  import opened BestBidOffer
  import opened MarketOrderBooks
  import opened MEOrderBooks
  import opened EngineRun

  ghost predicate SameUpdate(u: MarketUpdate, v: MarketUpdate) {
    u == v
  }

  /** `Manageable`, folded: streams carry it whole and lemmas unfold it. */
  ghost predicate CanTake(r: Replica, u: MarketUpdate) {
    forall v {:trigger SameUpdate(u, v)} :: SameUpdate(u, v) ==> Manageable(r, v)
  }

  lemma CanTakeIs(r: Replica, u: MarketUpdate)
    ensures CanTake(r, u) <==> Manageable(r, u)
  {
    assert SameUpdate(u, u);
  }

  /** Every update meets what the linked book needs. */
  ghost predicate ManageableTo(r: Replica, us: seq<MarketUpdate>) {
    us == [] || (ManageableTo(r, us[..|us| - 1]) && CanTake(Replay(r, us[..|us| - 1]), us[|us| - 1]))
  }

  lemma {:induction false} ManageableConcat(r: Replica, us: seq<MarketUpdate>, vs: seq<MarketUpdate>)
    requires ManageableTo(r, us) && ManageableTo(Replay(r, us), vs)
    ensures ManageableTo(r, us + vs)
  {
    if vs == [] {
      assert us + vs == us;
    } else {
      ManageableConcat(r, us, vs[..|vs| - 1]);
      ReplayConcat(r, us, vs[..|vs| - 1]);
      ConcatLast(us, vs);
      CanTakeIs(Replay(Replay(r, us), vs[..|vs| - 1]), vs[|vs| - 1]);
      ManageableStep(r, us + vs[..|vs| - 1], Replay(Replay(r, us), vs[..|vs| - 1]), vs[|vs| - 1]);
    }
  }

  lemma ManageableStep(r: Replica, us: seq<MarketUpdate>, q: Replica, u: MarketUpdate)
    requires ManageableTo(r, us) && Replay(r, us) == q && Manageable(q, u)
    ensures ManageableTo(r, us + [u])
  {
    CanTakeIs(q, u);
    assert (us + [u])[..|us|] == us;
  }

  ghost predicate OnlyChanges(us: seq<MarketUpdate>) {
    forall i :: 0 <= i < |us| ==>
        us[i].kind in {MODIFY, CANCEL, TRADE} && (us[i].kind != TRADE ==> us[i].orderId < MAX_ORDER_IDS)
  }

  lemma {:induction false} ChangesAreManageable(r: Replica, us: seq<MarketUpdate>)
    requires OnlyChanges(us)
    ensures ManageableTo(r, us)
  {
    if us != [] {
      ChangesAreManageable(r, us[..|us| - 1]);
      CanTakeIs(Replay(r, us[..|us| - 1]), us[|us| - 1]);
    }
  }

  lemma {:induction false} SweepOnlyChanges(ticker: nat, own: seq<Order>, t: Taker, s: Sweep)
    requires MidSweepInv(own, t, s) && OnlyChanges(s.updates) && t.id <= MAX_ORDER_IDS
    ensures OnlyChanges(SweepAll(ticker, t, s).updates)
    decreases |s.resting|, s.left
  {
    if Matchable(t, s) {
      MatchHeadKeepsInv(ticker, own, t, s);
      SweepOnlyChanges(ticker, own, t, MatchHead(ticker, t, s));
    }
  }

  // ---------- the replica has room whenever the exchange had ----------

  /** Showing changes no price. */
  lemma ShownPrices(s: seq<Order>, stale: Stale, price: nat)
    ensures Prices(Shown(s, stale)) == Prices(s)
    ensures SlotIsClear(s, price) ==> SlotIsClear(Shown(s, stale), price)
    ensures Unpriced(s, price) ==> Unpriced(Shown(s, stale), price)
  {
    var t := Shown(s, stale);
    forall p ensures p in Prices(t) <==> p in Prices(s) {
      if p in Prices(t) {
        var i :| 0 <= i < |t| && t[i].price == p;
        assert s[i].price == p;
      }
      if p in Prices(s) {
        var i :| 0 <= i < |s| && s[i].price == p;
        assert t[i].price == p;
      }
    }
    forall i | 0 <= i < |t| && SlotIsClear(s, price) ensures SharesNoSlot(t, price, i) {
      assert SharesNoSlot(s, price, i);
    }
    forall i | 0 <= i < |t| && Unpriced(s, price) ensures PricedElse(t, price, i) {
      assert PricedElse(s, price, i);
    }
  }

  lemma RestIsManageable(b: Book, stale: Stale, r: Request, u: MarketUpdate)
    requires r.NewOrder? && r.side != NO_SIDE && Fits(b, r) && Unpriced(Resting(b, Opposite(r.side)), r.price)
    requires u.kind == ADD && u.side == r.side && u.price == r.price && u.orderId < MAX_ORDER_IDS
    requires SideOf(View(b, stale), u.orderId) == NO_SIDE
    ensures Manageable(View(b, stale), u)
  {
    FitsShown(b, stale, r);
    ShownPrices(Resting(b, Opposite(r.side)), stale, r.price);
    assert Fits(AsBook(View(b, stale)), AsRequest(u));
  }

  lemma FitsShown(b: Book, stale: Stale, r: Request)
    requires r.NewOrder? && Fits(b, r)
    ensures Fits(AsBook(View(b, stale)), r.(client := 0, orderId := 0))
  {
    ShownPrices(b.bids, stale, r.price);
    ShownPrices(b.asks, stale, r.price);
  }

  lemma YoungestIsUnknown(b: Book, stale: Stale, o: Order)
    requires Youngest(b, o)
    ensures SideOf(View(b, stale), o.id) == NO_SIDE
  {
  }

  lemma SweptIsManageable(ticker: nat, b: Book, r: Request, stale: Stale)
    requires BookInv(b) && r.NewOrder? && r.side != NO_SIDE && b.nextId < MAX_ORDER_IDS
    ensures ManageableTo(View(b, stale), Swept(ticker, b, r).updates)
  {
    SweepOnlyChanges(ticker, Resting(b, r.side), TakerOf(b, r),
                     Sweep(Resting(b, Opposite(r.side)), r.qty, [Accepted(ticker, b, r)], []));
    ChangesAreManageable(View(b, stale), Swept(ticker, b, r).updates);
  }

  lemma AddIsManageable(ticker: nat, b: Book, r: Request, stale: Stale)
    requires BookInv(b) && r.NewOrder? && Acceptable(ticker, b, r) && Roomed(ticker, b, r) && b.nextId < MAX_ORDER_IDS
    ensures ManageableTo(View(b, stale), Add(ticker, b, r).updates)
  {
    SweptIsManageable(ticker, b, r, stale);
    if Swept(ticker, b, r).left > 0 {
      var us, o := Swept(ticker, b, r).updates, Remainder(ticker, b, r);
      var mid := View(SweptBook(ticker, b, r), Corrected(stale, us));
      SweptFeed(ticker, b, r, stale);
      SoundIsInv(b);
      RemainderReady(ticker, b, r);
      RemainderIsYoungest(ticker, b, r);
      YoungestIsUnknown(SweptBook(ticker, b, r), Corrected(stale, us), o);
      RestIsManageable(SweptBook(ticker, b, r), Corrected(stale, us), r, AddUpdate(ticker, o, r.qty));
      ManageableStep(View(b, stale), us, mid, AddUpdate(ticker, o, r.qty));
    }
  }

  lemma ProcessIsManageable(ticker: nat, b: Book, r: Request, stale: Stale)
    requires BookInv(b) && Acceptable(ticker, b, r) && Roomed(ticker, b, r)
    requires Process(ticker, b, r).book.nextId <= MAX_ORDER_IDS
    ensures ManageableTo(View(b, stale), Process(ticker, b, r).updates)
  {
    if r.NewOrder? {
      SweptBookSides(ticker, b, r);
      AddIsManageable(ticker, b, r, stale);
    } else {
      WithdrawnIdIsOlder(ticker, b, r);
      ChangesAreManageable(View(b, stale), Process(ticker, b, r).updates);
    }
  }

  lemma WithdrawnIdIsOlder(ticker: nat, b: Book, r: Request)
    requires BookInv(b) && r.CancelOrder? && b.nextId <= MAX_ORDER_IDS
    ensures OnlyChanges(Cancel(ticker, b, r).updates)
  {
  }

  /**
   Whatever the exchange's book had room for, the participant's has, as long as the ids handed out
   stay within its table; the exchange itself does not look them up.
   */
  lemma {:induction false} RunIsManageable(ticker: nat, rs: seq<Request>)
    requires Admitted(ticker, rs) && RoomedRun(ticker, rs) && Run(ticker, rs).book.nextId <= MAX_ORDER_IDS
    ensures ManageableTo(BLANK, Run(ticker, rs).updates)
  {
    if rs != [] {
      var init := rs[..|rs| - 1];
      var before := Run(ticker, init);
      RunKeepsInv(ticker, init);
      ProcessFromBook(ticker, before.book, rs[|rs| - 1]);
      RunIsManageable(ticker, init);
      RunFeed(ticker, init);
      ProcessIsManageable(ticker, before.book, rs[|rs| - 1], StaleAfter(ticker, init));
      ManageableConcat(BLANK, before.updates, Process(ticker, before.book, rs[|rs| - 1]).updates);
    }
  }

  lemma {:induction false} ManageablePrefix(r: Replica, us: seq<MarketUpdate>, n: nat)
    requires ManageableTo(r, us) && n < |us|
    ensures ManageableTo(r, us[..n]) && Manageable(Replay(r, us[..n]), us[n])
    decreases |us|
  {
    if n < |us| - 1 {
      ManageablePrefix(r, us[..|us| - 1], n);
      assert us[..|us| - 1][..n] == us[..n];
    } else {
      CanTakeIs(Replay(r, us[..n]), us[n]);
    }
  }

  /** A fresh linked book fed with a stream ends up as the stream says, cache included. */
  method Follow(ticker: nat, us: seq<MarketUpdate>) returns (book: MarketOrderBook)
    requires ManageableTo(BLANK, us)
    ensures fresh(book) && book.Valid() && book.Model() == Replay(BLANK, us) && book.bbo == BboAfter(us)
  {
    book := new MarketOrderBook(ticker);
    var n := 0;
    while n < |us|
      invariant n <= |us| && fresh(book) && fresh(book.ladder.Repr()) && book.Valid()
      invariant book.Model() == Replay(BLANK, us[..n]) && book.bbo == BboAfter(us[..n])
    {
      ManageablePrefix(BLANK, us, n);
      assert us[..n + 1][..n] == us[..n];
      book.OnMarketUpdate(us[n]);
      n := n + 1;
    }
    assert us[..n] == us;
  }

  /** Fed with the stream of any history the exchange had room for, it shows the exchange's book. */
  method FollowExchange(ticker: nat, ghost rs: seq<Request>, us: seq<MarketUpdate>) returns (book: MarketOrderBook)
    requires Admitted(ticker, rs) && RoomedRun(ticker, rs) && Run(ticker, rs).book.nextId <= MAX_ORDER_IDS
    requires us == Run(ticker, rs).updates
    ensures fresh(book) && book.Valid() && book.Model() == View(Run(ticker, rs).book, StaleAfter(ticker, rs))
    ensures book.bbo.bid == if Touched(us, BUY) then Best(book.Model().bids) else NO_QUOTE
    ensures book.bbo.ask == if Touched(us, SELL) then Best(book.Model().asks) else NO_QUOTE
  {
    RunIsManageable(ticker, rs);
    RunFeed(ticker, rs);
    RunBbo(ticker, rs, BUY);
    RunBbo(ticker, rs, SELL);
    book := Follow(ticker, us);
  }

  /** Both linked books side by side: the exchange serves a history, the participant follows its stream. */
  method ServeAndFollow(ticker: nat, rs: seq<Request>) returns (exchange: MEOrderBook, book: MarketOrderBook)
    requires Admitted(ticker, rs) && RoomedRun(ticker, rs) && Run(ticker, rs).book.nextId <= MAX_ORDER_IDS
    ensures exchange.Valid() && book.Valid()
    ensures book.Model() == View(exchange.Model(), StaleAfter(ticker, rs))
  {
    exchange := ServeHistory(ticker, rs);
    book := FollowExchange(ticker, rs, exchange.updates);
  }
}

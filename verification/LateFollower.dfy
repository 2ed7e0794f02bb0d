/**
 A late joiner's linked book: whatever a book that saw the whole stream had room for, one that starts
 from a snapshot has, and it ends up the same.
 */
module LateFollower {
  import opened MarketTypes
  import opened Sequences
  import opened PriceTimeBook
  import opened BookSafety
  import opened MatchingBook
  import LadderHeap
  import opened ReplicaBook
  import opened Replication
  import opened MarketFeed
  import opened LateJoiner
  import opened BestBidOffer
  import opened MarketOrderBooks
  import opened EngineRun
  import opened BookFollower

  // ---------- what a linked book holds fits its tables, in any order ----------

  ghost predicate PricedAt(r: Replica, price: nat) {
    price in Prices(r.bids) + Prices(r.asks)
  }

  /** No two prices share a slot of the price table. */
  ghost predicate NoClash(r: Replica) {
    forall p, q {:trigger PricedAt(r, p), PricedAt(r, q)} ::
      PricedAt(r, p) && PricedAt(r, q) && LadderHeap.PriceToIndex(p) == LadderHeap.PriceToIndex(q) ==> p == q
  }

  /** No price is on both sides. */
  ghost predicate Apart(r: Replica) {
    forall p :: p in Prices(r.bids) ==> p !in Prices(r.asks)
  }

  /** A cell to spare in each pool, no slot of the price table wanted twice, and no price on both sides. */
  ghost predicate Housed(r: Replica) {
    && |r.bids| + |r.asks| < MAX_ORDER_IDS
    && |Prices(r.bids) + Prices(r.asks)| < MAX_PRICE_LEVELS
    && NoClash(r) && Apart(r)
  }

  lemma SubsetSize<T>(a: set<T>, b: set<T>)
    requires a <= b
    ensures |a| <= |b|
  {
    assert b == a + (b - a);
  }

  /** Fewer orders at no other prices. */
  ghost predicate Within(q: Replica, r: Replica) {
    && |q.bids| <= |r.bids| && |q.asks| <= |r.asks|
    && Prices(q.bids) <= Prices(r.bids) && Prices(q.asks) <= Prices(r.asks)
  }

  lemma WithinIsHoused(q: Replica, r: Replica)
    requires Housed(r) && Within(q, r)
    ensures Housed(q)
  {
    SubsetSize(Prices(q.bids) + Prices(q.asks), Prices(r.bids) + Prices(r.asks));
    forall p, s | PricedAt(q, p) && PricedAt(q, s) && LadderHeap.PriceToIndex(p) == LadderHeap.PriceToIndex(s)
      ensures p == s
    {
      assert PricedAt(r, p) && PricedAt(r, s);
    }
  }

  lemma MembersPrices(s: seq<Order>, t: seq<Order>)
    requires forall x :: x in s ==> x in t
    ensures Prices(s) <= Prices(t)
  {
    forall p | p in Prices(s) ensures p in Prices(t) {
      var i :| 0 <= i < |s| && s[i].price == p;
      assert s[i] in t;
    }
  }

  lemma RequantifiedPrices(s: seq<Order>, k: nat, qty: nat)
    requires k < |s|
    ensures Prices(s[k := s[k].(qty := qty)]) <= Prices(s)
  {
    var t := s[k := s[k].(qty := qty)];
    forall p | p in Prices(t) ensures p in Prices(s) {
      var i :| 0 <= i < |t| && t[i].price == p;
      assert s[i].price == p;
    }
  }

  lemma RemovedPrices(s: seq<Order>, k: nat)
    requires k < |s|
    ensures Prices(RemoveAt(s, k)) <= Prices(s)
  {
    MembersPrices(RemoveAt(s, k), s);
  }

  lemma InsertedPrices(s: seq<Order>, o: Order)
    ensures forall p :: p in Prices(Insert(s, o)) ==> p in Prices(s) || p == o.price
  {
    InsertMembers(s, o);
    forall p | p in Prices(Insert(s, o)) ensures p in Prices(s) || p == o.price {
      var i :| 0 <= i < |Insert(s, o)| && Insert(s, o)[i].price == p;
      assert Insert(s, o)[i] in Insert(s, o);
    }
  }

  /** An order that fits, in. */
  lemma AddedIsHoused(r: Replica, u: MarketUpdate)
    requires Housed(r) && u.kind == ADD && Manageable(r, u)
    ensures Housed(Apply(r, u))
  {
    var r' := Apply(r, u);
    var before, after := Prices(r.bids) + Prices(r.asks), Prices(r'.bids) + Prices(r'.asks);
    InsertedPrices(Of(r, u.side), OrderIn(u));
    assert after <= before + {u.price};
    SubsetSize(after, before + {u.price});
    UnpricedIsAbsent(Of(r, Opposite(u.side)), u.price);
    forall p | PricedAt(r, p) && LadderHeap.PriceToIndex(p) == LadderHeap.PriceToIndex(u.price) ensures p == u.price {
      SlotIsTaken(r, p, u.price);
    }
    forall p, q | PricedAt(r', p) && PricedAt(r', q) && LadderHeap.PriceToIndex(p) == LadderHeap.PriceToIndex(q)
      ensures p == q
    {
      assert p != u.price ==> PricedAt(r, p);
      assert q != u.price ==> PricedAt(r, q);
    }
  }

  lemma SlotIsTaken(r: Replica, p: nat, price: nat)
    requires PricedAt(r, p) && SlotIsClear(r.bids, price) && SlotIsClear(r.asks, price)
    requires LadderHeap.PriceToIndex(p) == LadderHeap.PriceToIndex(price)
    ensures p == price
  {
    if p in Prices(r.bids) {
      var i :| 0 <= i < |r.bids| && r.bids[i].price == p;
      assert SharesNoSlot(r.bids, price, i);
    } else {
      var i :| 0 <= i < |r.asks| && r.asks[i].price == p;
      assert SharesNoSlot(r.asks, price, i);
    }
  }

  lemma AppliedIsHoused(r: Replica, u: MarketUpdate)
    requires Housed(r) && Manageable(r, u)
    ensures Housed(Apply(r, u))
  {
    var side := SideOf(r, u.orderId);
    if u.kind == ADD {
      AddedIsHoused(r, u);
    } else if u.kind in {MODIFY, CANCEL} && side != NO_SIDE {
      var k := Seek(Of(r, side), u.orderId);
      RequantifiedPrices(Of(r, side), k, u.qty);
      RemovedPrices(Of(r, side), k);
      WithinIsHoused(Apply(r, u), r);
    } else if u.kind == CLEAR {
      WithinIsHoused(BLANK, r);
    }
  }

  /** Whatever stream a linked book could follow, what it holds then fits its tables. */
  lemma {:induction false} ManageableIsHoused(us: seq<MarketUpdate>)
    requires ManageableTo(BLANK, us)
    ensures Housed(Replay(BLANK, us))
  {
    if us == [] {
      assert Prices([]) + Prices([]) == {};
    } else {
      ManageableIsHoused(us[..|us| - 1]);
      CanTakeIs(Replay(BLANK, us[..|us| - 1]), us[|us| - 1]);
      AppliedIsHoused(Replay(BLANK, us[..|us| - 1]), us[|us| - 1]);
    }
  }

  // ---------- a snapshot's orders, one by one ----------

  lemma {:induction false} BelowSize(s: seq<Order>, n: nat)
    ensures |Below(s, n)| <= |s|
    ensures (exists x :: x in s && x.id >= n) ==> |Below(s, n)| < |s|
  {
    if s != [] {
      BelowSize(s[1..], n);
    }
  }

  lemma BelowIsWithin(r: Replica, n: nat)
    ensures Within(BelowBoth(r, n), r)
  {
    BelowSize(r.bids, n);
    BelowSize(r.asks, n);
    BelowMembers(r.bids, n);
    BelowMembers(r.asks, n);
    MembersPrices(Below(r.bids, n), r.bids);
    MembersPrices(Below(r.asks, n), r.asks);
  }

  lemma BelowIsUnknown(r: Replica, n: nat)
    requires ReplicaInv(r)
    ensures SideOf(BelowBoth(r, n), n) == NO_SIDE
  {
    BelowMembers(r.bids, n);
    BelowMembers(r.asks, n);
    var q := BelowBoth(r, n);
    assert forall i :: 0 <= i < |q.bids| ==> q.bids[i] in q.bids && q.bids[i] in r.bids;
    assert forall i :: 0 <= i < |q.asks| ==> q.asks[i] in q.asks && q.asks[i] in r.asks;
  }

  lemma ClearSlot(s: seq<Order>, r: Replica, price: nat)
    requires NoClash(r) && PricedAt(r, price) && forall p :: p in Prices(s) ==> PricedAt(r, p)
    ensures SlotIsClear(s, price)
  {
    forall i | 0 <= i < |s| ensures SharesNoSlot(s, price, i) {
      assert PricedAt(r, s[i].price);
    }
  }

  /** The part with smaller ids is short of the order itself, so that there is a cell to spare. */
  lemma BelowLeavesRoom(r: Replica, o: Order)
    requires Housed(r) && Has(r, o)
    ensures var q := BelowBoth(r, o.id);
            && |q.bids| + |q.asks| + 1 < MAX_ORDER_IDS
            && (o.price in Prices(q.bids) + Prices(q.asks) || |Prices(q.bids) + Prices(q.asks)| + 1 < MAX_PRICE_LEVELS)
  {
    var q := BelowBoth(r, o.id);
    BelowSize(r.bids, o.id);
    BelowSize(r.asks, o.id);
    BelowIsWithin(r, o.id);
    var some, all := Prices(q.bids) + Prices(q.asks), Prices(r.bids) + Prices(r.asks);
    assert o.price in all;
    if o.price !in some {
      SubsetSize(some + {o.price}, all);
    }
  }

  lemma OtherSideUnpriced(r: Replica, o: Order, side: Side)
    requires Apart(r) && side != NO_SIDE && o in Of(r, side)
    ensures Unpriced(Of(BelowBoth(r, o.id), Opposite(side)), o.price)
  {
    BelowIsWithin(r, o.id);
    UnpricedIsAbsent(Of(BelowBoth(r, o.id), Opposite(side)), o.price);
  }

  /** With the orders of smaller ids in, the next one of a book that fits can be added. */
  lemma NextIsManageable(r: Replica, ticker: nat, o: Order)
    requires ReplicaInv(r) && Housed(r) && Has(r, o) && o.id < MAX_ORDER_IDS
    ensures Manageable(BelowBoth(r, o.id), AsAdd(ticker, o))
  {
    var q := BelowBoth(r, o.id);
    BelowIsWithin(r, o.id);
    BelowIsUnknown(r, o.id);
    BelowLeavesRoom(r, o);
    assert PricedAt(r, o.price);
    ClearSlot(q.bids, r, o.price);
    ClearSlot(q.asks, r, o.price);
    OtherSideUnpriced(r, o, o.side);
    assert Fits(AsBook(q), AsRequest(AsAdd(ticker, o)));
  }

  /** The order the table lists under an id is the replica's. */
  lemma ListedIsHeld(t: Table, ticker: nat, r: Replica, id: nat)
    requires ReplicaInv(r) && Lists(t, ticker, r) && Key(ticker, id) in t
    ensures Find(r, id).Some? && Has(r, Find(r, id).value) && Find(r, id).value.id == id
    ensures t[Key(ticker, id)] == AsAdd(ticker, Find(r, id).value)
  {
    assert Get(t, Key(ticker, id)) == LateJoiner.Listed(ticker, Find(r, id));
    FindIff(r, id);
  }

  /** The table's next order, if there is one under this id, can be added to those before it. */
  ghost predicate CanGrow(t: Table, ticker: nat, n: nat) {
    Key(ticker, n) in t ==> Manageable(Replay(BLANK, Stored(t, ticker, n)), t[Key(ticker, n)])
  }

  lemma StoredCanGrow(t: Table, ticker: nat, r: Replica, n: nat)
    requires ReplicaInv(r) && Housed(r) && Lists(t, ticker, r) && n < MAX_ORDER_IDS
    ensures CanGrow(t, ticker, n)
  {
    StoredRebuilds(t, ticker, r, n);
    if Key(ticker, n) in t {
      ListedIsHeld(t, ticker, r, n);
      NextIsManageable(r, ticker, Find(r, n).value);
    }
  }

  lemma {:induction false} GrownIsManageable(t: Table, ticker: nat, n: nat)
    requires forall m: nat {:trigger CanGrow(t, ticker, m)} :: m < n ==> CanGrow(t, ticker, m)
    ensures ManageableTo(BLANK, Stored(t, ticker, n))
  {
    if n > 0 {
      var before := Stored(t, ticker, n - 1);
      GrownIsManageable(t, ticker, n - 1);
      assert CanGrow(t, ticker, n - 1);
      if Key(ticker, n - 1) in t {
        ManageableStep(BLANK, before, Replay(BLANK, before), t[Key(ticker, n - 1)]);
      }
    }
  }

  lemma StoredIsManageable(t: Table, ticker: nat, r: Replica)
    requires ReplicaInv(r) && Housed(r) && Lists(t, ticker, r)
    ensures ManageableTo(BLANK, Stored(t, ticker, MAX_ORDER_IDS))
  {
    forall n: nat | n < MAX_ORDER_IDS ensures CanGrow(t, ticker, n) {
      StoredCanGrow(t, ticker, r, n);
    }
    GrownIsManageable(t, ticker, MAX_ORDER_IDS);
  }

  // ---------- the same orders, legally ----------

  lemma SmallerIdsAreOlder(side: Side, s: seq<Order>, o: Order, x: Order)
    requires side != NO_SIDE && OneSide(side, s) && o in s && x in s && x.id < o.id && x.price == o.price
    ensures x.priority < o.priority
  {
    var i :| 0 <= i < |s| && s[i] == x;
    var k :| 0 <= k < |s| && s[k] == o;
    assert if i < k then Before(side, s[i], s[k]) else Before(side, s[k], s[i]);
  }

  lemma NextIsLegal(r: Replica, ticker: nat, o: Order)
    requires ReplicaInv(r) && Has(r, o)
    ensures LegalNext(BelowBoth(r, o.id), AsAdd(ticker, o))
  {
    var q, side := BelowBoth(r, o.id), o.side;
    BelowMembers(r.bids, o.id);
    BelowMembers(r.asks, o.id);
    assert forall i :: 0 <= i < |q.bids| ==> q.bids[i] in q.bids;
    assert forall i :: 0 <= i < |q.asks| ==> q.asks[i] in q.asks;
    forall i | 0 <= i < |Of(q, side)| && Of(q, side)[i].price == o.price ensures Of(q, side)[i].priority < o.priority {
      SmallerIdsAreOlder(side, Of(r, side), o, Of(q, side)[i]);
    }
  }

  ghost predicate GrowsLegally(t: Table, ticker: nat, n: nat) {
    Key(ticker, n) in t ==> LegalNext(Replay(BLANK, Stored(t, ticker, n)), t[Key(ticker, n)])
  }

  lemma StoredGrowsLegally(t: Table, ticker: nat, r: Replica, n: nat)
    requires ReplicaInv(r) && Lists(t, ticker, r)
    ensures GrowsLegally(t, ticker, n)
  {
    StoredRebuilds(t, ticker, r, n);
    if Key(ticker, n) in t {
      ListedIsHeld(t, ticker, r, n);
      NextIsLegal(r, ticker, Find(r, n).value);
    }
  }

  lemma {:induction false} GrownIsLegal(t: Table, ticker: nat, n: nat)
    requires forall m: nat {:trigger GrowsLegally(t, ticker, m)} :: m < n ==> GrowsLegally(t, ticker, m)
    ensures LegalTo(BLANK, Stored(t, ticker, n))
  {
    if n > 0 {
      var before := Stored(t, ticker, n - 1);
      GrownIsLegal(t, ticker, n - 1);
      assert GrowsLegally(t, ticker, n - 1);
      if Key(ticker, n - 1) in t {
        LegalStep(BLANK, before, Replay(BLANK, before), t[Key(ticker, n - 1)]);
      }
    }
  }

  lemma StoredIsLegal(t: Table, ticker: nat, r: Replica)
    requires ReplicaInv(r) && Lists(t, ticker, r)
    ensures LegalTo(BLANK, Stored(t, ticker, MAX_ORDER_IDS))
  {
    forall n: nat ensures GrowsLegally(t, ticker, n) {
      StoredGrowsLegally(t, ticker, r, n);
    }
    GrownIsLegal(t, ticker, MAX_ORDER_IDS);
  }

  // ---------- the late joiner's stream ----------

  lemma {:induction false} ManageableSplit(r: Replica, us: seq<MarketUpdate>, vs: seq<MarketUpdate>)
    requires ManageableTo(r, us + vs)
    ensures ManageableTo(r, us) && ManageableTo(Replay(r, us), vs)
  {
    if vs == [] {
      assert us + vs == us;
    } else {
      ConcatInit(us, vs);
      ManageableSplit(r, us, vs[..|vs| - 1]);
      ReplayConcat(r, us, vs[..|vs| - 1]);
    }
  }

  lemma {:induction false} LegalSplit(r: Replica, us: seq<MarketUpdate>, vs: seq<MarketUpdate>)
    requires LegalTo(r, us + vs)
    ensures LegalTo(r, us) && LegalTo(Replay(r, us), vs)
  {
    if vs == [] {
      assert us + vs == us;
    } else {
      ConcatInit(us, vs);
      LegalSplit(r, us, vs[..|vs| - 1]);
      ReplayConcat(r, us, vs[..|vs| - 1]);
    }
  }

  /** What a late joiner of one ticker gets: a snapshot taken after `n` updates, then the updates that follow it. */
  function LateStream(us: seq<MarketUpdate>, n: nat, ticker: nat): seq<MarketUpdate>
    requires n <= |us|
  {
    Only(SnapshotBody(FoldAll(map[], us[..n])) + us[n..], ticker)
  }

  lemma ClearIsManageable(ticker: nat, vs: seq<MarketUpdate>)
    requires ManageableTo(BLANK, vs)
    ensures ManageableTo(BLANK, [ClearOf(ticker)] + vs)
  {
    assert ManageableTo(BLANK, []) && Replay(BLANK, []) == BLANK;
    ManageableStep(BLANK, [], BLANK, ClearOf(ticker));
    assert [] + [ClearOf(ticker)] == [ClearOf(ticker)];
    ClearBlanks(BLANK, ticker);
    ManageableConcat(BLANK, [ClearOf(ticker)], vs);
  }

  /** The stream a late joiner gets: the clear, the orders that rebuild the replica `r`, and what follows. */
  ghost predicate Rejoins(us: seq<MarketUpdate>, n: nat, ticker: nat, stored: seq<MarketUpdate>, r: Replica)
    requires n <= |us|
  {
    && Only(us, ticker) == Only(us[..n], ticker) + Only(us[n..], ticker) && r == Replay(BLANK, Only(us[..n], ticker))
    && Replay(BLANK, stored) == r && LegalTo(BLANK, stored) && (Housed(r) ==> ManageableTo(BLANK, stored))
  }

  lemma SnapshotRejoins(us: seq<MarketUpdate>, n: nat, ticker: nat, t: Table)
    requires LegalMarket(us) && n <= |us| && ticker < MAX_TICKERS && t == FoldAll(map[], us[..n])
    ensures TableOk(t) && Rejoins(us, n, ticker, Stored(t, ticker, MAX_ORDER_IDS), ReplicaAt(us[..n], ticker))
  {
    var r := ReplicaAt(us[..n], ticker);
    LegalMarketPrefix(us, n);
    TableFollows(us[..n]);
    assert Follows(us[..n], ticker);
    StoredRebuilds(t, ticker, r, MAX_ORDER_IDS);
    ListedIdsInRange(t, ticker, r);
    StoredIsLegal(t, ticker, r);
    if Housed(r) {
      StoredIsManageable(t, ticker, r);
    }
    SplitJoins(us, n);
    OnlyConcat(us[..n], us[n..], ticker);
  }

  lemma LateStreamParts(us: seq<MarketUpdate>, n: nat, ticker: nat, t: Table, stored: seq<MarketUpdate>)
    requires n <= |us| && ticker < MAX_TICKERS && t == FoldAll(map[], us[..n]) && TableOk(t)
    requires stored == Stored(t, ticker, MAX_ORDER_IDS)
    ensures LateStream(us, n, ticker) == [ClearOf(ticker)] + stored + Only(us[n..], ticker)
  {
    OnlyConcat(SnapshotBody(t), us[n..], ticker);
    OnlyBodies(t, MAX_TICKERS, ticker);
  }

  lemma LateStreamIs(us: seq<MarketUpdate>, n: nat, ticker: nat) returns (stored: seq<MarketUpdate>, r: Replica)
    requires LegalMarket(us) && n <= |us| && ticker < MAX_TICKERS
    ensures LateStream(us, n, ticker) == [ClearOf(ticker)] + (stored + Only(us[n..], ticker))
    ensures Rejoins(us, n, ticker, stored, r)
  {
    var t := FoldAll(map[], us[..n]);
    stored, r := Stored(t, ticker, MAX_ORDER_IDS), ReplicaAt(us[..n], ticker);
    SnapshotRejoins(us, n, ticker, t);
    LateStreamParts(us, n, ticker, t, stored);
    JoinsEitherWay([ClearOf(ticker)], stored, Only(us[n..], ticker));
  }

  lemma RejoinedIsManageable(us: seq<MarketUpdate>, n: nat, ticker: nat, stored: seq<MarketUpdate>, r: Replica)
    requires n <= |us| && Rejoins(us, n, ticker, stored, r) && ManageableTo(BLANK, Only(us, ticker))
    ensures ManageableTo(BLANK, [ClearOf(ticker)] + (stored + Only(us[n..], ticker)))
  {
    ManageableSplit(BLANK, Only(us[..n], ticker), Only(us[n..], ticker));
    ManageableIsHoused(Only(us[..n], ticker));
    ManageableConcat(BLANK, stored, Only(us[n..], ticker));
    ClearIsManageable(ticker, stored + Only(us[n..], ticker));
  }

  /** Whatever a linked book could follow from the start, it can follow from a snapshot taken at any time. */
  lemma LateJoinerIsManageable(us: seq<MarketUpdate>, n: nat, ticker: nat)
    requires LegalMarket(us) && n <= |us| && ticker < MAX_TICKERS && ManageableTo(BLANK, Only(us, ticker))
    ensures ManageableTo(BLANK, LateStream(us, n, ticker))
  {
    var stored, r := LateStreamIs(us, n, ticker);
    RejoinedIsManageable(us, n, ticker, stored, r);
  }

  // ---------- the cache ----------

  lemma ClearIsFresh(ticker: nat, vs: seq<MarketUpdate>)
    requires LegalTo(BLANK, vs)
    ensures FreshTo(BLANK, [ClearOf(ticker)] + vs)
  {
    LegalIsFresh(BLANK, vs);
    assert FreshTo(BLANK, []) && Replay(BLANK, []) == BLANK;
    FreshStep(BLANK, [], BLANK, ClearOf(ticker));
    assert [] + [ClearOf(ticker)] == [ClearOf(ticker)];
    ClearBlanks(BLANK, ticker);
    FreshConcat(BLANK, [ClearOf(ticker)], vs);
  }

  lemma RejoinedIsFresh(us: seq<MarketUpdate>, n: nat, ticker: nat, stored: seq<MarketUpdate>, r: Replica)
    requires n <= |us| && Rejoins(us, n, ticker, stored, r) && LegalTo(BLANK, Only(us, ticker))
    ensures FreshTo(BLANK, [ClearOf(ticker)] + (stored + Only(us[n..], ticker)))
  {
    LegalSplit(BLANK, Only(us[..n], ticker), Only(us[n..], ticker));
    LegalConcat(BLANK, stored, Only(us[n..], ticker));
    ClearIsFresh(ticker, stored + Only(us[n..], ticker));
  }

  /** The late joiner's stream is legal but for its clear, which comes first. */
  lemma LateJoinerIsFresh(us: seq<MarketUpdate>, n: nat, ticker: nat)
    requires LegalMarket(us) && n <= |us| && ticker < MAX_TICKERS
    ensures FreshTo(BLANK, LateStream(us, n, ticker))
  {
    var stored, r := LateStreamIs(us, n, ticker);
    RejoinedIsFresh(us, n, ticker, stored, r);
  }

  /** The late joiner's cache is right or invalid by the same rule as anyone's. */
  lemma LateJoinerBbo(us: seq<MarketUpdate>, n: nat, ticker: nat)
    requires LegalMarket(us) && n <= |us| && ticker < MAX_TICKERS
    ensures QuoteRight(LateStream(us, n, ticker), BUY) && QuoteRight(LateStream(us, n, ticker), SELL)
  {
    LateJoinerIsFresh(us, n, ticker);
    BboIsRight(LateStream(us, n, ticker));
  }

  // ---------- the linked book ----------

  /** One history a ticker, with its ids within the participant's table, that the exchange's book had room for. */
  ghost predicate RoomedHistories(hs: seq<seq<Request>>) {
    Histories(hs) && forall ticker :: 0 <= ticker < MAX_TICKERS ==> RoomedRun(ticker, hs[ticker])
  }

  lemma LateJoinerHasRoom(us: seq<MarketUpdate>, hs: seq<seq<Request>>, n: nat, ticker: nat)
    requires RoomedHistories(hs) && Interleaves(us, hs) && n <= |us| && ticker < MAX_TICKERS
    ensures ManageableTo(BLANK, LateStream(us, n, ticker))
  {
    EngineIsLegal(us, hs);
    RunIsManageable(ticker, hs[ticker]);
    LateJoinerIsManageable(us, n, ticker);
  }

  /**
   A fresh linked book fed with a snapshot taken after any number of updates of any interleaving, and
   then with what follows it, shows the exchange's book as published, cache included.
   */
  method JoinLate(ghost us: seq<MarketUpdate>, ghost hs: seq<seq<Request>>, ghost n: nat, ticker: nat,
                  stream: seq<MarketUpdate>)
      returns (book: MarketOrderBook)
    requires RoomedHistories(hs) && Interleaves(us, hs) && n <= |us| && ticker < MAX_TICKERS
    requires stream == LateStream(us, n, ticker)
    ensures fresh(book) && book.Valid()
    ensures book.Model() == View(Run(ticker, hs[ticker]).book, StaleAfter(ticker, hs[ticker]))
    ensures book.bbo.bid == if Touched(stream, BUY) then Best(book.Model().bids) else NO_QUOTE
    ensures book.bbo.ask == if Touched(stream, SELL) then Best(book.Model().asks) else NO_QUOTE
  {
    LateJoinerHasRoom(us, hs, n, ticker);
    LateJoinerSeesTheBook(us, hs, n, ticker);
    EngineIsLegal(us, hs);
    LateJoinerBbo(us, n, ticker);
    book := Follow(ticker, stream);
  }
}

/**
 What a stream of updates means, order by order; and the snapshot that carries that meaning
 to a participant who missed the stream.
 */
module MarketFeed {
  import opened MarketTypes
  import opened Sequences

  datatype Key = Key(ticker: nat, orderId: nat)

  /** The live orders, each as the ADD that would create it. */
  type Table = map<Key, MarketUpdate>

  /** A message on the wire: a sequence number and an update. */
  datatype Sequenced = Sequenced(num: nat, update: MarketUpdate)

  function KeyOf(u: MarketUpdate): Key {
    Key(u.ticker, u.orderId)
  }

  function Get(t: Table, k: Key): Option<MarketUpdate> {
    if k in t then Some(t[k]) else None
  }

  /** The meaning of one update; CLEAR empties its ticker. */
  function Fold(t: Table, u: MarketUpdate): Table {
    var k := KeyOf(u);
    match u.kind
    case ADD => t[k := u]
    case MODIFY => if k in t then t[k := t[k].(price := u.price, qty := u.qty)] else t
    case CANCEL => t - {k}
    case CLEAR => map j | j in t && j.ticker != u.ticker :: t[j]
    case _ => t
  }

  function FoldAll(t: Table, us: seq<MarketUpdate>): Table {
    if us == [] then t else Fold(FoldAll(t, us[..|us| - 1]), us[|us| - 1])
  }

  lemma {:induction false} FoldConcat(t: Table, us: seq<MarketUpdate>, vs: seq<MarketUpdate>)
    ensures FoldAll(t, us + vs) == FoldAll(FoldAll(t, us), vs)
  {
    if vs == [] {
      assert us + vs == us;
    } else {
      FoldConcat(t, us, vs[..|vs| - 1]);
      ConcatInit(us, vs);
    }
  }

  lemma FoldStep(t: Table, us: seq<MarketUpdate>, u: MarketUpdate)
    ensures FoldAll(t, us + [u]) == Fold(FoldAll(t, us), u)
  {
    assert (us + [u])[..|us|] == us;
  }

  lemma NumberedStep(us: seq<MarketUpdate>, u: MarketUpdate, from: nat)
    ensures Numbered(us + [u], from) == Numbered(us, from) + [Sequenced(from + |us|, u)]
  {
  }

  lemma SameTable(a: Table, b: Table)
    requires forall k :: Get(a, k) == Get(b, k)
    ensures a == b
  {
    assert forall k :: k in a <==> Get(a, k).Some?;
    assert forall k :: k in b <==> Get(b, k).Some?;
    assert forall k :: k in a ==> Get(a, k) == Some(a[k]);
    assert forall k :: k in b ==> Get(b, k) == Some(b[k]);
  }

  // ---------- what a stream says of one order ----------

  /** The update makes an order, takes it out, or empties its ticker. */
  predicate Settles(u: MarketUpdate, k: Key) {
    (u.kind in {ADD, CANCEL} && KeyOf(u) == k) || (u.kind == CLEAR && u.ticker == k.ticker)
  }

  predicate Revises(u: MarketUpdate, k: Key) {
    u.kind == MODIFY && KeyOf(u) == k
  }

  /** Nothing from position `i` on makes the order, takes it out or empties its ticker. */
  ghost predicate UnsettledFrom(us: seq<MarketUpdate>, i: nat, k: Key) {
    forall l :: i <= l < |us| ==> !Settles(us[l], k)
  }

  ghost predicate UnrevisedFrom(us: seq<MarketUpdate>, j: nat, k: Key) {
    forall l :: j <= l < |us| ==> !Revises(us[l], k)
  }

  /** An order is as its last ADD says, with the price and quantity of the last MODIFY since. */
  lemma {:induction false} LastWordStands(t: Table, us: seq<MarketUpdate>, i: nat, j: nat)
    requires i <= j < |us| && us[i].kind == ADD && UnsettledFrom(us, i + 1, KeyOf(us[i]))
    requires (j == i || Revises(us[j], KeyOf(us[i]))) && UnrevisedFrom(us, j + 1, KeyOf(us[i]))
    ensures Get(FoldAll(t, us), KeyOf(us[i])) == Some(us[i].(price := us[j].price, qty := us[j].qty))
  {
    var init, last := us[..|us| - 1], us[|us| - 1];
    if j < |us| - 1 {
      LastWordStands(t, init, i, j);
    } else if i < j {
      var m := LastRevision(init, i, KeyOf(us[i]));
      LastWordStands(t, init, i, m);
    }
  }

  lemma {:induction false} LastRevision(us: seq<MarketUpdate>, i: nat, k: Key) returns (j: nat)
    requires i < |us|
    ensures i <= j < |us| && (j == i || Revises(us[j], k)) && UnrevisedFrom(us, j + 1, k)
  {
    j := |us| - 1;
    if i < j && !Revises(us[j], k) {
      j := LastRevision(us[..j], i, k);
    }
  }

  /** After its CANCEL or the CLEAR of its ticker an order is gone, whatever revises it, until it is added again. */
  lemma {:induction false} GoneUntilAdded(t: Table, us: seq<MarketUpdate>, i: nat, k: Key)
    requires i < |us| && us[i].kind != ADD && Settles(us[i], k) && UnsettledFrom(us, i + 1, k)
    ensures Get(FoldAll(t, us), k) == None
  {
    if i < |us| - 1 {
      GoneUntilAdded(t, us[..|us| - 1], i, k);
    }
  }

  /** An order that no update is about is as it was before the stream. */
  lemma {:induction false} UntouchedStays(t: Table, us: seq<MarketUpdate>, k: Key)
    requires UnsettledFrom(us, 0, k) && UnrevisedFrom(us, 0, k)
    ensures Get(FoldAll(t, us), k) == Get(t, k)
  {
    if us != [] {
      UntouchedStays(t, us[..|us| - 1], k);
    }
  }

  // ---------- snapshots ----------

  function ClearOf(ticker: nat): MarketUpdate {
    MarketUpdate(CLEAR, INVALID_64, ticker, NO_SIDE, INVALID_64, INVALID_QTY, INVALID_64)
  }

  /** SNAPSHOT_START and SNAPSHOT_END carry the last sequence number as their order id. */
  function Bound(kind: UpdateKind, last: nat): MarketUpdate {
    MarketUpdate(kind, last, INVALID_TICKER, NO_SIDE, INVALID_64, INVALID_QTY, INVALID_64)
  }

  /** The ticker's live orders with ids below `n`, in ascending order of id. */
  function Stored(t: Table, ticker: nat, n: nat): seq<MarketUpdate>
    decreases t.Keys, n
  {
    if n == 0 then []
    else if Key(ticker, n - 1) in t then Stored(t, ticker, n - 1) + [t[Key(ticker, n - 1)]]
    else Stored(t, ticker, n - 1)
  }

  /** The first `n` tickers: each is cleared, then rebuilt. */
  function Bodies(t: Table, n: nat): seq<MarketUpdate>
    decreases t.Keys, n
  {
    if n == 0 then [] else Bodies(t, n - 1) + ([ClearOf(n - 1)] + Stored(t, n - 1, MAX_ORDER_IDS))
  }

  function SnapshotBody(t: Table): seq<MarketUpdate> {
    Bodies(t, MAX_TICKERS)
  }

  function SnapshotUpdates(t: Table, last: nat): seq<MarketUpdate> {
    [Bound(SNAPSHOT_START, last)] + SnapshotBody(t) + [Bound(SNAPSHOT_END, last)]
  }

  function Numbered(us: seq<MarketUpdate>, from: nat): (r: seq<Sequenced>)
    ensures |r| == |us|
    ensures forall i :: 0 <= i < |us| ==> r[i] == Sequenced(from + i, us[i])
  {
    seq(|us|, i requires 0 <= i < |us| => Sequenced(from + i, us[i]))
  }

  /** One publication, numbered from zero. */
  function Snapshot(t: Table, last: nat): seq<Sequenced> {
    Numbered(SnapshotUpdates(t, last), 0)
  }

  /** Every live order is the ADD of its own key, and the key is in range. */
  ghost predicate TableOk(t: Table) {
    forall k :: k in t ==> k.ticker < MAX_TICKERS && k.orderId < MAX_ORDER_IDS && t[k].kind == ADD && KeyOf(t[k]) == k
  }

  ghost predicate TickersInRange(t: Table) {
    forall k :: k in t ==> k.ticker < MAX_TICKERS
  }

  /** Adding the stored orders of a ticker on top of `m`. */
  lemma {:induction false} StoredMeans(t: Table, m: Table, ticker: nat, n: nat)
    requires TableOk(t)
    ensures forall k :: Get(FoldAll(m, Stored(t, ticker, n)), k)
                        == (if k in t && k.ticker == ticker && k.orderId < n then Some(t[k]) else Get(m, k))
  {
    if n > 0 {
      StoredMeans(t, m, ticker, n - 1);
      var k0 := Key(ticker, n - 1);
      if k0 in t {
        FoldStep(m, Stored(t, ticker, n - 1), t[k0]);
      }
    }
  }

  /** One ticker's part of a snapshot replaces what was known of that ticker. */
  lemma BlockMeans(t: Table, m: Table, ticker: nat)
    requires TableOk(t)
    ensures forall k :: Get(FoldAll(m, [ClearOf(ticker)] + Stored(t, ticker, MAX_ORDER_IDS)), k)
                        == (if k.ticker == ticker then Get(t, k) else Get(m, k))
  {
    var cleared := Fold(m, ClearOf(ticker));
    FoldConcat(m, [ClearOf(ticker)], Stored(t, ticker, MAX_ORDER_IDS));
    FoldStep(m, [], ClearOf(ticker));
    assert [] + [ClearOf(ticker)] == [ClearOf(ticker)];
    StoredMeans(t, cleared, ticker, MAX_ORDER_IDS);
    assert forall k :: Get(cleared, k) == if k.ticker == ticker then None else Get(m, k);
  }

  lemma {:induction false} BodiesMean(t: Table, m: Table, n: nat)
    requires TableOk(t)
    ensures forall k :: Get(FoldAll(m, Bodies(t, n)), k) == if k.ticker < n then Get(t, k) else Get(m, k)
  {
    if n > 0 {
      BodiesMean(t, m, n - 1);
      FoldConcat(m, Bodies(t, n - 1), [ClearOf(n - 1)] + Stored(t, n - 1, MAX_ORDER_IDS));
      BlockMeans(t, FoldAll(m, Bodies(t, n - 1)), n - 1);
    }
  }

  /** Whatever was known before, a snapshot's body leaves exactly the published orders. */
  lemma SnapshotRestores(t: Table, m: Table)
    requires TableOk(t) && TickersInRange(m)
    ensures FoldAll(m, SnapshotBody(t)) == t
  {
    BodiesMean(t, m, MAX_TICKERS);
    forall k ensures Get(FoldAll(m, SnapshotBody(t)), k) == Get(t, k) {
      if k.ticker >= MAX_TICKERS {
        assert k !in t && k !in m;
      }
    }
    SameTable(FoldAll(m, SnapshotBody(t)), t);
  }

  // ---------- what a snapshot is made of ----------

  function KeysBelow(t: Table, ticker: nat, n: nat): set<Key> {
    set k | k in t && k.ticker == ticker && k.orderId < n
  }

  function KeysOfFirst(t: Table, n: nat): set<Key> {
    set k | k in t && k.ticker < n
  }

  /** A bare CLEAR of a ticker in range, or a live order as it is known. */
  ghost predicate ClearOrLive(t: Table, n: nat, u: MarketUpdate) {
    || (u == MarketUpdate(CLEAR, INVALID_64, u.ticker, NO_SIDE, INVALID_64, INVALID_QTY, INVALID_64) && u.ticker < n)
    || (KeyOf(u) in t && t[KeyOf(u)] == u)
  }

  lemma {:induction false} StoredCount(t: Table, ticker: nat, n: nat)
    requires TableOk(t)
    ensures |Stored(t, ticker, n)| == |KeysBelow(t, ticker, n)|
    ensures forall u :: u in Stored(t, ticker, n) ==> KeyOf(u) in t && t[KeyOf(u)] == u
  {
    if n == 0 {
      assert KeysBelow(t, ticker, 0) == {};
    } else {
      StoredCount(t, ticker, n - 1);
      var k := Key(ticker, n - 1);
      if k in t {
        assert KeysBelow(t, ticker, n) == KeysBelow(t, ticker, n - 1) + {k};
      } else {
        assert KeysBelow(t, ticker, n) == KeysBelow(t, ticker, n - 1);
      }
    }
  }

  lemma KeysOfNext(t: Table, n: nat)
    requires TableOk(t)
    ensures |KeysOfFirst(t, n + 1)| == |KeysOfFirst(t, n)| + |KeysBelow(t, n, MAX_ORDER_IDS)|
  {
    assert KeysOfFirst(t, n + 1) == KeysOfFirst(t, n) + KeysBelow(t, n, MAX_ORDER_IDS);
    assert KeysOfFirst(t, n) !! KeysBelow(t, n, MAX_ORDER_IDS);
  }

  lemma {:induction false} BodiesCount(t: Table, n: nat)
    requires TableOk(t)
    ensures |Bodies(t, n)| == n + |KeysOfFirst(t, n)|
  {
    if n == 0 {
      assert KeysOfFirst(t, 0) == {};
    } else {
      BodiesCount(t, n - 1);
      StoredCount(t, n - 1, MAX_ORDER_IDS);
      KeysOfNext(t, n - 1);
    }
  }

  lemma {:induction false} BodiesHold(t: Table, n: nat)
    requires TableOk(t)
    ensures forall u :: u in Bodies(t, n) ==> ClearOrLive(t, n, u)
  {
    if n > 0 {
      BodiesHold(t, n - 1);
      StoredCount(t, n - 1, MAX_ORDER_IDS);
      forall u | u in Bodies(t, n) ensures ClearOrLive(t, n, u) {
        if u in Bodies(t, n - 1) {
          assert ClearOrLive(t, n - 1, u);
        }
      }
    }
  }

  /**
   A publication is numbered from zero, carries the last number it covers at both ends, and between them holds one
   bare CLEAR for each ticker and each live order once.
   */
  lemma SnapshotContents(t: Table, last: nat)
    requires TableOk(t)
    ensures var s := Snapshot(t, last);
            && |s| == |t| + MAX_TICKERS + 2
            && s[0].update
               == MarketUpdate(SNAPSHOT_START, last, INVALID_TICKER, NO_SIDE, INVALID_64, INVALID_QTY, INVALID_64)
            && s[|s| - 1].update
               == MarketUpdate(SNAPSHOT_END, last, INVALID_TICKER, NO_SIDE, INVALID_64, INVALID_QTY, INVALID_64)
            && (forall i :: 0 <= i < |s| ==> s[i].num == i)
            && (forall i :: 0 < i < |s| - 1 ==> ClearOrLive(t, MAX_TICKERS, s[i].update))
  {
    var n := MAX_TICKERS;
    BodiesCount(t, n);
    BodiesHold(t, n);
    assert KeysOfFirst(t, n) == t.Keys;
    var us := SnapshotUpdates(t, last);
    forall i | 0 < i < |us| - 1 ensures ClearOrLive(t, n, us[i]) {
      assert us[i] == Bodies(t, n)[i - 1];
    }
  }
}

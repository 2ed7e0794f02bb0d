/** The synthesizer: it folds the numbered stream into a table of live orders and publishes it as a snapshot. */
module SnapshotSynthesizers {
  import opened MarketTypes
  import opened MemPools
  import opened MarketFeed
  import opened LateJoiner

  /** The table after an update; a CLEAR in the stream is ignored here. */
  function Kept(t: Table, u: MarketUpdate): Table {
    if u.kind == CLEAR then t else Fold(t, u)
  }

  function KeptAll(t: Table, us: seq<MarketUpdate>): Table {
    if us == [] then t else Kept(KeptAll(t, us[..|us| - 1]), us[|us| - 1])
  }

  lemma {:induction false} KeptIsFold(t: Table, us: seq<MarketUpdate>)
    requires forall i :: 0 <= i < |us| ==> us[i].kind != CLEAR
    ensures KeptAll(t, us) == FoldAll(t, us)
  {
    if us != [] {
      KeptIsFold(t, us[..|us| - 1]);
    }
  }

  /** The updates without the clears. */
  function Uncleared(us: seq<MarketUpdate>): seq<MarketUpdate> {
    if us == [] then []
    else if us[|us| - 1].kind == CLEAR then Uncleared(us[..|us| - 1])
    else Uncleared(us[..|us| - 1]) + [us[|us| - 1]]
  }

  /** The synthesizer's table means the stream without its clears. */
  lemma {:induction false} ClearsAreIgnored(t: Table, us: seq<MarketUpdate>)
    ensures KeptAll(t, us) == FoldAll(t, Uncleared(us))
  {
    if us != [] {
      ClearsAreIgnored(t, us[..|us| - 1]);
      if us[|us| - 1].kind != CLEAR {
        FoldStep(t, Uncleared(us[..|us| - 1]), us[|us| - 1]);
      }
    }
  }

  /** The two maps are inverse to each other. */
  ghost predicate Paired(cellOf: map<Key, int>, keyAt: map<int, Key>) {
    && (forall k :: k in cellOf ==> cellOf[k] in keyAt && keyAt[cellOf[k]] == k)
    && (forall c :: c in keyAt ==> keyAt[c] in cellOf && cellOf[keyAt[c]] == c)
  }

  lemma SizeWithout<K, V>(m: map<K, V>, k: K)
    requires k in m
    ensures |m - {k}| == |m| - 1
  {
    assert (m - {k}).Keys == m.Keys - {k};
  }

  lemma PairedWithout(cellOf: map<Key, int>, keyAt: map<int, Key>, k: Key)
    requires Paired(cellOf, keyAt) && k in cellOf
    ensures Paired(cellOf - {k}, keyAt - {cellOf[k]})
  {
  }

  lemma {:induction false} PairedSize(cellOf: map<Key, int>, keyAt: map<int, Key>, n: nat)
    requires Paired(cellOf, keyAt) && forall c :: c in keyAt ==> 0 <= c < n
    ensures |cellOf| == |keyAt|
    decreases |cellOf|
  {
    if cellOf != map[] {
      var k :| k in cellOf;
      SizeWithout(cellOf, k);
      SizeWithout(keyAt, cellOf[k]);
      PairedWithout(cellOf, keyAt, k);
      PairedSize(cellOf - {k}, keyAt - {cellOf[k]}, n);
    } else {
      NoCells(keyAt, n);
    }
  }

  lemma NoCells(keyAt: map<int, Key>, n: nat)
    requires forall c :: c in keyAt ==> 0 <= c < n
    requires forall c :: 0 <= c < n ==> c !in keyAt
    ensures |keyAt| == 0
  {
    var cells := set c | 0 <= c < n && c in keyAt;
    assert cells == {} && cells == keyAt.Keys;
  }

  /** The table as the cells hold it. */
  ghost function TableOf(cellOf: map<Key, int>, store: seq<MarketUpdate>): Table {
    map k | k in cellOf && 0 <= cellOf[k] < |store| :: store[cellOf[k]]
  }

  ghost predicate InStore(keyAt: map<int, Key>, store: seq<MarketUpdate>) {
    forall c :: c in keyAt ==> 0 <= c < |store|
  }

  lemma TablePut(cellOf: map<Key, int>, keyAt: map<int, Key>, store: seq<MarketUpdate>, k: Key, p: nat, u: MarketUpdate)
    requires Paired(cellOf, keyAt) && InStore(keyAt, store) && k !in cellOf && p !in keyAt && p < |store|
    ensures Paired(cellOf[k := p], keyAt[p := k]) && InStore(keyAt[p := k], store)
    ensures TableOf(cellOf[k := p], store[p := u]) == TableOf(cellOf, store)[k := u]
  {
  }

  lemma TableChange(cellOf: map<Key, int>, keyAt: map<int, Key>, store: seq<MarketUpdate>, k: Key, u: MarketUpdate)
    requires Paired(cellOf, keyAt) && InStore(keyAt, store) && k in cellOf
    ensures 0 <= cellOf[k] < |store| && TableOf(cellOf, store[cellOf[k] := u]) == TableOf(cellOf, store)[k := u]
  {
  }

  lemma TableDrop(cellOf: map<Key, int>, keyAt: map<int, Key>, store: seq<MarketUpdate>, k: Key)
    requires Paired(cellOf, keyAt) && InStore(keyAt, store) && k in cellOf
    ensures Paired(cellOf - {k}, keyAt - {cellOf[k]})
    ensures TableOf(cellOf - {k}, store) == TableOf(cellOf, store) - {k}
  {
    PairedWithout(cellOf, keyAt, k);
  }

  predicate Drains(t: Table, u: MarketUpdate) {
    InRange(u) && Expected(t, u) && (u.kind == ADD ==> |t| + 1 < MAX_ORDER_IDS)
  }

  /** Every assertion on the way of these updates into the table holds. */
  ghost predicate Drainable(t: Table, us: seq<MarketUpdate>) {
    forall n {:trigger us[n]} :: 0 <= n < |us| ==> Drains(KeptAll(t, us[..n]), us[n])
  }

  class SnapshotSynthesizer {
    const updatePool: MemPool<MarketUpdate>
    /** Ticker and order id to pool cell; an absent entry is a null pointer. */
    var updateOf: map<Key, int>
    var lastSeqNum: nat
    /** Everything sent to the snapshot socket, in order. */
    var sent: seq<Sequenced>
    ghost var keyAt: map<int, Key>

    ghost function Table(): Table
      reads `updateOf, updatePool.objects
    {
      TableOf(updateOf, updatePool.objects[..])
    }

    /** Every live cell belongs to exactly one entry of the table. */
    ghost predicate Valid()
      reads `updateOf, `keyAt, updatePool, updatePool.isFree, updatePool.objects
    {
      && updatePool.Valid() && updatePool.isFree.Length == MAX_ORDER_IDS
      && Paired(updateOf, keyAt) && updatePool.Live() == keyAt.Keys
      && TableOk(Table())
    }

    constructor ()
      ensures Valid() && Table() == map[] && lastSeqNum == 0 && sent == []
      ensures fresh(updatePool) && fresh(updatePool.objects) && fresh(updatePool.isFree)
    {
      updatePool := new MemPool<MarketUpdate>(MAX_ORDER_IDS);
      updateOf := map[];
      keyAt := map[];
      lastSeqNum := 0;
      sent := [];
    }

    /** The program aborts unless the update is expected, in range and next, and a cell can be spared. */
    method AddSnapshot(m: Sequenced)
      requires Valid() && InRange(m.update) && Expected(Table(), m.update) && m.num == lastSeqNum + 1
      requires m.update.kind == ADD ==> |updatePool.Live()| + 1 < updatePool.isFree.Length
      modifies this`updateOf, this`keyAt, this`lastSeqNum, updatePool`nextFree, updatePool.objects, updatePool.isFree
      ensures Valid() && Table() == Kept(old(Table()), m.update) && lastSeqNum == m.num
    {
      match m.update.kind {
        case ADD => StoreOrder(m.update);
        case MODIFY => ChangeOrder(m.update);
        case CANCEL => DropOrder(m.update);
        case _ =>
      }
      lastSeqNum := m.num;
    }

    method StoreOrder(u: MarketUpdate)
      requires Valid() && u.kind == ADD && InRange(u) && KeyOf(u) !in Table()
      requires |updatePool.Live()| + 1 < updatePool.isFree.Length
      modifies this`updateOf, this`keyAt, updatePool`nextFree, updatePool.objects, updatePool.isFree
      ensures Valid() && Table() == old(Table())[KeyOf(u) := u]
    {
      ghost var store := updatePool.Store();
      FoldKeepsOk(Table(), u);
      var p := updatePool.Allocate(u);
      TablePut(updateOf, keyAt, store, KeyOf(u), p, u);
      updateOf := updateOf[KeyOf(u) := p];
      keyAt := keyAt[p := KeyOf(u)];
    }

    method ChangeOrder(u: MarketUpdate)
      requires Valid() && KeyOf(u) in Table()
      modifies updatePool.objects
      ensures Valid() && Table() == old(Table())[KeyOf(u) := old(Table())[KeyOf(u)].(price := u.price, qty := u.qty)]
    {
      ghost var store := updatePool.Store();
      var p := updateOf[KeyOf(u)];
      TableChange(updateOf, keyAt, store, KeyOf(u), store[p].(price := u.price, qty := u.qty));
      updatePool.objects[p] := updatePool.objects[p].(price := u.price);
      updatePool.objects[p] := updatePool.objects[p].(qty := u.qty);
      assert updatePool.Store() == store[p := store[p].(price := u.price, qty := u.qty)];
    }

    method DropOrder(u: MarketUpdate)
      requires Valid() && KeyOf(u) in Table()
      modifies this`updateOf, this`keyAt, updatePool.isFree
      ensures Valid() && Table() == old(Table()) - {KeyOf(u)}
    {
      TableDrop(updateOf, keyAt, updatePool.Store(), KeyOf(u));
      updatePool.Deallocate(updateOf[KeyOf(u)]);
      keyAt := keyAt - {updateOf[KeyOf(u)]};
      updateOf := updateOf - {KeyOf(u)};
    }

    /** Takes every queued update into the table. */
    method Drain(queue: seq<Sequenced>, ghost us: seq<MarketUpdate>)
      requires Valid() && Drainable(Table(), us) && queue == Numbered(us, lastSeqNum + 1)
      modifies this`updateOf, this`keyAt, this`lastSeqNum, updatePool`nextFree, updatePool.objects, updatePool.isFree
      ensures Valid() && Table() == KeptAll(old(Table()), us) && lastSeqNum == old(lastSeqNum) + |us|
    {
      ghost var t := Table();
      var n := 0;
      while n < |queue|
        invariant n <= |queue| && Valid()
        invariant Table() == KeptAll(t, us[..n]) && lastSeqNum == old(lastSeqNum) + n
      {
        assert us[..n + 1][..n] == us[..n];
        assert Drains(KeptAll(t, us[..n]), us[n]);
        PairedSize(updateOf, keyAt, MAX_ORDER_IDS);
        assert Table().Keys == updateOf.Keys && |updatePool.Live()| == |keyAt|;
        AddSnapshot(queue[n]);
        n := n + 1;
      }
      assert us[..n] == us;
    }

    method Send(m: Sequenced)
      modifies this`sent
      ensures sent == old(sent) + [m]
    {
      sent := sent + [m];
    }

    /** Sends one complete snapshot: the table between its two bounds, numbered from zero. */
    method PublishSnapshot()
      requires Valid()
      modifies this`sent
      ensures Valid() && Table() == old(Table()) && sent == old(sent) + Snapshot(Table(), lastSeqNum)
    {
      ghost var t := Table();
      ghost var out := [Bound(SNAPSHOT_START, lastSeqNum)];
      var snapSize := 0;
      Send(Sequenced(snapSize,
                     MarketUpdate(SNAPSHOT_START, lastSeqNum, INVALID_TICKER, NO_SIDE, INVALID_64, INVALID_QTY,
                                  INVALID_64)));
      snapSize := snapSize + 1;
      var ticker := 0;
      while ticker < MAX_TICKERS
        invariant ticker <= MAX_TICKERS && Valid() && Table() == t
        invariant out == [Bound(SNAPSHOT_START, lastSeqNum)] + Bodies(t, ticker)
        invariant snapSize == |out| && sent == old(sent) + Numbered(out, 0)
      {
        snapSize := PublishTicker(ticker, snapSize, t, out);
        out := out + ([ClearOf(ticker)] + Stored(t, ticker, MAX_ORDER_IDS));
        ticker := ticker + 1;
      }
      NumberedStep(out, Bound(SNAPSHOT_END, lastSeqNum), 0);
      Send(Sequenced(snapSize,
                     MarketUpdate(SNAPSHOT_END, lastSeqNum, INVALID_TICKER, NO_SIDE, INVALID_64, INVALID_QTY,
                                  INVALID_64)));
    }

    /** Clears a ticker, then sends its live orders in ascending order of id. */
    method PublishTicker(ticker: nat, size: nat, ghost t: Table, ghost out: seq<MarketUpdate>) returns (snapSize: nat)
      requires Valid() && Table() == t && size == |out|
      modifies this`sent
      ensures Valid() && Table() == t
      ensures var all := out + ([ClearOf(ticker)] + Stored(t, ticker, MAX_ORDER_IDS));
              snapSize == |all| && sent == old(sent) + Numbered(all, 0)[|out|..]
    {
      ghost var now := out + [ClearOf(ticker)];
      NumberedStep(out, ClearOf(ticker), 0);
      snapSize := size;
      Send(Sequenced(snapSize, MarketUpdate(CLEAR, INVALID_64, ticker, NO_SIDE, INVALID_64, INVALID_QTY, INVALID_64)));
      snapSize := snapSize + 1;
      var id := 0;
      while id < MAX_ORDER_IDS
        invariant id <= MAX_ORDER_IDS && Valid() && Table() == t
        invariant now == out + ([ClearOf(ticker)] + Stored(t, ticker, id))
        invariant snapSize == |now| && sent == old(sent) + Numbered(now, 0)[|out|..]
      {
        var k := Key(ticker, id);
        if k in updateOf {
          NumberedStep(now, t[k], 0);
          Send(Sequenced(snapSize, updatePool.objects[updateOf[k]]));
          snapSize := snapSize + 1;
          now := now + [t[k]];
        }
        id := id + 1;
      }
    }
  }
}

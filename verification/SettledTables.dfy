/** When two tables that differ come to agree again: what a run of updates settles, key by key. */
module SettledTables {
  import opened MarketTypes
  import opened MarketFeed

  /** The update says what is under the key from then on, whatever was there. */
  predicate Overwrites(u: MarketUpdate, k: Key) {
    (u.kind in {ADD, CANCEL} && KeyOf(u) == k) || (u.kind == CLEAR && u.ticker == k.ticker)
  }

  /** The update gives price and quantity of what is under the key, if anything is. */
  predicate Revises(u: MarketUpdate, k: Key) {
    u.kind == MODIFY && KeyOf(u) == k
  }

  ghost predicate Overwritten(us: seq<MarketUpdate>, k: Key) {
    exists i :: 0 <= i < |us| && Overwrites(us[i], k)
  }

  ghost predicate Revised(us: seq<MarketUpdate>, k: Key) {
    exists i :: 0 <= i < |us| && Revises(us[i], k)
  }

  /** The same, but for price and quantity. */
  predicate Alike(x: Option<MarketUpdate>, y: Option<MarketUpdate>) {
    match (x, y)
    case (Some(u), Some(v)) => u.(price := v.price, qty := v.qty) == v
    case _ => x == y
  }

  /**
   What were `x` and `y` under the key are the same after `us`: they were, or are overwritten, or differed
   only in what is revised.
   */
  ghost predicate Settled(x: Option<MarketUpdate>, y: Option<MarketUpdate>, us: seq<MarketUpdate>, k: Key) {
    x == y || Overwritten(us, k) || (Alike(x, y) && Revised(us, k))
  }

  /** Every key is settled. */
  ghost predicate AllSettled(s: Table, t: Table, us: seq<MarketUpdate>) {
    forall k :: Settled(Get(s, k), Get(t, k), us, k)
  }

  // ---------- one update ----------

  lemma FoldEntry(t: Table, u: MarketUpdate, k: Key)
    ensures Overwrites(u, k) ==> Get(Fold(t, u), k) == if u.kind == ADD then Some(u) else None
    ensures Revises(u, k) ==>
              Get(Fold(t, u), k) == if k in t then Some(t[k].(price := u.price, qty := u.qty)) else None
    ensures !Overwrites(u, k) && !Revises(u, k) ==> Get(Fold(t, u), k) == Get(t, k)
  {
  }

  lemma InitOrLast(us: seq<MarketUpdate>, k: Key)
    requires us != []
    ensures Overwritten(us, k) <==> Overwritten(us[..|us| - 1], k) || Overwrites(us[|us| - 1], k)
    ensures Revised(us, k) <==> Revised(us[..|us| - 1], k) || Revises(us[|us| - 1], k)
  {
    var init := us[..|us| - 1];
    assert forall i :: 0 <= i < |init| ==> init[i] == us[i];
    if Overwritten(us, k) && !Overwrites(us[|us| - 1], k) {
      var i :| 0 <= i < |us| && Overwrites(us[i], k);
      assert Overwrites(init[i], k);
    }
    if Revised(us, k) && !Revises(us[|us| - 1], k) {
      var i :| 0 <= i < |us| && Revises(us[i], k);
      assert Revises(init[i], k);
    }
  }

  // ---------- a run of updates ----------

  lemma {:induction false} AlikeAfter(s: Table, t: Table, us: seq<MarketUpdate>, k: Key)
    ensures Alike(Get(FoldAll(s, us), k), Get(FoldAll(t, us), k)) <==> Alike(Get(s, k), Get(t, k)) || Overwritten(us, k)
  {
    if us != [] {
      var init, u := us[..|us| - 1], us[|us| - 1];
      AlikeAfter(s, t, init, k);
      InitOrLast(us, k);
      FoldEntry(FoldAll(s, init), u, k);
      FoldEntry(FoldAll(t, init), u, k);
    }
  }

  /** Two tables agree on a key after the updates if and only if the updates settle it. */
  lemma {:induction false} SettledExactly(s: Table, t: Table, us: seq<MarketUpdate>, k: Key)
    ensures Get(FoldAll(s, us), k) == Get(FoldAll(t, us), k) <==> Settled(Get(s, k), Get(t, k), us, k)
  {
    if us != [] {
      var init, u := us[..|us| - 1], us[|us| - 1];
      SettledExactly(s, t, init, k);
      AlikeAfter(s, t, init, k);
      InitOrLast(us, k);
      FoldEntry(FoldAll(s, init), u, k);
      FoldEntry(FoldAll(t, init), u, k);
    }
  }

  /** Two tables become the same under the updates if and only if these settle every key. */
  lemma AgreeExactly(s: Table, t: Table, us: seq<MarketUpdate>)
    ensures FoldAll(s, us) == FoldAll(t, us) <==> AllSettled(s, t, us)
  {
    forall k ensures Get(FoldAll(s, us), k) == Get(FoldAll(t, us), k) <==> Settled(Get(s, k), Get(t, k), us, k) {
      SettledExactly(s, t, us, k);
    }
    if AllSettled(s, t, us) {
      SameTable(FoldAll(s, us), FoldAll(t, us));
    }
  }
}

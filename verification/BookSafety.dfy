/**
 What a sweep and an insertion mean in closed form, and that every request keeps the book
 sorted by price and time, free of duplicates and uncrossed.
 */
module BookSafety {
  import opened MarketTypes
  import opened PriceTimeBook
  import opened Sequences

  // ---------- a sweep in closed form ----------

  /** The quantity an order of this side and limit could trade against `s`. */
  function Volume(side: Side, limit: nat, s: seq<Order>): nat {
    if s == [] || !Crosses(side, limit, s[0].price) then 0
    else s[0].qty + Volume(side, limit, s[1..])
  }

  /** `n` units of quantity taken from the front of `s`: whole orders first, then part of one. */
  function Consume(s: seq<Order>, n: nat): seq<Order> {
    if n == 0 || s == [] then s
    else if s[0].qty <= n then Consume(s[1..], n - s[0].qty)
    else [s[0].(qty := s[0].qty - n)] + s[1..]
  }

  ghost predicate AllPositive(s: seq<Order>) {
    forall i :: 0 <= i < |s| ==> s[i].qty > 0
  }

  /** A sweep trades the lesser of what is asked and what crosses, strictly from the front. */
  lemma {:induction false} SweepClosedForm(ticker: nat, t: Taker, s: Sweep)
    requires AllPositive(s.resting)
    ensures var traded := Min(s.left, Volume(t.side, t.limit, s.resting));
            && SweepAll(ticker, t, s).left == s.left - traded
            && SweepAll(ticker, t, s).resting == Consume(s.resting, traded)
    decreases |s.resting|, s.left
  {
    if Matchable(t, s) {
      var s1 := MatchHead(ticker, t, s);
      SweepClosedForm(ticker, t, s1);
      if s.resting[0].qty > s.left {
        assert s1.left == 0;
      } else {
        assert s1.resting == s.resting[1..];
      }
    }
  }

  /** `r` is a suffix of `s` in which only quantities may differ. */
  ghost predicate Trimmed(r: seq<Order>, s: seq<Order>) {
    && |r| <= |s|
    && forall i :: 0 <= i < |r| ==> r[i] == s[|s| - |r| + i].(qty := r[i].qty)
  }

  lemma {:induction false} ConsumeTrims(s: seq<Order>, n: nat)
    requires AllPositive(s)
    ensures Trimmed(Consume(s, n), s) && AllPositive(Consume(s, n))
    decreases |s|
  {
    if n != 0 && s != [] && s[0].qty <= n {
      ConsumeTrims(s[1..], n - s[0].qty);
    }
  }

  lemma TrimmedKeepsSide(side: Side, r: seq<Order>, s: seq<Order>, nextId: nat, nextId': nat)
    requires SideInv(side, s, nextId) && DistinctOrders(s) && Trimmed(r, s) && AllPositive(r) && nextId <= nextId'
    ensures SideInv(side, r, nextId') && DistinctOrders(r)
  {
    var d := |s| - |r|;
    forall i, j | 0 <= i < j < |r| ensures Before(side, r[i], r[j]) {
      assert Before(side, s[d + i], s[d + j]);
    }
    forall i, j | 0 <= i < j < |r| ensures r[i].id != r[j].id && r[i].owner != r[j].owner {
      assert s[d + i].id != s[d + j].id;
    }
  }

  lemma TrimmedKeepsCross(r: seq<Order>, s: seq<Order>, own: seq<Order>)
    requires Trimmed(r, s)
    ensures Unrelated(s, own) ==> Unrelated(r, own)
    ensures Unrelated(own, s) ==> Unrelated(own, r)
    ensures Uncrossed(s, own) ==> Uncrossed(r, own)
    ensures Uncrossed(own, s) ==> Uncrossed(own, r)
  {
    var d := |s| - |r|;
    assert forall i :: 0 <= i < |r| ==>
        r[i].id == s[d + i].id && r[i].owner == s[d + i].owner && r[i].price == s[d + i].price;
  }

  /** The opposite side after a sweep is a suffix of what it was, quantities aside. */
  lemma SweptTrims(ticker: nat, b: Book, r: Request)
    requires r.NewOrder? && AllPositive(Resting(b, Opposite(r.side)))
    ensures Trimmed(Swept(ticker, b, r).resting, Resting(b, Opposite(r.side)))
    ensures AllPositive(Swept(ticker, b, r).resting)
  {
    var s := Resting(b, Opposite(r.side));
    SweepClosedForm(ticker, TakerOf(b, r), Sweep(s, r.qty, [Accepted(ticker, b, r)], []));
    ConsumeTrims(s, Min(r.qty, Volume(r.side, r.price, s)));
  }

  lemma TrimmedKeepsInv(b: Book, side: Side, t: seq<Order>, nextId: nat)
    requires BookInv(b) && side != NO_SIDE && Trimmed(t, Resting(b, side)) && AllPositive(t) && b.nextId <= nextId
    ensures BookInv(WithSide(b, side, t).(nextId := nextId))
  {
    TrimmedKeepsSide(side, t, Resting(b, side), b.nextId, nextId);
    TrimmedKeepsCross(t, Resting(b, side), Resting(b, Opposite(side)));
  }

  lemma SweptBookInv(ticker: nat, b: Book, r: Request)
    requires BookInv(b) && r.NewOrder? && r.side != NO_SIDE
    ensures BookInv(SweptBook(ticker, b, r))
  {
    SweptTrims(ticker, b, r);
    TrimmedKeepsInv(b, Opposite(r.side), Swept(ticker, b, r).resting, b.nextId + 1);
  }

  // ---------- insertion in closed form ----------

  /** The one position that keeps price order and goes behind equal prices. */
  ghost predicate IsSlot(s: seq<Order>, side: Side, price: nat, k: nat) {
    && k <= |s|
    && (forall i :: 0 <= i < k ==> !Better(side, price, s[i].price))
    && (forall i :: k <= i < |s| ==> Better(side, price, s[i].price))
  }

  lemma {:induction false} InsertAtSlot(s: seq<Order>, o: Order, k: nat)
    requires IsSlot(s, o.side, o.price, k)
    ensures Insert(s, o) == InsertAt(s, k, o)
  {
    if k > 0 {
      assert forall i :: 0 <= i < |s| - 1 ==> s[1..][i] == s[i + 1];
      InsertAtSlot(s[1..], o, k - 1);
      assert [s[0]] + s[1..][..k - 1] == s[..k];
      assert s[1..][k - 1..] == s[k..];
    }
  }

  /** Sorted prices have a slot for every price. */
  lemma {:induction false} SlotExists(s: seq<Order>, side: Side, price: nat) returns (k: nat)
    requires side != NO_SIDE
    requires forall i, j :: 0 <= i < j < |s| ==> !Better(side, s[j].price, s[i].price)
    ensures IsSlot(s, side, price, k)
  {
    k := |s|;
    while k > 0 && Better(side, price, s[k - 1].price)
      invariant k <= |s|
      invariant forall i :: k <= i < |s| ==> Better(side, price, s[i].price)
    {
      k := k - 1;
    }
    if k > 0 {
      forall i | 0 <= i < k ensures !Better(side, price, s[i].price) {
        assert i < k - 1 ==> !Better(side, s[k - 1].price, s[i].price);
      }
    }
  }

  /** A new level starts at priority 1; an existing one goes on above its youngest order. */
  lemma {:induction false} NextPriorityIsAbove(s: seq<Order>, side: Side, price: nat)
    requires Sorted(side, s)
    ensures forall i :: 0 <= i < |s| && s[i].price == price ==> s[i].priority < NextPriority(s, price)
  {
    if s != [] {
      var last := s[|s| - 1];
      if last.price == price {
        assert forall i :: 0 <= i < |s| - 1 ==> Before(side, s[i], last);
      } else {
        NextPriorityIsAbove(s[..|s| - 1], side, price);
      }
    }
  }

  lemma InsertKeepsSorted(side: Side, s: seq<Order>, o: Order, k: nat)
    requires side != NO_SIDE && Sorted(side, s) && IsSlot(s, side, o.price, k)
    requires forall i :: 0 <= i < |s| && s[i].price == o.price ==> s[i].id < o.id && s[i].priority < o.priority
    ensures Sorted(side, InsertAt(s, k, o))
  {
    var r := InsertAt(s, k, o);
    forall i, j | 0 <= i < j < |r| ensures Before(side, r[i], r[j]) {
      var i' := if i > k then i - 1 else i;
      var j' := if j > k then j - 1 else j;
      if i != k && j != k {
        assert r[i] == s[i'] && r[j] == s[j'] && Before(side, s[i'], s[j']);
      } else if j == k {
        assert r[i] == s[i];
      } else {
        assert r[j] == s[j'];
      }
    }
  }

  lemma InsertKeepsSide(side: Side, s: seq<Order>, o: Order, k: nat, nextId: nat)
    requires side != NO_SIDE
    requires SideInv(side, s, nextId) && DistinctOrders(s)
    requires o.side == side && o.qty > 0 && 1 <= o.id < nextId && o.owner.Client?
    requires forall i :: 0 <= i < |s| ==> s[i].id < o.id && s[i].owner != o.owner
    requires forall i :: 0 <= i < |s| && s[i].price == o.price ==> s[i].priority < o.priority
    requires IsSlot(s, side, o.price, k)
    ensures SideInv(side, InsertAt(s, k, o), nextId) && DistinctOrders(InsertAt(s, k, o))
  {
    InsertKeepsSorted(side, s, o, k);
    var r := InsertAt(s, k, o);
    assert forall i :: 0 <= i < |r| ==> r[i] == if i == k then o else s[if i > k then i - 1 else i];
  }

  lemma LocateFinds(s: seq<Order>, owner: Owner, i: nat)
    requires i < |s| && s[i].owner == owner
    ensures Owns(s, owner)
  {
  }

  /** A remainder never crosses what the sweep left standing on the other side. */
  lemma RemainderUncrossed(ticker: nat, b: Book, r: Request)
    requires BookInv(b) && r.NewOrder? && r.side != NO_SIDE && Swept(ticker, b, r).left > 0
    ensures forall i :: 0 <= i < |Swept(ticker, b, r).resting| ==>
            !Crosses(r.side, r.price, Swept(ticker, b, r).resting[i].price)
  {
    var s := Swept(ticker, b, r).resting;
    SweptBookInv(ticker, b, r);
    assert Sorted(Opposite(r.side), s);
    forall i | 0 <= i < |s| ensures !Crosses(r.side, r.price, s[i].price) {
      assert i > 0 ==> Before(Opposite(r.side), s[0], s[i]);
    }
  }

  lemma SidePricesOrdered(side: Side, s: seq<Order>, nextId: nat)
    requires SideInv(side, s, nextId)
    ensures forall i, j :: 0 <= i < j < |s| ==> !Better(side, s[j].price, s[i].price)
  {
    forall i, j | 0 <= i < j < |s| ensures !Better(side, s[j].price, s[i].price) {
      assert Before(side, s[i], s[j]);
    }
  }

  /** Where a remainder goes, and that the side stays well formed with it there. */
  lemma RemainderRests(ticker: nat, b: Book, r: Request) returns (k: nat)
    requires BookInv(b) && r.NewOrder? && Acceptable(ticker, b, r) && Swept(ticker, b, r).left > 0
    ensures IsSlot(Resting(b, r.side), r.side, r.price, k)
    ensures Add(ticker, b, r).book
         == WithSide(SweptBook(ticker, b, r), r.side, InsertAt(Resting(b, r.side), k, Remainder(ticker, b, r)))
    ensures SideInv(r.side, InsertAt(Resting(b, r.side), k, Remainder(ticker, b, r)), b.nextId + 1)
    ensures DistinctOrders(InsertAt(Resting(b, r.side), k, Remainder(ticker, b, r)))
  {
    var s := Resting(b, r.side);
    var o := Remainder(ticker, b, r);
    SidePricesOrdered(r.side, s, b.nextId);
    k := SlotExists(s, r.side, r.price);
    InsertAtSlot(s, o, k);
    NextPriorityIsAbove(s, r.side, r.price);
    forall i | 0 <= i < |s| ensures s[i].owner != o.owner {
      if s[i].owner == o.owner {
        LocateFinds(s, o.owner, i);
      }
    }
    assert SideInv(r.side, s, b.nextId + 1);
    InsertKeepsSide(r.side, s, o, k, b.nextId + 1);
  }

  lemma InsertUnrelated(s: seq<Order>, k: nat, o: Order, t: seq<Order>)
    requires k <= |s| && Unrelated(s, t)
    requires forall j :: 0 <= j < |t| ==> t[j].id != o.id && t[j].owner != o.owner
    ensures Unrelated(InsertAt(s, k, o), t) && Unrelated(t, InsertAt(s, k, o))
  {
    var r := InsertAt(s, k, o);
    forall i, j | 0 <= i < |r| && 0 <= j < |t| ensures r[i].id != t[j].id && r[i].owner != t[j].owner {
      if i != k {
        assert r[i] == s[if i > k then i - 1 else i];
      }
    }
  }

  lemma InsertUncrossed(s: seq<Order>, k: nat, o: Order, t: seq<Order>)
    requires k <= |s|
    ensures Uncrossed(s, t) && (forall j :: 0 <= j < |t| ==> o.price < t[j].price) ==> Uncrossed(InsertAt(s, k, o), t)
    ensures Uncrossed(t, s) && (forall j :: 0 <= j < |t| ==> t[j].price < o.price) ==> Uncrossed(t, InsertAt(s, k, o))
  {
    var r := InsertAt(s, k, o);
    forall i | 0 <= i < |r| ensures r[i] == o || exists i' :: 0 <= i' < |s| && r[i] == s[i'] {
      if i != k {
        assert r[i] == s[if i > k then i - 1 else i];
      }
    }
  }

  /** Resting one fresh order at its slot keeps the whole book well formed. */
  lemma RestKeepsInv(b: Book, side: Side, k: nat, o: Order)
    requires BookInv(b) && side != NO_SIDE && k <= |Resting(b, side)|
    requires SideInv(side, InsertAt(Resting(b, side), k, o), b.nextId)
    requires DistinctOrders(InsertAt(Resting(b, side), k, o))
    requires forall j :: 0 <= j < |Resting(b, Opposite(side))| ==>
      && Resting(b, Opposite(side))[j].id != o.id && Resting(b, Opposite(side))[j].owner != o.owner
      && !Crosses(side, o.price, Resting(b, Opposite(side))[j].price)
    ensures BookInv(WithSide(b, side, InsertAt(Resting(b, side), k, o)))
  {
    InsertUnrelated(Resting(b, side), k, o, Resting(b, Opposite(side)));
    InsertUncrossed(Resting(b, side), k, o, Resting(b, Opposite(side)));
  }

  lemma SweptBookSides(ticker: nat, b: Book, r: Request)
    requires r.NewOrder? && r.side != NO_SIDE
    ensures Resting(SweptBook(ticker, b, r), r.side) == Resting(b, r.side)
    ensures Resting(SweptBook(ticker, b, r), Opposite(r.side)) == Swept(ticker, b, r).resting
    ensures SweptBook(ticker, b, r).nextId == b.nextId + 1
  {
  }

  /** Nothing on the other side shares the remainder's id or owner. */
  lemma RemainderIsForeign(ticker: nat, b: Book, r: Request)
    requires BookInv(b) && r.NewOrder? && Acceptable(ticker, b, r) && Swept(ticker, b, r).left > 0
    ensures forall j :: 0 <= j < |Swept(ticker, b, r).resting| ==>
      Swept(ticker, b, r).resting[j].id != b.nextId
      && Swept(ticker, b, r).resting[j].owner != Client(r.client, r.orderId)
  {
    var t := Swept(ticker, b, r).resting;
    SweptTrims(ticker, b, r);
    SweptBookSides(ticker, b, r);
    forall j | 0 <= j < |t| ensures t[j].owner != Client(r.client, r.orderId) {
      if t[j].owner == Client(r.client, r.orderId) {
        LocateFinds(t, t[j].owner, j);
      }
    }
  }

  lemma AddKeepsInv(ticker: nat, b: Book, r: Request)
    requires BookInv(b) && r.NewOrder? && Acceptable(ticker, b, r)
    ensures BookInv(Add(ticker, b, r).book)
  {
    SweptBookInv(ticker, b, r);
    if Swept(ticker, b, r).left > 0 {
      var k := RemainderRests(ticker, b, r);
      RemainderUncrossed(ticker, b, r);
      RemainderIsForeign(ticker, b, r);
      SweptBookSides(ticker, b, r);
      RestKeepsInv(SweptBook(ticker, b, r), r.side, k, Remainder(ticker, b, r));
    }
  }

  lemma RemoveKeepsSide(side: Side, s: seq<Order>, k: nat, nextId: nat)
    requires k < |s| && SideInv(side, s, nextId) && DistinctOrders(s)
    ensures SideInv(side, RemoveAt(s, k), nextId) && DistinctOrders(RemoveAt(s, k))
  {
    var r := RemoveAt(s, k);
    forall i, j | 0 <= i < j < |r| ensures Before(side, r[i], r[j]) && r[i].id != r[j].id && r[i].owner != r[j].owner {
      var i' := if i >= k then i + 1 else i;
      var j' := if j >= k then j + 1 else j;
      assert r[i] == s[i'] && r[j] == s[j'];
      assert Before(side, s[i'], s[j']);
    }
  }

  lemma RemoveKeepsCross(s: seq<Order>, k: nat, t: seq<Order>)
    requires k < |s|
    ensures Unrelated(s, t) ==> Unrelated(RemoveAt(s, k), t)
    ensures Unrelated(t, s) ==> Unrelated(t, RemoveAt(s, k))
    ensures Uncrossed(s, t) ==> Uncrossed(RemoveAt(s, k), t)
    ensures Uncrossed(t, s) ==> Uncrossed(t, RemoveAt(s, k))
  {
    var r := RemoveAt(s, k);
    assert forall i :: 0 <= i < |r| ==> r[i] == s[if i >= k then i + 1 else i];
  }

  lemma WithdrawnKeepsInv(ticker: nat, b: Book, side: Side, k: nat)
    requires BookInv(b) && side != NO_SIDE && k < |Resting(b, side)|
    ensures BookInv(Withdrawn(ticker, b, side, k).book)
  {
    RemoveKeepsSide(side, Resting(b, side), k, b.nextId);
    RemoveKeepsCross(Resting(b, side), k, Resting(b, Opposite(side)));
  }

  lemma ProcessKeepsInv(ticker: nat, b: Book, r: Request)
    requires BookInv(b) && Acceptable(ticker, b, r)
    ensures BookInv(Process(ticker, b, r).book)
  {
    if r.NewOrder? {
      AddKeepsInv(ticker, b, r);
    } else {
      var owner := Client(r.client, r.orderId);
      if Owns(b.bids, owner) {
        WithdrawnKeepsInv(ticker, b, BUY, Locate(b.bids, owner));
      } else if Owns(b.asks, owner) {
        WithdrawnKeepsInv(ticker, b, SELL, Locate(b.asks, owner));
      }
    }
  }

  // ---------- whole runs ----------

  /** The book and the complete message logs after a history of requests. */
  ghost function Run(ticker: nat, rs: seq<Request>): Outcome {
    if rs == [] then Outcome(EMPTY, [], [])
    else
      var before := Run(ticker, rs[..|rs| - 1]);
      var last := Process(ticker, before.book, rs[|rs| - 1]);
      Outcome(last.book, before.responses + last.responses, before.updates + last.updates)
  }

  /** Every request of the history is acceptable to the book it meets. */
  ghost predicate Admitted(ticker: nat, rs: seq<Request>) {
    rs == [] || (Admitted(ticker, rs[..|rs| - 1])
                 && Acceptable(ticker, Run(ticker, rs[..|rs| - 1]).book, rs[|rs| - 1]))
  }

  /** Every reachable book is sorted, free of duplicates and uncrossed. */
  lemma {:induction false} RunKeepsInv(ticker: nat, rs: seq<Request>)
    requires Admitted(ticker, rs)
    ensures BookInv(Run(ticker, rs).book)
  {
    if rs != [] {
      RunKeepsInv(ticker, rs[..|rs| - 1]);
      ProcessKeepsInv(ticker, Run(ticker, rs[..|rs| - 1]).book, rs[|rs| - 1]);
    }
  }
}

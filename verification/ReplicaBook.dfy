/**
 A participant's book as the market data describes it: the same two price-time sequences,
 without owners; and how far it agrees with the exchange's book.
 */
module ReplicaBook {
  import opened MarketTypes
  import opened Sequences
  import opened PriceTimeBook
  import opened BookSafety

  datatype Replica = Replica(bids: seq<Order>, asks: seq<Order>)

  const BLANK: Replica := Replica([], [])

  function Of(r: Replica, side: Side): seq<Order> {
    if side == BUY then r.bids else r.asks
  }

  function With(r: Replica, side: Side, s: seq<Order>): Replica {
    if side == BUY then r.(bids := s) else r.(asks := s)
  }

  /** The first position of this market order id, or the length of `s`. */
  function Seek(s: seq<Order>, id: nat): (k: nat)
    ensures k <= |s|
    ensures k < |s| ==> s[k].owner == Public(id)
    ensures forall i :: 0 <= i < k ==> s[i].owner != Public(id)
  {
    Locate(s, Public(id))
  }

  function OrderIn(u: MarketUpdate): Order {
    Order(u.orderId, Public(u.orderId), u.side, u.price, u.qty, u.priority)
  }

  /** The order's side, or `NO_SIDE` when the id is unknown. */
  function SideOf(r: Replica, id: nat): (side: Side)
    ensures side != NO_SIDE ==> Seek(Of(r, side), id) < |Of(r, side)|
    ensures side == NO_SIDE ==> Seek(r.bids, id) == |r.bids| && Seek(r.asks, id) == |r.asks|
  {
    if Seek(r.bids, id) < |r.bids| then BUY
    else if Seek(r.asks, id) < |r.asks| then SELL
    else NO_SIDE
  }

  /** One update; a change to an unknown order is ignored, and a trade changes nothing. */
  function Apply(r: Replica, u: MarketUpdate): Replica {
    var side := SideOf(r, u.orderId);
    var s := Of(r, side);
    var k := Seek(s, u.orderId);
    match u.kind
    case ADD => With(r, u.side, Insert(Of(r, u.side), OrderIn(u)))
    case MODIFY => if side == NO_SIDE then r else With(r, side, s[k := s[k].(qty := u.qty)])
    case CANCEL => if side == NO_SIDE then r else With(r, side, RemoveAt(s, k))
    case CLEAR => BLANK
    case _ => r
  }

  function Replay(r: Replica, us: seq<MarketUpdate>): Replica {
    if us == [] then r else Apply(Replay(r, us[..|us| - 1]), us[|us| - 1])
  }

  lemma {:induction false} ReplayConcat(r: Replica, us: seq<MarketUpdate>, vs: seq<MarketUpdate>)
    ensures Replay(r, us + vs) == Replay(Replay(r, us), vs)
  {
    if vs == [] {
      assert us + vs == us;
    } else {
      ReplayConcat(r, us, vs[..|vs| - 1]);
      ConcatInit(us, vs);
    }
  }

  lemma ReplayStep(r: Replica, us: seq<MarketUpdate>, u: MarketUpdate)
    ensures Replay(r, us + [u]) == Apply(Replay(r, us), u)
  {
    assert (us + [u])[..|us|] == us;
  }

  // ---------- what a well-formed stream keeps ----------

  ghost predicate OneSide(side: Side, s: seq<Order>) {
    && (forall i :: 0 <= i < |s| ==> s[i].side == side && s[i].owner == Public(s[i].id))
    && Sorted(side, s)
    && (forall i, j :: 0 <= i < j < |s| ==> s[i].id != s[j].id)
  }

  ghost predicate NoSharedIds(s: seq<Order>, t: seq<Order>) {
    forall i, j :: 0 <= i < |s| && 0 <= j < |t| ==> s[i].id != t[j].id
  }

  /** Both sides in price-time order, and no id twice. */
  ghost predicate ReplicaInv(r: Replica) {
    OneSide(BUY, r.bids) && OneSide(SELL, r.asks) && NoSharedIds(r.bids, r.asks)
  }

  ghost predicate IdsBelow(s: seq<Order>, id: nat) {
    forall i :: 0 <= i < |s| ==> s[i].id < id
  }

  /** An addition is younger than everything known; a change names a known order by its id, side, price and priority. */
  ghost predicate LegalNext(r: Replica, u: MarketUpdate) {
    match u.kind
    case ADD =>
      && u.side != NO_SIDE && IdsBelow(r.bids, u.orderId) && IdsBelow(r.asks, u.orderId)
      && (forall i :: 0 <= i < |Of(r, u.side)| && Of(r, u.side)[i].price == u.price ==>
         Of(r, u.side)[i].priority < u.priority)
    case MODIFY => Names(r, u)
    case CANCEL => Names(r, u)
    case TRADE => true
    case _ => false
  }

  ghost predicate Names(r: Replica, u: MarketUpdate) {
    && u.side != NO_SIDE
    && exists k :: 0 <= k < |Of(r, u.side)| && SameOrder(Of(r, u.side)[k], u)
  }

  predicate SameOrder(o: Order, u: MarketUpdate) {
    o.id == u.orderId && o.price == u.price && o.priority == u.priority
  }

  ghost predicate LegalTo(r: Replica, us: seq<MarketUpdate>) {
    us == [] || (LegalTo(r, us[..|us| - 1]) && LegalNext(Replay(r, us[..|us| - 1]), us[|us| - 1]))
  }

  lemma LegalStep(r: Replica, us: seq<MarketUpdate>, q: Replica, u: MarketUpdate)
    requires LegalTo(r, us) && Replay(r, us) == q && LegalNext(q, u)
    ensures LegalTo(r, us + [u]) && Replay(r, us + [u]) == Apply(q, u)
  {
    assert (us + [u])[..|us|] == us;
  }

  lemma {:induction false} LegalConcat(r: Replica, us: seq<MarketUpdate>, vs: seq<MarketUpdate>)
    requires LegalTo(r, us) && LegalTo(Replay(r, us), vs)
    ensures LegalTo(r, us + vs)
  {
    if vs == [] {
      assert us + vs == us;
    } else {
      LegalConcat(r, us, vs[..|vs| - 1]);
      ReplayConcat(r, us, vs[..|vs| - 1]);
      LegalStep(r, us + vs[..|vs| - 1], Replay(Replay(r, us), vs[..|vs| - 1]), vs[|vs| - 1]);
      ConcatLast(us, vs);
    }
  }

  lemma SeekOnly(s: seq<Order>, k: nat)
    requires k < |s| && forall i :: 0 <= i < |s| ==> s[i].owner == Public(s[i].id)
    requires forall i :: 0 <= i < |s| && i != k ==> s[i].id != s[k].id
    ensures Seek(s, s[k].id) == k
  {
  }

  /** With no id twice, an order is found exactly where it is. */
  lemma FoundAt(r: Replica, side: Side, k: nat)
    requires ReplicaInv(r) && side != NO_SIDE && k < |Of(r, side)|
    ensures SideOf(r, Of(r, side)[k].id) == side && Seek(Of(r, side), Of(r, side)[k].id) == k
  {
    SeekOnly(Of(r, side), k);
  }

  lemma InsertedSide(side: Side, s: seq<Order>, o: Order, t: seq<Order>)
    requires side != NO_SIDE && OneSide(side, s) && o.side == side && o.owner == Public(o.id)
    requires IdsBelow(s, o.id) && IdsBelow(t, o.id) && NoSharedIds(s, t) && NoSharedIds(t, s)
    requires forall i :: 0 <= i < |s| && s[i].price == o.price ==> s[i].priority < o.priority
    ensures OneSide(side, Insert(s, o)) && NoSharedIds(Insert(s, o), t) && NoSharedIds(t, Insert(s, o))
  {
    forall i, j | 0 <= i < j < |s| ensures !Better(side, s[j].price, s[i].price) {
      assert Before(side, s[i], s[j]);
    }
    var k := SlotExists(s, side, o.price);
    InsertAtSlot(s, o, k);
    InsertKeepsSorted(side, s, o, k);
    InsertedIds(s, k, o, t);
  }

  lemma InsertedIds(s: seq<Order>, k: nat, o: Order, t: seq<Order>)
    requires k <= |s| && IdsBelow(s, o.id) && IdsBelow(t, o.id) && NoSharedIds(s, t)
    requires forall i, j :: 0 <= i < j < |s| ==> s[i].id != s[j].id
    ensures var r := InsertAt(s, k, o);
            && NoSharedIds(r, t) && NoSharedIds(t, r) && (forall i, j :: 0 <= i < j < |r| ==> r[i].id != r[j].id)
            && forall i :: 0 <= i < |r| ==> r[i] == o || r[i] in s
  {
    var r := InsertAt(s, k, o);
    assert forall i :: 0 <= i < |r| ==> r[i] == if i == k then o else s[if i > k then i - 1 else i];
  }

  lemma AddedInv(r: Replica, u: MarketUpdate)
    requires ReplicaInv(r) && u.kind == ADD && LegalNext(r, u)
    ensures ReplicaInv(Apply(r, u))
  {
    InsertedSide(u.side, Of(r, u.side), OrderIn(u), Of(r, Opposite(u.side)));
  }

  lemma RequantifiedInv(r: Replica, side: Side, k: nat, qty: nat)
    requires ReplicaInv(r) && side != NO_SIDE && k < |Of(r, side)|
    ensures ReplicaInv(With(r, side, Of(r, side)[k := Of(r, side)[k].(qty := qty)]))
  {
    var s := Of(r, side);
    var t := s[k := s[k].(qty := qty)];
    assert forall i :: 0 <= i < |t| ==> t[i] == s[i].(qty := t[i].qty);
    forall i, j | 0 <= i < j < |t| ensures Before(side, t[i], t[j]) {
      assert Before(side, s[i], s[j]);
    }
  }

  lemma RemovedInv(r: Replica, side: Side, k: nat)
    requires ReplicaInv(r) && side != NO_SIDE && k < |Of(r, side)|
    ensures ReplicaInv(With(r, side, RemoveAt(Of(r, side), k)))
  {
    RemovedSide(side, Of(r, side), k, Of(r, Opposite(side)));
  }

  lemma RemovedSide(side: Side, s: seq<Order>, k: nat, own: seq<Order>)
    requires OneSide(side, s) && k < |s|
    ensures OneSide(side, RemoveAt(s, k))
    ensures NoSharedIds(s, own) ==> NoSharedIds(RemoveAt(s, k), own)
    ensures NoSharedIds(own, s) ==> NoSharedIds(own, RemoveAt(s, k))
  {
    var t := RemoveAt(s, k);
    assert forall i :: 0 <= i < |t| ==> t[i] == s[if i >= k then i + 1 else i];
    forall i, j | 0 <= i < j < |t| ensures Before(side, t[i], t[j]) && t[i].id != t[j].id {
      assert Before(side, s[if i >= k then i + 1 else i], s[if j >= k then j + 1 else j]);
    }
  }

  lemma ApplyKeepsInv(r: Replica, u: MarketUpdate)
    requires ReplicaInv(r) && LegalNext(r, u)
    ensures ReplicaInv(Apply(r, u))
  {
    var side := SideOf(r, u.orderId);
    match u.kind
    case ADD => AddedInv(r, u);
    case MODIFY => if side != NO_SIDE { RequantifiedInv(r, side, Seek(Of(r, side), u.orderId), u.qty); }
    case CANCEL => if side != NO_SIDE { RemovedInv(r, side, Seek(Of(r, side), u.orderId)); }
    case _ =>
  }

  /** Every prefix of a legal stream leaves a sorted replica without duplicates. */
  lemma {:induction false} ReplayKeepsInv(r: Replica, us: seq<MarketUpdate>)
    requires ReplicaInv(r) && LegalTo(r, us)
    ensures ReplicaInv(Replay(r, us))
  {
    if us != [] {
      ReplayKeepsInv(r, us[..|us| - 1]);
      ApplyKeepsInv(Replay(r, us[..|us| - 1]), us[|us| - 1]);
    }
  }
}

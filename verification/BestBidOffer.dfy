/** The participant's cached best bid and offer: when it is exact and when it is still invalid. */
module BestBidOffer {
  import opened MarketTypes
  import opened Sequences
  import opened PriceTimeBook
  import opened BookSafety
  import opened ReplicaBook
  import opened Replication

  /** One side of the cache. */
  datatype Quote = Quote(price: nat, qty: nat)

  const NO_QUOTE: Quote := Quote(INVALID_64, INVALID_QTY)

  datatype BBO = BBO(bid: Quote, ask: Quote)

  const NO_QUOTES: BBO := BBO(NO_QUOTE, NO_QUOTE)

  function QuoteOf(b: BBO, side: Side): Quote {
    if side == BUY then b.bid else b.ask
  }

  /** Total quantity resting at a price. */
  function LevelQty(s: seq<Order>, price: nat): nat {
    if s == [] then 0 else (if s[0].price == price then s[0].qty else 0) + LevelQty(s[1..], price)
  }

  /** The best price and the total at it, in 32 bits. */
  function Best(s: seq<Order>): Quote {
    if s == [] then NO_QUOTE else Quote(s[0].price, LevelQty(s, s[0].price) % QTY_MODULUS)
  }

  /** The update is for this side, which is not empty, at its best price or better. */
  predicate AtBest(r: Replica, side: Side, u: MarketUpdate) {
    u.side == side && Of(r, side) != [] && !Better(side, Of(r, side)[0].price, u.price)
  }

  /** The cache after an update: a side is refreshed only when the update was at its best, and never by a trade. */
  function QuoteNext(r: Replica, q: Quote, side: Side, u: MarketUpdate): Quote {
    if u.kind != TRADE && AtBest(r, side, u) then Best(Of(Apply(r, u), side)) else q
  }

  function BboNext(r: Replica, b: BBO, u: MarketUpdate): BBO {
    BBO(QuoteNext(r, b.bid, BUY, u), QuoteNext(r, b.ask, SELL, u))
  }

  function BboAfter(us: seq<MarketUpdate>): BBO {
    if us == [] then NO_QUOTES
    else BboNext(Replay(BLANK, us[..|us| - 1]), BboAfter(us[..|us| - 1]), us[|us| - 1])
  }

  /** Since the side last became non-empty, an update at its best has arrived. */
  function Touched(us: seq<MarketUpdate>, side: Side): bool {
    if us == [] then false
    else
      var r, u := Replay(BLANK, us[..|us| - 1]), us[|us| - 1];
      && Of(Apply(r, u), side) != [] && Of(r, side) != []
      && (Touched(us[..|us| - 1], side) || (u.kind != TRADE && AtBest(r, side, u)))
  }

  // ---------- an update behind the best leaves the best alone ----------

  lemma {:induction false} LevelQtyConcat(s: seq<Order>, t: seq<Order>, price: nat)
    ensures LevelQty(s + t, price) == LevelQty(s, price) + LevelQty(t, price)
  {
    if s == [] {
      assert s + t == t;
    } else {
      assert (s + t)[1..] == s[1..] + t;
      LevelQtyConcat(s[1..], t, price);
    }
  }

  lemma LevelQtyInsertAt(s: seq<Order>, k: nat, o: Order, price: nat)
    requires k <= |s|
    ensures LevelQty(InsertAt(s, k, o), price) == LevelQty(s, price) + (if o.price == price then o.qty else 0)
  {
    LevelQtyConcat(s[..k], [o] + s[k..], price);
    LevelQtyConcat(s[..k], s[k..], price);
    assert InsertAt(s, k, o) == s[..k] + ([o] + s[k..]);
    SplitJoins(s, k);
  }

  lemma LevelQtyRemoveAt(s: seq<Order>, k: nat, price: nat)
    requires k < |s|
    ensures LevelQty(s, price) == LevelQty(RemoveAt(s, k), price) + (if s[k].price == price then s[k].qty else 0)
  {
    LevelQtyInsertAt(RemoveAt(s, k), k, s[k], price);
    assert InsertAt(RemoveAt(s, k), k, s[k]) == s;
  }

  lemma LevelQtyRequantified(s: seq<Order>, k: nat, qty: nat, price: nat)
    requires k < |s| && s[k].price != price
    ensures LevelQty(s[k := s[k].(qty := qty)], price) == LevelQty(s, price)
  {
    var t := s[k := s[k].(qty := qty)];
    LevelQtyRemoveAt(s, k, price);
    LevelQtyRemoveAt(t, k, price);
    assert RemoveAt(t, k) == RemoveAt(s, k);
  }

  lemma {:induction false} InsertBehindBest(s: seq<Order>, o: Order)
    requires s != [] && Better(o.side, s[0].price, o.price)
    ensures Insert(s, o)[0] == s[0] && LevelQty(Insert(s, o), s[0].price) == LevelQty(s, s[0].price)
  {
    InsertedQty(s[1..], o, s[0].price);
    assert Insert(s, o)[1..] == Insert(s[1..], o);
  }

  lemma {:induction false} InsertedQty(s: seq<Order>, o: Order, price: nat)
    requires o.price != price
    ensures LevelQty(Insert(s, o), price) == LevelQty(s, price)
  {
    if s != [] && !Better(o.side, o.price, s[0].price) {
      InsertedQty(s[1..], o, price);
      assert Insert(s, o)[1..] == Insert(s[1..], o);
    } else {
      assert Insert(s, o)[1..] == s;
    }
  }

  /** A legal update behind the best neither moves the best price nor changes what rests at it. */
  lemma BehindBest(r: Replica, side: Side, u: MarketUpdate)
    requires ReplicaInv(r) && LegalNext(r, u) && side != NO_SIDE && Of(r, side) != [] && !AtBest(r, side, u)
    ensures Best(Of(Apply(r, u), side)) == Best(Of(r, side)) && Of(Apply(r, u), side) != []
  {
    var s := Of(r, side);
    if u.kind in {MODIFY, CANCEL} {
      var k :| 0 <= k < |Of(r, u.side)| && SameOrder(Of(r, u.side)[k], u);
      FoundAt(r, u.side, k);
      if u.side == side {
        LevelQtyRemoveAt(s, k, s[0].price);
        LevelQtyRequantified(s, k, u.qty, s[0].price);
      }
    } else if u.kind == ADD && u.side == side {
      InsertBehindBest(s, OrderIn(u));
    }
  }

  /** An update of the other side, or a trade, leaves this side alone. */
  lemma OtherSideKept(r: Replica, side: Side, u: MarketUpdate)
    requires ReplicaInv(r) && LegalNext(r, u) && side != NO_SIDE && (u.side != side || u.kind == TRADE)
    ensures Of(Apply(r, u), side) == Of(r, side)
  {
    if u.kind in {MODIFY, CANCEL} {
      var k :| 0 <= k < |Of(r, u.side)| && SameOrder(Of(r, u.side)[k], u);
      FoundAt(r, u.side, k);
    }
  }

  /** The cache is exact once the side was touched since it became non-empty, and invalid before. */
  ghost predicate QuoteRight(us: seq<MarketUpdate>, side: Side) {
    QuoteOf(BboAfter(us), side) == if Touched(us, side) then Best(Of(Replay(BLANK, us), side)) else NO_QUOTE
  }

  lemma QuoteStep(us: seq<MarketUpdate>, side: Side)
    requires us != [] && side != NO_SIDE && QuoteRight(us[..|us| - 1], side)
    requires ReplicaInv(Replay(BLANK, us[..|us| - 1])) && LegalNext(Replay(BLANK, us[..|us| - 1]), us[|us| - 1])
    ensures QuoteRight(us, side)
  {
    var init, u := us[..|us| - 1], us[|us| - 1];
    var r := Replay(BLANK, init);
    if u.kind == TRADE || u.side != side {
      OtherSideKept(r, side, u);
    } else if Of(r, side) != [] && !AtBest(r, side, u) {
      BehindBest(r, side, u);
    }
  }

  // ---------- how the quote moves ----------

  /** Strictly better than the side's best price. */
  predicate AboveBest(side: Side, s: seq<Order>, price: nat) {
    s != [] && if side == BUY then price > s[0].price else price < s[0].price
  }

  /** Strictly worse than the side's best price. */
  predicate BelowBest(side: Side, s: seq<Order>, price: nat) {
    s != [] && if side == BUY then price < s[0].price else price > s[0].price
  }

  lemma AddModulo(x: nat, y: nat)
    ensures (x % QTY_MODULUS + y) % QTY_MODULUS == (x + y) % QTY_MODULUS
  {
  }

  /** The quoted price is one that rests and none is better. */
  lemma QuotedIsBest(side: Side, s: seq<Order>, i: nat)
    requires side != NO_SIDE && OneSide(side, s) && i < |s|
    ensures Best(s).price == s[0].price && !AboveBest(side, s, s[i].price)
  {
    if i > 0 {
      assert Before(side, s[0], s[i]);
    }
  }

  lemma OneOrderQuote(o: Order)
    ensures Best([o]) == Quote(o.price, o.qty % QTY_MODULUS)
  {
    assert LevelQty([o][1..], o.price) == 0;
  }

  lemma {:induction false} NoneAtPrice(s: seq<Order>, price: nat)
    requires forall i :: 0 <= i < |s| ==> s[i].price != price
    ensures LevelQty(s, price) == 0
  {
    if s != [] {
      NoneAtPrice(s[1..], price);
    }
  }

  /** An addition at the best price adds its quantity; at a better one, or on an empty side, it is the quote. */
  lemma AdditionMovesQuote(r: Replica, u: MarketUpdate)
    requires ReplicaInv(r) && LegalNext(r, u) && u.kind == ADD
    ensures var s, q := Of(r, u.side), Best(Of(Apply(r, u), u.side));
            && (s != [] && u.price == s[0].price ==> q == Quote(u.price, (Best(s).qty + u.qty) % QTY_MODULUS))
            && (s == [] || AboveBest(u.side, s, u.price) ==> q == Quote(u.price, u.qty % QTY_MODULUS))
  {
    var s, o := Of(r, u.side), OrderIn(u);
    if s == [] {
      assert Of(Apply(r, u), u.side) == Insert(s, o) == [o];
      OneOrderQuote(o);
    } else if AboveBest(u.side, s, u.price) {
      forall i | 0 <= i < |s| ensures s[i].price != u.price {
        QuotedIsBest(u.side, s, i);
      }
      NoneAtPrice(s, u.price);
      assert Insert(s, o) == [o] + s && ([o] + s)[1..] == s;
    } else if u.price == s[0].price {
      AdditionAddsUp(s, o);
    }
  }

  lemma {:induction false} InsertedAtPrice(s: seq<Order>, o: Order)
    ensures LevelQty(Insert(s, o), o.price) == LevelQty(s, o.price) + o.qty
  {
    if s != [] && !Better(o.side, o.price, s[0].price) {
      InsertedAtPrice(s[1..], o);
      assert Insert(s, o)[1..] == Insert(s[1..], o);
    } else {
      assert Insert(s, o)[1..] == s;
    }
  }

  lemma AdditionAddsUp(s: seq<Order>, o: Order)
    requires s != [] && o.price == s[0].price
    ensures Best(Insert(s, o)) == Quote(o.price, (Best(s).qty + o.qty) % QTY_MODULUS)
  {
    InsertedAtPrice(s, o);
    AddModulo(LevelQty(s, o.price), o.qty);
  }

  /** A change of quantity at the best price moves the quoted quantity by as much. */
  lemma RevisionMovesQuote(s: seq<Order>, k: nat, qty: nat)
    requires k < |s| && s[k].price == s[0].price
    ensures var q := Best(s[k := s[k].(qty := qty)]);
            q.price == s[0].price && (q.qty + s[k].qty) % QTY_MODULUS == (Best(s).qty + qty) % QTY_MODULUS
  {
    var t := s[k := s[k].(qty := qty)];
    LevelQtyRemoveAt(s, k, s[0].price);
    LevelQtyRemoveAt(t, k, s[0].price);
    assert RemoveAt(t, k) == RemoveAt(s, k);
    AddModulo(LevelQty(t, s[0].price), s[k].qty);
    AddModulo(LevelQty(s, s[0].price), qty);
  }

  /** Taking out one of several orders at the best price takes off its quantity. */
  lemma RemovalMovesQuote(s: seq<Order>, k: nat)
    requires 1 < |s| && k < |s| && s[k].price == s[0].price == s[1].price
    ensures var q := Best(RemoveAt(s, k));
            q.price == s[0].price && (q.qty + s[k].qty) % QTY_MODULUS == Best(s).qty
  {
    LevelQtyRemoveAt(s, k, s[0].price);
    assert RemoveAt(s, k)[0] == if k == 0 then s[1] else s[0];
    AddModulo(LevelQty(RemoveAt(s, k), s[0].price), s[k].qty);
  }

  /** Taking out the only order at the best price brings up the next price, or no quote when there is none. */
  lemma LastRemovalMovesQuote(s: seq<Order>)
    requires s != [] && (|s| > 1 ==> s[1].price != s[0].price)
    ensures if |s| == 1 then Best(RemoveAt(s, 0)) == NO_QUOTE else Best(RemoveAt(s, 0)).price == s[1].price
  {
  }

  /** A legal change of an order at the best price, told by the quantities before and after. */
  lemma ChangeMovesQuote(r: Replica, u: MarketUpdate, k: nat)
    requires ReplicaInv(r) && u.kind in {MODIFY, CANCEL} && u.side != NO_SIDE && k < |Of(r, u.side)|
    requires SameOrder(Of(r, u.side)[k], u) && u.price == Of(r, u.side)[0].price
    ensures var s, q := Of(r, u.side), Best(Of(Apply(r, u), u.side));
            && (u.kind == MODIFY ==>
                  q.price == u.price && (q.qty + s[k].qty) % QTY_MODULUS == (Best(s).qty + u.qty) % QTY_MODULUS)
            && (u.kind == CANCEL && |s| > 1 && s[1].price == u.price ==>
                  q.price == u.price && (q.qty + s[k].qty) % QTY_MODULUS == Best(s).qty)
            && (u.kind == CANCEL && |s| > 1 && s[1].price != u.price ==> q.price == s[1].price)
            && (u.kind == CANCEL && |s| == 1 ==> q == NO_QUOTE)
  {
    var s := Of(r, u.side);
    FoundAt(r, u.side, k);
    if u.kind == MODIFY {
      RevisionMovesQuote(s, k, u.qty);
    } else if |s| > 1 && s[1].price == u.price {
      RemovalMovesQuote(s, k);
    } else {
      if k > 1 {
        BestStaysApart(u.side, s, k);
      }
      LastRemovalMovesQuote(s);
    }
  }

  /** Past the first two prices there is no way back to the best one. */
  lemma BestStaysApart(side: Side, s: seq<Order>, k: nat)
    requires side != NO_SIDE && OneSide(side, s) && 1 < k < |s| && s[k].price == s[0].price
    ensures s[1].price == s[0].price
  {
    assert Before(side, s[0], s[1]) && Before(side, s[1], s[k]);
  }

  // ---------- when the cache is refreshed ----------

  /**
   A side of the cache is recomputed by an update for it at its best price or a better one, and by no other: not by
   a trade, not on an empty side, not behind the best.
   */
  lemma RefreshedExactly(r: Replica, b: BBO, u: MarketUpdate, side: Side)
    requires side != NO_SIDE
    ensures QuoteOf(BboNext(r, b, u), side)
         == if u.kind == TRADE || u.side != side || Of(r, side) == [] || BelowBest(side, Of(r, side), u.price)
            then QuoteOf(b, side) else Best(Of(Apply(r, u), side))
  {
  }

  /** Every update is a trade, one of the other side, or strictly behind this side's best at its time. */
  ghost predicate AllBehind(r: Replica, side: Side, us: seq<MarketUpdate>) {
    us == [] ||
    var init, u := us[..|us| - 1], us[|us| - 1];
    && AllBehind(r, side, init)
    && (u.kind == TRADE || u.side != side || BelowBest(side, Of(Replay(r, init), side), u.price))
  }

  lemma BehindStep(us: seq<MarketUpdate>, r: Replica, u: MarketUpdate, side: Side)
    requires r == Replay(BLANK, us) && ReplicaInv(r) && LegalNext(r, u) && side != NO_SIDE
    requires u.kind == TRADE || u.side != side || BelowBest(side, Of(r, side), u.price)
    ensures QuoteOf(BboAfter(us + [u]), side) == QuoteOf(BboAfter(us), side)
    ensures Best(Of(Replay(BLANK, us + [u]), side)) == Best(Of(r, side))
  {
    assert (us + [u])[..|us|] == us;
    RefreshedExactly(r, BboAfter(us), u, side);
    if u.kind == TRADE || u.side != side {
      OtherSideKept(r, side, u);
    } else {
      BehindBest(r, side, u);
    }
  }

  /** The last of the updates, on top of what those before it left alone. */
  lemma BehindLast(us: seq<MarketUpdate>, vs: seq<MarketUpdate>, side: Side)
    requires LegalTo(BLANK, us) && LegalTo(Replay(BLANK, us), vs) && side != NO_SIDE && vs != []
    requires AllBehind(Replay(BLANK, us), side, vs)
    ensures QuoteOf(BboAfter(us + vs), side) == QuoteOf(BboAfter(us + vs[..|vs| - 1]), side)
    ensures Best(Of(Replay(BLANK, us + vs), side)) == Best(Of(Replay(BLANK, us + vs[..|vs| - 1]), side))
  {
    var init, u := vs[..|vs| - 1], vs[|vs| - 1];
    ReplayConcat(BLANK, us, init);
    LegalConcat(BLANK, us, init);
    ReplayKeepsInv(BLANK, us + init);
    BehindStep(us + init, Replay(Replay(BLANK, us), init), u, side);
    ConcatLast(us, vs);
  }

  /** However many updates come strictly behind a side's best, its cached quote and its best both stay. */
  lemma {:induction false} BehindLeavesQuote(us: seq<MarketUpdate>, vs: seq<MarketUpdate>, side: Side)
    requires LegalTo(BLANK, us) && LegalTo(Replay(BLANK, us), vs) && side != NO_SIDE
    requires AllBehind(Replay(BLANK, us), side, vs)
    ensures QuoteOf(BboAfter(us + vs), side) == QuoteOf(BboAfter(us), side)
    ensures Best(Of(Replay(BLANK, us + vs), side)) == Best(Of(Replay(BLANK, us), side))
  {
    if vs == [] {
      assert us + vs == us;
    } else {
      BehindLeavesQuote(us, vs[..|vs| - 1], side);
      BehindLast(us, vs, side);
    }
  }

  lemma TwoUpdates(u: MarketUpdate, v: MarketUpdate)
    requires LegalTo(BLANK, [u, v])
    ensures LegalNext(BLANK, u) && LegalNext(Apply(BLANK, u), v)
    ensures BboAfter([u, v]) == BboNext(Apply(BLANK, u), BboNext(BLANK, NO_QUOTES, u), v)
  {
    assert [u, v][..1] == [u] && [u][..0] == [];
    assert Replay(BLANK, []) == BLANK && BboAfter([]) == NO_QUOTES && LegalTo(BLANK, [u]) == LegalNext(BLANK, u);
  }

  /** One order on its side. */
  lemma FirstAdded(u: MarketUpdate)
    requires LegalNext(BLANK, u) && u.kind == ADD
    ensures var r := Apply(BLANK, u);
            && ReplicaInv(r) && Of(r, u.side) == [OrderIn(u)] && Best(Of(r, u.side)).qty == u.qty % QTY_MODULUS
            && QuoteOf(BboNext(BLANK, NO_QUOTES, u), u.side) == NO_QUOTE
  {
    AddedInv(BLANK, u);
    OneOrderQuote(OrderIn(u));
  }

  /**
   The second order on a side: quoted with the first when it joins it, alone when it betters it, and not at all
   behind it.
   */
  lemma SecondOrderIsQuoted(u: MarketUpdate, v: MarketUpdate)
    requires u.kind == v.kind == ADD && u.side == v.side && LegalTo(BLANK, [u, v])
    ensures var b := BboAfter([u, v]);
            var q := if u.side == BUY then b.bid else b.ask;
            && (v.price == u.price ==> q == Quote(u.price, (u.qty + v.qty) % QTY_MODULUS))
            && ((if u.side == BUY then v.price > u.price else v.price < u.price) ==>
                  q == Quote(v.price, v.qty % QTY_MODULUS))
            && ((if u.side == BUY then v.price < u.price else v.price > u.price) ==> q == NO_QUOTE)
  {
    var r := Apply(BLANK, u);
    TwoUpdates(u, v);
    FirstAdded(u);
    RefreshedExactly(r, BboNext(BLANK, NO_QUOTES, u), v, u.side);
    AdditionMovesQuote(r, v);
    AddModulo(u.qty, v.qty);
  }

  // ---------- along a stream ----------

  /** A legal update, or a CLEAR of a replica that is blank already. */
  ghost predicate FreshNext(r: Replica, u: MarketUpdate) {
    LegalNext(r, u) || (u.kind == CLEAR && r == BLANK)
  }

  ghost predicate FreshTo(r: Replica, us: seq<MarketUpdate>) {
    us == [] || (FreshTo(r, us[..|us| - 1]) && FreshNext(Replay(r, us[..|us| - 1]), us[|us| - 1]))
  }

  lemma {:induction false} LegalIsFresh(r: Replica, us: seq<MarketUpdate>)
    requires LegalTo(r, us)
    ensures FreshTo(r, us)
  {
    if us != [] {
      LegalIsFresh(r, us[..|us| - 1]);
    }
  }

  lemma FreshStep(r: Replica, us: seq<MarketUpdate>, q: Replica, u: MarketUpdate)
    requires FreshTo(r, us) && Replay(r, us) == q && FreshNext(q, u)
    ensures FreshTo(r, us + [u])
  {
    assert (us + [u])[..|us|] == us;
  }

  lemma {:induction false} FreshConcat(r: Replica, us: seq<MarketUpdate>, vs: seq<MarketUpdate>)
    requires FreshTo(r, us) && FreshTo(Replay(r, us), vs)
    ensures FreshTo(r, us + vs)
  {
    if vs == [] {
      assert us + vs == us;
    } else {
      FreshConcat(r, us, vs[..|vs| - 1]);
      ReplayConcat(r, us, vs[..|vs| - 1]);
      FreshStep(r, us + vs[..|vs| - 1], Replay(Replay(r, us), vs[..|vs| - 1]), vs[|vs| - 1]);
      ConcatLast(us, vs);
    }
  }

  lemma {:induction false} FreshKeepsInv(us: seq<MarketUpdate>)
    requires FreshTo(BLANK, us)
    ensures ReplicaInv(Replay(BLANK, us))
  {
    if us != [] {
      FreshKeepsInv(us[..|us| - 1]);
      if us[|us| - 1].kind != CLEAR {
        ApplyKeepsInv(Replay(BLANK, us[..|us| - 1]), us[|us| - 1]);
      }
    }
  }

  /** A CLEAR of a blank replica finds the cache invalid and leaves it so. */
  lemma ClearStep(us: seq<MarketUpdate>, side: Side)
    requires us != [] && side != NO_SIDE && QuoteRight(us[..|us| - 1], side)
    requires us[|us| - 1].kind == CLEAR && Replay(BLANK, us[..|us| - 1]) == BLANK
    ensures QuoteRight(us, side)
  {
    BlankIsUntouched(us[..|us| - 1], side);
  }

  lemma BlankIsUntouched(us: seq<MarketUpdate>, side: Side)
    requires Of(Replay(BLANK, us), side) == []
    ensures !Touched(us, side)
  {
  }

  /**
   Along any legal stream, with clears of a blank replica anywhere in it, each side of the cache is the exact best
   price and total, or invalid; and on a non-empty side it is invalid exactly when no update at its best has come
   since it became non-empty.
   */
  lemma {:induction false} BboIsRight(us: seq<MarketUpdate>)
    requires FreshTo(BLANK, us)
    ensures QuoteRight(us, BUY) && QuoteRight(us, SELL)
  {
    if us != [] {
      var init := us[..|us| - 1];
      BboIsRight(init);
      FreshKeepsInv(init);
      if us[|us| - 1].kind == CLEAR {
        ClearStep(us, BUY);
        ClearStep(us, SELL);
      } else {
        QuoteStep(us, BUY);
        QuoteStep(us, SELL);
      }
    }
  }

  /** The same for the stream of any history of the exchange's book. */
  lemma RunBbo(ticker: nat, rs: seq<Request>, side: Side)
    requires Admitted(ticker, rs) && side != NO_SIDE
    ensures var us := Run(ticker, rs).updates;
            QuoteOf(BboAfter(us), side)
            == if Touched(us, side) then Best(Of(View(Run(ticker, rs).book, StaleAfter(ticker, rs)), side))
               else NO_QUOTE
  {
    RunFeed(ticker, rs);
    LegalIsFresh(BLANK, Run(ticker, rs).updates);
    BboIsRight(Run(ticker, rs).updates);
  }

  /** One update onto an empty replica never touches the cache. */
  lemma FirstUpdate(u: MarketUpdate)
    ensures BboAfter([u]) == NO_QUOTES && Replay(BLANK, [u]) == Apply(BLANK, u)
  {
    assert [u][..0] == [];
    assert Replay(BLANK, []) == BLANK && BboAfter([]) == NO_QUOTES;
  }

  /** The one update a first order sends. */
  function FirstAddition(ticker: nat, r: Request): MarketUpdate
    requires r.NewOrder?
  {
    MarketUpdate(ADD, 1, ticker, r.side, r.price, r.qty, 1)
  }

  lemma FirstProcessed(ticker: nat, r: Request)
    requires r.NewOrder? && r.side != NO_SIDE && r.qty > 0
    ensures Process(ticker, EMPTY, r).updates == [FirstAddition(ticker, r)]
  {
    assert Swept(ticker, EMPTY, r) == Sweep([], r.qty, [Accepted(ticker, EMPTY, r)], []);
  }

  lemma FirstSent(ticker: nat, r: Request)
    requires r.NewOrder? && r.side != NO_SIDE && r.qty > 0
    ensures Admitted(ticker, [r]) && Run(ticker, [r]).updates == [FirstAddition(ticker, r)]
  {
    FirstProcessed(ticker, r);
    OneRequest(ticker, r);
    assert [r][..|[r]| - 1] == [] && Run(ticker, []) == Outcome(EMPTY, [], []);
    assert Run(ticker, [r]).updates == [] + Process(ticker, EMPTY, r).updates;
  }

  /** The first order to reach an empty book rests at the best price of its side, and the cache still shows no quote. */
  lemma FirstOrderIsNotQuoted(ticker: nat, r: Request)
    requires r.NewOrder? && r.side != NO_SIDE && r.qty > 0
    ensures Admitted(ticker, [r])
    ensures var us := Run(ticker, [r]).updates;
            && Of(Replay(BLANK, us), r.side) == [Order(1, Public(1), r.side, r.price, r.qty, 1)]
            && QuoteOf(BboAfter(us), r.side) == NO_QUOTE
  {
    var u := FirstAddition(ticker, r);
    FirstSent(ticker, r);
    FirstUpdate(u);
    assert Apply(BLANK, u) == With(BLANK, r.side, [OrderIn(u)]);
  }

  /** A buyer of 5 at 10 comes first: the replica holds the order, the cached bid is invalid. */
  lemma FirstBuyerIsNotQuoted()
    ensures var buy := NewOrder(1, 1, BUY, 10, 5);
            && Admitted(0, [buy])
            && Replay(BLANK, Run(0, [buy]).updates).bids == [Order(1, Public(1), BUY, 10, 5, 1)]
            && BboAfter(Run(0, [buy]).updates).bid == NO_QUOTE
            && Best(Replay(BLANK, Run(0, [buy]).updates).bids) == Quote(10, 5)
  {
    FirstOrderIsNotQuoted(0, NewOrder(1, 1, BUY, 10, 5));
    assert LevelQty([Order(1, Public(1), BUY, 10, 5, 1)], 10) == 5;
  }
}

/** The exchange's linked book over whole histories. */
module EngineRun {
  import opened PriceTimeBook
  import opened BookSafety
  import opened MatchingBook
  import opened MEOrderBooks

  /** The remainder, if any, fits. */
  ghost predicate Roomed(ticker: nat, b: Book, r: Request) {
    r.NewOrder? && Swept(ticker, b, r).left > 0 ==> Fits(SweptBook(ticker, b, r), r)
  }

  /** At every request of the history there was room. */
  ghost predicate RoomedRun(ticker: nat, rs: seq<Request>) {
    rs == [] || (RoomedRun(ticker, rs[..|rs| - 1])
                 && Roomed(ticker, Run(ticker, rs[..|rs| - 1]).book, rs[|rs| - 1]))
  }

  lemma {:induction false} RunPrefix(ticker: nat, rs: seq<Request>, n: nat)
    requires Admitted(ticker, rs) && RoomedRun(ticker, rs) && n < |rs|
    ensures Admitted(ticker, rs[..n]) && RoomedRun(ticker, rs[..n])
    ensures Acceptable(ticker, Run(ticker, rs[..n]).book, rs[n]) && Roomed(ticker, Run(ticker, rs[..n]).book, rs[n])
    decreases |rs|
  {
    if n < |rs| - 1 {
      RunPrefix(ticker, rs[..|rs| - 1], n);
      assert rs[..|rs| - 1][..n] == rs[..n];
    }
  }

  /** One request, whichever it is, takes the model's step. */
  method ServeOne(book: MEOrderBook, r: Request)
    requires book.Valid() && Acceptable(book.ticker, book.Model(), r) && Roomed(book.ticker, book.Model(), r)
    modifies book, book.ladder, book.ladder.orders, book.ladder.orders.objects, book.ladder.orders.isFree,
             book.ladder.levels, book.ladder.levels.objects, book.ladder.levels.isFree
    ensures book.Valid()
    ensures var out := Process(book.ticker, old(book.Model()), r);
            && book.Model() == out.book
            && book.responses == old(book.responses) + out.responses && book.updates == old(book.updates) + out.updates
  {
    if r.NewOrder? {
      book.Add(r);
    } else {
      book.Cancel(r.client, r.orderId);
    }
  }

  /** A fresh linked book serving any history of valid requests does exactly what the price-time model does. */
  method ServeHistory(ticker: nat, rs: seq<Request>) returns (book: MEOrderBook)
    requires Admitted(ticker, rs) && RoomedRun(ticker, rs)
    ensures fresh(book) && book.Valid() && book.Model() == Run(ticker, rs).book
    ensures book.responses == Run(ticker, rs).responses && book.updates == Run(ticker, rs).updates
  {
    book := new MEOrderBook(ticker);
    var n := 0;
    while n < |rs|
      invariant n <= |rs| && fresh(book) && fresh(book.ladder.Repr()) && book.Valid() && book.ticker == ticker
      invariant var out := Run(ticker, rs[..n]);
                book.Model() == out.book && book.responses == out.responses && book.updates == out.updates
    {
      RunPrefix(ticker, rs, n);
      assert rs[..n + 1][..n] == rs[..n];
      ServeOne(book, rs[n]);
      n := n + 1;
    }
    assert rs[..n] == rs;
  }
}

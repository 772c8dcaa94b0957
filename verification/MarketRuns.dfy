/** The theorems about runs, for every book of a market in every interleaving. */
module MarketRuns {
  import opened Orders
  import opened EagerBooks
  import opened LazyBooks
  import opened Refinement
  import opened Runs
  import opened Symbols
  import opened Markets
  import opened RequestCodec
  import opened Intake

  /** Whatever threads and sessions do in between, each listed symbol's live orders and trades are
      those of the price-time book of its own processed requests, and its book is at rest. */
  lemma MarketIsPriceTime(registry: Registry, symbols: seq<Symbol>, ranges: seq<Range>, actions: seq<Action>,
                          s: Symbol, prices: iset<int>)
    requires Allowed(ranges, actions) && s in symbols
    requires OrderPreserving(prices) && ValidRun(Submitted(actions, s), prices)
    ensures var m := Exec(registry, symbols, ranges, actions);
            && SymbolHash(s) in m.books[ShardIndex(s)]
            && Abs(BookOf(m, s)) == EagerRun(ProcessedOf(m.log, s)) && AtRest(BookOf(m, s))
            && BookOf(m, s).seqLen == |ProcessedOf(m.log, s)|
  {
    var m := Exec(registry, symbols, ranges, actions);
    var live, done, all := AnswersFor(registry, SymbolHash(s)), ProcessedOf(m.log, s), Submitted(actions, s);
    BookIsRunOfItsSymbol(registry, symbols, ranges, actions, s);
    assert done == all[..|done|];
    ValidPrefix(all, prices, |done|);
    LazyRefinesEager(live, done, prices);
    RunInv(live, done, prices);
    SequenceNumber(live, done);
  }

  /** From the wire to the book: if what is submitted for a symbol are orders the server admitted, each
      once and in whatever order, at prices whose slots keep their order, then in every interleaving
      that symbol's book is the price-time book of its own processed requests. */
  lemma ServedMarketIsPriceTime(registry: Registry, symbols: seq<Symbol>, ranges: seq<Range>, actions: seq<Action>,
                                arrivals: seq<Arrival>, s: Symbol, prices: iset<int>)
    requires Allowed(ranges, actions) && s in symbols && OrderPreserving(prices)
    requires DrawnFrom(Submitted(actions, s), Admitted(arrivals))
    requires forall i | i in Submitted(actions, s) && Places(i) :: i.order.price in prices
    ensures var m := Exec(registry, symbols, ranges, actions);
            && SymbolHash(s) in m.books[ShardIndex(s)]
            && Abs(BookOf(m, s)) == EagerRun(ProcessedOf(m.log, s)) && AtRest(BookOf(m, s))
            && BookOf(m, s).seqLen == |ProcessedOf(m.log, s)|
  {
    SubmissionsAreValid(arrivals, Submitted(actions, s), prices);
    MarketIsPriceTime(registry, symbols, ranges, actions, s, prices);
  }
}

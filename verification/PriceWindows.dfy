/** Price slots are price modulo 65536 and never move. Exactly when that keeps the order of the
    prices in use is the engine a price-time book. */
module PriceWindows {
  import opened Config
  import opened Orders
  import opened EagerBooks
  import opened LazyBooks
  import opened Refinement
  import opened Runs

  /** All prices in one aligned window of 65536 ticks. */
  ghost predicate OneWindow(prices: iset<int>, window: int) {
    forall p | p in prices :: window * PRICE_WINDOW <= p < (window + 1) * PRICE_WINDOW
  }

  lemma OneWindowPreservesOrder(prices: iset<int>, window: int)
    requires OneWindow(prices, window)
    ensures OrderPreserving(prices)
  {
    forall p | p in prices ensures IndexOf(p) == p - window * PRICE_WINDOW {}
  }

  ghost predicate RefinesOnAllRuns(live: Sessions, prices: iset<int>) {
    forall inputs | ValidRun(inputs, prices) :: Abs(Run(live, inputs)) == EagerRun(inputs)
  }

  ghost predicate UncrossedOnAllRuns(live: Sessions, prices: iset<int>) {
    forall inputs | ValidRun(inputs, prices) ::
      forall b, a | b in Run(live, inputs).bids && a in Run(live, inputs).asks :: b.price < a.price
  }

  function Plain(id: int, side: Side, price: int): Input {
    Input(Order(price, 1, [0, 0, 0, 0], side, SendOrder, id, 0, 0), false)
  }

  // Two bids whose slots are not in price order hide the better one from an ask at its price
  function Hidden(low: int, high: int): seq<Input> {
    [Plain(1, Buy, low), Plain(2, Buy, high), Plain(3, Sell, high)]
  }

  // A placed order that leaves the book at rest just rests
  lemma RunRests(live: Sessions, inputs: seq<Input>, i: Input, s: State)
    requires Run(live, inputs) == s
    requires i.order.request == SendOrder && AtRest(Place(Count(s), i.order))
    ensures Run(live, inputs + [i]) == Place(Count(s), i.order)
  {
    RunExtends(live, inputs, i);
    UpdateAtRest(live, Place(Count(s), i.order));
  }

  lemma HiddenBid(live: Sessions, low: int, high: int)
    requires low < high && IndexOf(high) <= IndexOf(low)
    ensures var s := Run(live, Hidden(low, high));
            && s.bids == [Plain(1, Buy, low).order, Plain(2, Buy, high).order]
            && s.asks == [Plain(3, Sell, high).order] && s.trades == []
  {
    var a, b, c := Plain(1, Buy, low), Plain(2, Buy, high), Plain(3, Sell, high);
    var s1 := Place(Count(EMPTY_STATE), a.order);
    RunRests(live, [], a, EMPTY_STATE);
    assert Insert(BySlot, [a.order], b.order) == [a.order] + Insert(BySlot, [], b.order);
    var s2 := Place(Count(s1), b.order);
    RunRests(live, [] + [a], b, s1);
    RunRests(live, [] + [a] + [b], c, s2);
    assert [] + [a] + [b] + [c] == Hidden(low, high);
  }

  lemma EagerSends(inputs: seq<Input>, i: Input, e: Book, w: Swept)
    requires EagerRun(inputs) == e && i.order.request == SendOrder && w == Sweep(i.order, e.Of(i.order.side.Other()))
    ensures EagerRun(inputs + [i]).trades == e.trades + w.fills
    ensures w.book == [] && w.rest.qty > 0 && w.fills == [] && e.trades == [] && i.order.side.Buy? ==>
              EagerRun(inputs + [i]) == Book(Insert(ByPrice, e.bids, w.rest), [], [])
  {
    RunExtends(iset{}, inputs, i);
  }

  lemma HiddenEagerly(low: int, high: int)
    requires low < high
    ensures EagerRun(Hidden(low, high)).trades == [Fill(2, 3, 1, high)]
  {
    var a, b, c := Plain(1, Buy, low), Plain(2, Buy, high), Plain(3, Sell, high);
    EagerSends([], a, EMPTY_BOOK, Swept(a.order, [], []));
    EagerSends([] + [a], b, Book([a.order], [], []), Swept(b.order, [], []));
    assert Insert(ByPrice, [a.order], b.order) == [b.order] + [a.order];
    var e := Book([b.order] + [a.order], [], []);
    SweepFirst(c.order, e.bids);
    EagerSends([] + [a] + [b], c, e, Sweep(c.order, e.bids));
    assert [] + [a] + [b] + [c] == Hidden(low, high);
  }

  /** The engine refines the price-time book on every run over a set of prices, and is uncrossed
      after every such run, if and only if the slots order the prices as their values do. */
  lemma ExactCondition(live: Sessions, prices: iset<int>)
    ensures OrderPreserving(prices) <==> RefinesOnAllRuns(live, prices)
    ensures OrderPreserving(prices) <==> UncrossedOnAllRuns(live, prices)
  {
    if OrderPreserving(prices) {
      forall inputs | ValidRun(inputs, prices)
        ensures Abs(Run(live, inputs)) == EagerRun(inputs)
        ensures forall b, a | b in Run(live, inputs).bids && a in Run(live, inputs).asks :: b.price < a.price
      {
        LazyRefinesEager(live, inputs, prices);
        NoRestingCross(live, inputs, prices);
      }
    } else {
      var low, high :| low in prices && high in prices && low < high && IndexOf(high) <= IndexOf(low);
      var inputs := Hidden(low, high);
      assert ValidRun(inputs, prices);
      HiddenBid(live, low, high);
      HiddenEagerly(low, high);
      var s := Run(live, inputs);
      assert s.bids[1] in s.bids && s.asks[0] in s.asks && s.bids[1].price == s.asks[0].price;
    }
  }
}

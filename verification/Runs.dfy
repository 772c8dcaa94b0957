/** Theorems about whole runs of the matching engine. */
module Runs {
  import opened Orders
  import opened EagerBooks
  import opened LazyBooks
  import opened Refinement

  /** Requests as the server queues them: placed orders carry positive quantities, prices from
      the given set and ids that are used once. */
  ghost predicate ValidRun(inputs: seq<Input>, prices: iset<int>) {
    && (forall i | i in inputs :: Acceptable(i.order, prices))
    && forall i, j | 0 <= i < j < |inputs| && Places(inputs[i]) && Places(inputs[j]) ::
         inputs[i].order.id != inputs[j].order.id
  }

  predicate Places(i: Input) {
    i.order.request != KillOrder
  }

  ghost function PlacedIds(inputs: seq<Input>): set<int> {
    set i | i in inputs && Places(i) :: i.order.id
  }

  /** The reference book after a run. */
  function EagerRun(inputs: seq<Input>): Book {
    if inputs == [] then EMPTY_BOOK
    else Execute(EagerRun(inputs[..|inputs| - 1]), inputs[|inputs| - 1].order)
  }

  /** A run extended by one request. */
  lemma RunExtends(live: Sessions, inputs: seq<Input>, i: Input)
    ensures Run(live, inputs + [i]) == Process(live, Run(live, inputs), i)
    ensures EagerRun(inputs + [i]) == Execute(EagerRun(inputs), i.order)
  {
    assert (inputs + [i])[..|inputs|] == inputs;
  }

  lemma ValidPrefix(inputs: seq<Input>, prices: iset<int>, n: nat)
    requires ValidRun(inputs, prices) && n <= |inputs|
    ensures ValidRun(inputs[..n], prices) && PlacedIds(inputs[..n]) <= PlacedIds(inputs)
    ensures n < |inputs| && Places(inputs[n]) ==> inputs[n].order.id !in PlacedIds(inputs[..n])
  {
    assert forall i | i in inputs[..n] :: i in inputs;
  }

  // ---------- the flags name only orders that were placed ----------

  lemma UpdateKeys(live: Sessions, s: State)
    ensures UpdateBook(live, s).flags.Keys <= s.flags.Keys
  {
    var kept := iset t: State | t.flags.Keys <= s.flags.Keys;
    forall t: State | t in kept && Crossing(t) ensures Trade(live, t) in kept {
      TradeDoes(live, t);
    }
    UpdateKeeps(live, s, kept);
  }

  lemma ProcessKeys(live: Sessions, s: State, i: Input)
    ensures Process(live, s, i).flags.Keys <= s.flags.Keys + if Places(i) then {i.order.id} else {}
  {
    ApplyKeys(live, Count(s), i);
    UpdateKeys(live, Apply(live, Count(s), i));
  }

  lemma ApplyKeys(live: Sessions, s: State, i: Input)
    ensures Apply(live, s, i).flags.Keys <= s.flags.Keys + if Places(i) then {i.order.id} else {}
  {
    assert Cancel(live, s, i.order, i.hit).flags.Keys == s.flags.Keys;
  }

  /** Over every run, whatever the prices: the invariant holds and the book is at rest. */
  lemma {:induction false} RunInv(live: Sessions, inputs: seq<Input>, prices: iset<int>)
    requires ValidRun(inputs, prices)
    ensures Inv(Run(live, inputs), prices) && AtRest(Run(live, inputs))
    ensures Run(live, inputs).flags.Keys <= PlacedIds(inputs)
  {
    if inputs != [] {
      var n := |inputs| - 1;
      ValidPrefix(inputs, prices, n);
      RunInv(live, inputs[..n], prices);
      assert inputs[n] in inputs;
      ProcessKeepsInv(live, Run(live, inputs[..n]), inputs[n], prices);
      ProcessKeys(live, Run(live, inputs[..n]), inputs[n]);
    }
  }

  // ---------- the flagship theorem ----------

  /** Over every run the engine's live orders and its trades are those of the price-time book. */
  lemma {:induction false} LazyRefinesEager(live: Sessions, inputs: seq<Input>, prices: iset<int>)
    requires OrderPreserving(prices) && ValidRun(inputs, prices)
    ensures Abs(Run(live, inputs)) == EagerRun(inputs)
  {
    if inputs != [] {
      var n := |inputs| - 1;
      ValidPrefix(inputs, prices, n);
      RunInv(live, inputs[..n], prices);
      LazyRefinesEager(live, inputs[..n], prices);
      assert inputs[n] in inputs;
      ProcessRefines(live, Run(live, inputs[..n]), inputs[n], prices);
    }
  }

  /** At rest no resting bid reaches any resting ask, cancelled orders included. */
  lemma NoRestingCross(live: Sessions, inputs: seq<Input>, prices: iset<int>)
    requires OrderPreserving(prices) && ValidRun(inputs, prices)
    ensures var s := Run(live, inputs);
            forall b, a | b in s.bids && a in s.asks :: b.price < a.price
  {
    RunInv(live, inputs, prices);
    var s := Run(live, inputs);
    forall b, a | b in s.bids && a in s.asks ensures b.price < a.price {
      SortedFront(s.bids, b, prices, Buy);
      SortedFront(s.asks, a, prices, Sell);
    }
  }

  lemma SortedFront(s: seq<Order>, x: Order, prices: iset<int>, side: Side)
    requires OrderPreserving(prices) && SideInv(s, side, prices) && x in s
    ensures s != [] && if side.Buy? then x.price <= s[0].price else s[0].price <= x.price
  {
    var i :| 0 <= i < |s| && s[i] == x;
    assert s[0] in s;
    assert i > 0 ==> Rank(BySlot, s[0]) <= Rank(BySlot, s[i]);
    RanksAgree(prices, x, s[0]);
  }

  /** Updating a book at rest changes nothing. */
  lemma UpdateAtRest(live: Sessions, s: State)
    requires AtRest(s)
    ensures UpdateBook(live, s) == s
  {
    assert DrainDead(live, s, Buy) == s && DrainDead(live, s, Sell) == s;
  }
}

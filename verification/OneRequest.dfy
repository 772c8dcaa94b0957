/** The closed form of a single request on a reachable book. */
module OneRequest {
  import opened Orders
  import opened EagerBooks
  import opened LazyBooks
  import opened Refinement
  import opened Runs

  // The order a placing request enters
  function Entered(i: Input): Order {
    if i.order.request == ModifyOrder then Renewed(i.order) else i.order
  }

  // The live orders of a side that the request's own cancellation leaves
  function Facing(s: State, side: Side, i: Input): seq<Order> {
    var alive := LiveOf(s.Of(side), s.flags);
    if i.order.request == SendOrder then alive else Without(alive, i.order.delId)
  }

  lemma {:induction false} WithoutOk(s: seq<Order>, side: Side, id: int)
    requires SideOk(s, side)
    ensures SideOk(Without(s, id), side) && forall o | o in Without(s, id) :: o in s
  {
    if s != [] {
      assert s[0] in s;
      WithoutOk(s[1..], side, id);
      var tail := Without(s[1..], id);
      forall j: nat | j < |tail| ensures Rank(ByPrice, s[0]) <= Rank(ByPrice, tail[j]) {
        assert tail[j] in tail && tail[j] in s[1..];
        var i :| 0 <= i < |s[1..]| && s[1..][i] == tail[j];
        assert s[i + 1] == tail[j];
      }
    }
  }

  lemma FacingOk(live: Sessions, inputs: seq<Input>, i: Input, side: Side, prices: iset<int>)
    requires OrderPreserving(prices) && ValidRun(inputs, prices)
    ensures SideOk(Facing(Run(live, inputs), side, i), side)
  {
    RunInv(live, inputs, prices);
    var s := Run(live, inputs);
    LiveSideOk(s.Of(side), s.flags, side, prices);
    WithoutOk(LiveOf(s.Of(side), s.flags), side, i.order.delId);
  }

  // The trades and the opposite side after a placing request, by the reference book
  lemma PlacingRequest(live: Sessions, inputs: seq<Input>, i: Input, prices: iset<int>)
    requires OrderPreserving(prices) && ValidRun(inputs + [i], prices) && Places(i)
    ensures var s, s', o := Run(live, inputs), Run(live, inputs + [i]), Entered(i);
            var opposite := o.side.Other();
            var w := Sweep(o, Facing(s, opposite, i));
            && s'.trades == s.trades + w.fills && LiveOf(s'.Of(opposite), s'.flags) == w.book
            && LiveOf(s'.Of(o.side), s'.flags) ==
               (if w.rest.qty == 0 then Facing(s, o.side, i) else Insert(ByPrice, Facing(s, o.side, i), w.rest))
  {
    ValidPrefix(inputs + [i], prices, |inputs|);
    assert (inputs + [i])[..|inputs|] == inputs;
    LazyRefinesEager(live, inputs, prices);
    LazyRefinesEager(live, inputs + [i], prices);
    RunExtends(live, inputs, i);
  }

  // An order meets a side: which fills it makes and what it leaves of both sides
  ghost predicate Outcome(o: Order, own: seq<Order>, opposite: seq<Order>,
                          fills: seq<Fill>, own': seq<Order>, opposite': seq<Order>) {
    var total := TotalFilled(fills);
    && PrefixFilled(o, opposite, fills) && total == Min(o.qty, CrossingQty(o, opposite))
    && opposite' == Remainder(opposite, fills)
    && own' == if total == o.qty then own else Insert(ByPrice, own, o.(qty := o.qty - total))
  }

  lemma SweepOutcome(o: Order, own: seq<Order>, opposite: seq<Order>)
    requires o.qty >= 0 && SideOk(opposite, o.side.Other())
    ensures var w := Sweep(o, opposite);
            Outcome(o, own, opposite, w.fills, if w.rest.qty == 0 then own else Insert(ByPrice, own, w.rest), w.book)
  {
    SweepConsumesPrefix(o, opposite);
    SweepTotal(o, opposite);
  }

  /** On a reachable book, a request that places an order trades it with the live orders of the
      opposite side, best price first and oldest first within a price, each but the last whole;
      in total as much as it carries or as rests there at prices it reaches. What is left of it,
      if anything, rests among the live orders of its own side. */
  lemma PlacingClosedForm(live: Sessions, inputs: seq<Input>, i: Input, prices: iset<int>) returns (fills: seq<Fill>)
    requires OrderPreserving(prices) && ValidRun(inputs + [i], prices) && Places(i)
    ensures var s, s', o := Run(live, inputs), Run(live, inputs + [i]), Entered(i);
            && s'.trades == s.trades + fills
            && Outcome(o, Facing(s, o.side, i), Facing(s, o.side.Other(), i), fills,
                       LiveOf(s'.Of(o.side), s'.flags), LiveOf(s'.Of(o.side.Other()), s'.flags))
  {
    assert i in inputs + [i];
    ValidPrefix(inputs + [i], prices, |inputs|);
    assert (inputs + [i])[..|inputs|] == inputs;
    var s, o := Run(live, inputs), Entered(i);
    var opposite := Facing(s, o.side.Other(), i);
    FacingOk(live, inputs, i, o.side.Other(), prices);
    PlacingRequest(live, inputs, i, prices);
    SweepOutcome(o, Facing(s, o.side, i), opposite);
    fills := Sweep(o, opposite).fills;
  }

  /** A plain cancellation trades nothing and takes exactly the named order out of the live book. */
  lemma CancelClosedForm(live: Sessions, inputs: seq<Input>, i: Input, prices: iset<int>)
    requires OrderPreserving(prices) && ValidRun(inputs + [i], prices) && !Places(i)
    ensures var s, s' := Run(live, inputs), Run(live, inputs + [i]);
            && s'.trades == s.trades
            && LiveOf(s'.bids, s'.flags) == Without(LiveOf(s.bids, s.flags), i.order.delId)
            && LiveOf(s'.asks, s'.flags) == Without(LiveOf(s.asks, s.flags), i.order.delId)
  {
    ValidPrefix(inputs + [i], prices, |inputs|);
    assert (inputs + [i])[..|inputs|] == inputs;
    LazyRefinesEager(live, inputs, prices);
    LazyRefinesEager(live, inputs + [i], prices);
    RunExtends(live, inputs, i);
  }
}

/** What a cancellation guarantees from then on: no more fills, and one removal. */
module Cancellation {
  import opened Orders
  import opened EagerBooks
  import opened LazyBooks
  import opened Refinement
  import opened Runs

  // ---------- no fill after cancel ----------

  predicate Mentions(f: Fill, id: int) {
    f.bid == id || f.ask == id
  }

  function FillsOf(trades: seq<Fill>, id: int): seq<Fill> {
    if trades == [] then []
    else
      FillsOf(trades[..|trades| - 1], id) +
      if Mentions(trades[|trades| - 1], id) then [trades[|trades| - 1]] else []
  }

  // The id rests, if at all, with its flag set
  ghost predicate Doomed(s: State, id: int) {
    id in Ids(s.bids) + Ids(s.asks) ==> id in s.flags && s.flags[id]
  }

  // A step that trades nothing for a doomed id and leaves it doomed
  ghost predicate Spares(s: State, s': State, id: int) {
    Doomed(s', id) && FillsOf(s'.trades, id) == FillsOf(s.trades, id)
  }

  lemma EvictSpares(live: Sessions, s: State, side: Side, id: int, prices: iset<int>)
    requires Inv(s, prices) && Doomed(s, id) && s.Of(side) != []
    ensures Spares(s, Evict(live, s, side), id)
  {
    SideInvTail(s.Of(side), side, prices);
    assert s.Of(side)[0].id in Ids(s.Of(side));
  }

  lemma FillsAppend(trades: seq<Fill>, t: Fill, id: int)
    ensures FillsOf(trades + [t], id) == FillsOf(trades, id) + if Mentions(t, id) then [t] else []
  {
    assert (trades + [t])[..|trades|] == trades;
  }

  lemma TradeSpares(s: State, t: State, id: int, prices: iset<int>)
    requires Inv(s, prices) && Doomed(s, id) && s.bids != [] && s.asks != [] && TradeEffect(s, t)
    requires FrontAlive(s.bids, s.flags) && FrontAlive(s.asks, s.flags)
    ensures Spares(s, t, id)
  {
    var b, a, q := s.bids[0], s.asks[0], Min(s.bids[0].qty, s.asks[0].qty);
    assert b.id in Ids(s.bids) && a.id in Ids(s.asks);
    SideInvAfterFill(s.bids, Buy, prices, q);
    SideInvAfterFill(s.asks, Sell, prices, q);
    FillsAppend(s.trades, Fill(b.id, a.id, q, a.price), id);
  }

  lemma UpdateSpares(live: Sessions, s: State, id: int, prices: iset<int>)
    requires Inv(s, prices) && Doomed(s, id)
    ensures Spares(s, UpdateBook(live, s), id)
  {
    var kept := iset t: State | Inv(t, prices) && Spares(s, t, id);
    forall t: State, side: Side | t in kept && t.Of(side) != [] && Killed(t.flags, t.Of(side)[0])
      ensures Evict(live, t, side) in kept
    {
      EvictSpares(live, t, side, id, prices);
      EvictRefines(live, t, side, prices);
    }
    forall t: State | t in kept && Crossing(t) ensures Trade(live, t) in kept {
      TradeDoes(live, t);
      TradeSpares(t, Trade(live, t), id, prices);
      TradeRefines(live, t, prices);
    }
    UpdateKeeps(live, s, kept);
  }

  lemma PlaceSpares(s: State, o: Order, id: int)
    requires Doomed(s, id) && o.id != id
    ensures Spares(s, Place(s, o), id)
  {
    var k := InsertSplits(BySlot, s.Of(o.side), o);
    assert forall x | x in Insert(BySlot, s.Of(o.side), o) :: x in s.Of(o.side) || x == o;
  }

  lemma ApplySpares(live: Sessions, s: State, i: Input, id: int)
    requires Doomed(s, id) && (Places(i) ==> i.order.id != id)
    ensures Spares(s, Apply(live, s, i), id)
  {
    match i.order.request
    case SendOrder => PlaceSpares(s, i.order, id);
    case ModifyOrder => PlaceSpares(Cancel(live, s, i.order, i.hit), Renewed(i.order), id);
    case KillOrder =>
  }

  lemma ApplyDooms(live: Sessions, s: State, i: Input, prices: iset<int>)
    requires Inv(s, prices) && i.order.request != SendOrder && (Places(i) ==> i.order.id != i.order.delId)
    ensures Spares(s, Apply(live, s, i), i.order.delId)
  {
    var s' := Cancel(live, s, i.order, i.hit);
    assert Doomed(s', i.order.delId);
    if Places(i) {
      PlaceSpares(s', Renewed(i.order), i.order.delId);
    }
  }

  lemma ProcessSpares(live: Sessions, s: State, i: Input, id: int, prices: iset<int>)
    requires Inv(s, prices) && Acceptable(i.order, prices) && (Places(i) ==> i.order.id !in s.flags)
    requires if i.order.request != SendOrder && i.order.delId == id then Places(i) ==> i.order.id != id
             else Doomed(s, id) && (Places(i) ==> i.order.id != id)
    ensures Spares(s, Process(live, s, i), id)
  {
    ApplyKeepsInv(live, Count(s), i, prices);
    if i.order.request != SendOrder && i.order.delId == id {
      ApplyDooms(live, Count(s), i, prices);
    } else {
      ApplySpares(live, Count(s), i, id);
    }
    UpdateSpares(live, Apply(live, Count(s), i), id, prices);
  }

  // The last request of a run that placed an order earlier
  lemma LastRequest(inputs: seq<Input>, n: nat, id: int, prices: iset<int>)
    requires ValidRun(inputs, prices) && n < |inputs| && id in PlacedIds(inputs[..n])
    ensures var before, i := inputs[..|inputs| - 1], inputs[|inputs| - 1];
            && ValidRun(before, prices) && before[..n] == inputs[..n] && inputs == before + [i]
            && Acceptable(i.order, prices) && (Places(i) ==> i.order.id != id && i.order.id !in PlacedIds(before))
  {
    var m := |inputs| - 1;
    ValidPrefix(inputs, prices, m);
    assert inputs[m] in inputs;
    assert inputs[..m][..n] == inputs[..n];
    ValidPrefix(inputs[..m], prices, n);
  }

  /** Once a cancel or a modification naming a placed order has been processed, no fill of that
      order is reported in the rest of the run, whatever follows. */
  lemma {:induction false} NoFillAfterCancel(live: Sessions, inputs: seq<Input>, n: nat, prices: iset<int>)
    requires ValidRun(inputs, prices) && n < |inputs| && inputs[n].order.request != SendOrder
    requires inputs[n].order.delId in PlacedIds(inputs[..n])
    ensures Spares(Run(live, inputs[..n]), Run(live, inputs), inputs[n].order.delId)
    decreases |inputs|
  {
    var before, i, id := inputs[..|inputs| - 1], inputs[|inputs| - 1], inputs[n].order.delId;
    LastRequest(inputs, n, id, prices);
    RunInv(live, before, prices);
    if n < |before| {
      NoFillAfterCancel(live, before, n, prices);
      assert before[n] == inputs[n];
    } else {
      assert before == inputs[..n];
    }
    RunExtends(live, before, i);
    ProcessSpares(live, Run(live, before), i, id, prices);
  }

  // ---------- a cancelled order is removed once ----------

  // Removed orders no longer rest, and none was removed twice
  ghost predicate RemovedOnce(s: State) {
    DistinctIds(s.removals) && Ids(s.removals) !! Ids(s.bids) + Ids(s.asks)
  }

  lemma DistinctAppend(s: seq<Order>, o: Order)
    requires DistinctIds(s) && o.id !in Ids(s)
    ensures DistinctIds(s + [o]) && Ids(s + [o]) == Ids(s) + {o.id}
  {
    forall r | r in s ensures r.id != o.id && r in s + [o] {
      assert r.id in Ids(s);
    }
    assert o in s + [o];
  }

  lemma EvictOnce(live: Sessions, s: State, side: Side, prices: iset<int>)
    requires Inv(s, prices) && RemovedOnce(s) && s.Of(side) != []
    ensures RemovedOnce(Evict(live, s, side))
    ensures Ids(Evict(live, s, side).removals) == Ids(s.removals) + {s.Of(side)[0].id}
  {
    SideInvTail(s.Of(side), side, prices);
    assert s.Of(side)[0].id in Ids(s.Of(side));
    DistinctAppend(s.removals, s.Of(side)[0]);
  }

  lemma TradeOnce(s: State, t: State, prices: iset<int>)
    requires Inv(s, prices) && RemovedOnce(s) && s.bids != [] && s.asks != [] && TradeEffect(s, t)
    ensures RemovedOnce(t)
  {
    var q := Min(s.bids[0].qty, s.asks[0].qty);
    SideInvAfterFill(s.bids, Buy, prices, q);
    SideInvAfterFill(s.asks, Sell, prices, q);
  }

  lemma UpdateOnce(live: Sessions, s: State, prices: iset<int>, issued: set<int>)
    requires Inv(s, prices) && RemovedOnce(s) && Ids(s.removals) + s.flags.Keys <= issued
    ensures RemovedOnce(UpdateBook(live, s)) && Ids(UpdateBook(live, s).removals) <= issued
  {
    var kept := iset t: State | Inv(t, prices) && RemovedOnce(t) && Ids(t.removals) + t.flags.Keys <= issued;
    forall t: State, side: Side | t in kept && t.Of(side) != [] && Killed(t.flags, t.Of(side)[0])
      ensures Evict(live, t, side) in kept
    {
      EvictOnce(live, t, side, prices);
      EvictRefines(live, t, side, prices);
      assert t.Of(side)[0].id in Ids(t.Of(side));
    }
    forall t: State | t in kept && Crossing(t) ensures Trade(live, t) in kept {
      TradeDoes(live, t);
      TradeOnce(t, Trade(live, t), prices);
      TradeRefines(live, t, prices);
    }
    UpdateKeeps(live, s, kept);
  }

  lemma PlaceOnce(s: State, o: Order)
    requires RemovedOnce(s) && o.id !in Ids(s.removals)
    ensures RemovedOnce(Place(s, o))
  {
    var k := InsertSplits(BySlot, s.Of(o.side), o);
    assert forall x | x in Insert(BySlot, s.Of(o.side), o) :: x in s.Of(o.side) || x == o;
  }

  lemma ApplyOnce(live: Sessions, s: State, i: Input)
    requires RemovedOnce(s) && (Places(i) ==> i.order.id !in Ids(s.removals))
    ensures RemovedOnce(Apply(live, s, i)) && Apply(live, s, i).removals == s.removals
  {
    match i.order.request
    case SendOrder => PlaceOnce(s, i.order);
    case ModifyOrder => PlaceOnce(Cancel(live, s, i.order, i.hit), Renewed(i.order));
    case KillOrder =>
  }

  /** In every run each cancelled order is removed, and so confirmed as killed, at most once, and
      what was removed is no longer in the book. */
  lemma {:induction false} RemovedAtMostOnce(live: Sessions, inputs: seq<Input>, prices: iset<int>)
    requires ValidRun(inputs, prices)
    ensures RemovedOnce(Run(live, inputs)) && Ids(Run(live, inputs).removals) <= PlacedIds(inputs)
  {
    if inputs != [] {
      var n := |inputs| - 1;
      var s, i := Run(live, inputs[..n]), inputs[n];
      ValidPrefix(inputs, prices, n);
      RunInv(live, inputs[..n], prices);
      RemovedAtMostOnce(live, inputs[..n], prices);
      assert i in inputs;
      ApplyOnce(live, Count(s), i);
      ApplyKeys(live, Count(s), i);
      ApplyKeepsInv(live, Count(s), i, prices);
      UpdateOnce(live, Apply(live, Count(s), i), prices, PlacedIds(inputs));
    }
  }
}

/** Every order the book holds, removes or reports is one that was sent, and its session is the one
    that is told. */
module Provenance {
  import opened Config
  import opened Orders
  import opened EagerBooks
  import opened LazyBooks
  import opened Refinement
  import opened Runs
  import opened Reports

  /** The request that placed the order: all but the quantity is as it was sent, except that a
      modification's order no longer names the one it replaced. */
  ghost predicate PlacedBy(i: Input, o: Order) {
    && i.order.request != KillOrder
    && i.order.id == o.id && i.order.session == o.session && i.order.symbol == o.symbol
    && i.order.side == o.side && i.order.price == o.price && i.order.request == o.request
    && o.delId == if i.order.request == ModifyOrder then 0 else i.order.delId
  }

  ghost predicate AsSent(inputs: seq<Input>, o: Order) {
    exists i :: i in inputs && PlacedBy(i, o)
  }

  /** A fill or a confirmation goes to the session that placed its order, an error to the session of a
      request that named some order. */
  ghost predicate GoesBack(inputs: seq<Input>, sent: Sent) {
    match sent.message
    case FullFill(o, _, _) => sent.session == o.session && AsSent(inputs, o)
    case PartialFill(o, _, _, _) => sent.session == o.session && AsSent(inputs, o)
    case KillConfirm(o) => sent.session == o.session && AsSent(inputs, o)
    case Error(_) => exists i :: i in inputs && i.order.request != SendOrder && i.order.session == sent.session
  }

  ghost predicate AllAsSent(inputs: seq<Input>, s: State, log: seq<Sent>) {
    && (forall o | o in s.bids :: AsSent(inputs, o)) && (forall o | o in s.asks :: AsSent(inputs, o))
    && (forall o | o in s.removals :: AsSent(inputs, o)) && (forall sent | sent in log :: GoesBack(inputs, sent))
  }

  ghost predicate Traced(live: Sessions, inputs: seq<Input>, s: State) {
    exists log :: Logged(live, s, log) && AllAsSent(inputs, s, log)
  }

  // ---------- each change of the book ----------

  lemma EvictTraced(live: Sessions, inputs: seq<Input>, s: State, side: Side)
    requires Traced(live, inputs, s) && s.Of(side) != []
    ensures Traced(live, inputs, Evict(live, s, side))
  {
    var log :| Logged(live, s, log) && AllAsSent(inputs, s, log);
    EvictLogs(live, s, side, log);
    EvictAsSent(live, inputs, s, side, log);
  }

  lemma EvictAsSent(live: Sessions, inputs: seq<Input>, s: State, side: Side, log: seq<Sent>)
    requires AllAsSent(inputs, s, log) && s.Of(side) != []
    ensures AllAsSent(inputs, Evict(live, s, side), log + [Confirmation(s.Of(side)[0])])
  {
    var o, s' := s.Of(side)[0], Evict(live, s, side);
    assert o in s.Of(side) && s'.removals == s.removals + [o];
    assert s'.Of(side) == s.Of(side)[1..] && s'.Of(side.Other()) == s.Of(side.Other());
  }

  // Reducing the quantity leaves the order as sent
  lemma ReducedAsSent(inputs: seq<Input>, o: Order, qty: int)
    requires AsSent(inputs, o)
    ensures AsSent(inputs, o.(qty := qty))
  {
    var i :| i in inputs && PlacedBy(i, o);
    assert PlacedBy(i, o.(qty := qty));
  }

  lemma AfterFillAsSent(inputs: seq<Input>, s: seq<Order>, q: int)
    requires s != [] && forall o | o in s :: AsSent(inputs, o)
    ensures forall o | o in AfterFill(s, q) :: AsSent(inputs, o)
  {
    assert s[0] in s;
    ReducedAsSent(inputs, s[0], s[0].qty - q);
  }

  lemma NoticesGoBack(inputs: seq<Input>, s: State)
    requires s.bids != [] && s.asks != [] && AsSent(inputs, s.bids[0]) && AsSent(inputs, s.asks[0])
    ensures forall sent | sent in Notices(s) :: GoesBack(inputs, sent)
  {
    var q := Min(s.bids[0].qty, s.asks[0].qty);
    ReducedAsSent(inputs, s.bids[0], s.bids[0].qty - q);
    ReducedAsSent(inputs, s.asks[0], s.asks[0].qty - q);
  }

  lemma TradeTraced(live: Sessions, inputs: seq<Input>, s: State)
    requires Traced(live, inputs, s) && s.bids != [] && s.asks != []
    ensures Traced(live, inputs, Trade(live, s))
  {
    var log :| Logged(live, s, log) && AllAsSent(inputs, s, log);
    var q := Min(s.bids[0].qty, s.asks[0].qty);
    TradeLogs(live, s, log);
    TradeDoes(live, s);
    AfterFillAsSent(inputs, s.bids, q);
    AfterFillAsSent(inputs, s.asks, q);
    NoticesGoBack(inputs, s);
    assert AllAsSent(inputs, Trade(live, s), log + Notices(s));
  }

  lemma UpdateTraced(live: Sessions, inputs: seq<Input>, s: State)
    requires Traced(live, inputs, s)
    ensures Traced(live, inputs, UpdateBook(live, s))
  {
    var kept := iset t: State | Traced(live, inputs, t);
    forall t: State, side: Side | t in kept && t.Of(side) != [] && Killed(t.flags, t.Of(side)[0])
      ensures Evict(live, t, side) in kept
    {
      EvictTraced(live, inputs, t, side);
    }
    forall t: State | t in kept && Crossing(t) ensures Trade(live, t) in kept {
      TradeTraced(live, inputs, t);
    }
    UpdateKeeps(live, s, kept);
  }

  // ---------- requests ----------

  lemma SentGrows(inputs: seq<Input>, i: Input, s: State, log: seq<Sent>)
    requires AllAsSent(inputs, s, log)
    ensures AllAsSent(inputs + [i], s, log)
  {
    forall o | AsSent(inputs, o) ensures AsSent(inputs + [i], o) {
      var j :| j in inputs && PlacedBy(j, o);
      assert j in inputs + [i];
    }
    forall sent | sent in log ensures GoesBack(inputs + [i], sent) {
      assert GoesBack(inputs, sent);
      if sent.message.Error? {
        var j :| j in inputs && j.order.request != SendOrder && j.order.session == sent.session;
        assert j in inputs + [i];
      }
    }
  }

  lemma PlaceTraced(inputs: seq<Input>, i: Input, s: State, o: Order, log: seq<Sent>)
    requires AllAsSent(inputs, s, log) && i in inputs && PlacedBy(i, o)
    ensures AllAsSent(inputs, Place(s, o), log)
  {
    var k := InsertSplits(BySlot, s.Of(o.side), o);
  }

  lemma CancelTraced(live: Sessions, inputs: seq<Input>, i: Input, s: State, log: seq<Sent>)
    requires AllAsSent(inputs, s, log) && i in inputs && i.order.request != SendOrder
    ensures AllAsSent(inputs, Cancel(live, s, i.order, i.hit), log + CancelEntry(s, i.order, i.hit))
  {}

  lemma ApplyTraced(live: Sessions, inputs: seq<Input>, i: Input, s: State, log: seq<Sent>)
    requires AllAsSent(inputs, s, log) && i in inputs
    ensures AllAsSent(inputs, Apply(live, s, i), log + ApplyEntry(s, i))
  {
    match i.order.request
    case SendOrder =>
      assert log + [] == log;
      PlaceTraced(inputs, i, s, i.order, log);
    case ModifyOrder =>
      CancelTraced(live, inputs, i, s, log);
      PlaceTraced(inputs, i, Cancel(live, s, i.order, i.hit), Renewed(i.order), log + CancelEntry(s, i.order, i.hit));
    case KillOrder =>
      CancelTraced(live, inputs, i, s, log);
  }

  lemma ProcessTraced(live: Sessions, inputs: seq<Input>, i: Input, s: State)
    requires Traced(live, inputs, s)
    ensures Traced(live, inputs + [i], Process(live, s, i))
  {
    var log :| Logged(live, s, log) && AllAsSent(inputs, s, log);
    SentGrows(inputs, i, s, log);
    assert Logged(live, Count(s), log) && AllAsSent(inputs + [i], Count(s), log);
    ApplyLogs(live, Count(s), i, log);
    ApplyTraced(live, inputs + [i], i, Count(s), log);
    UpdateTraced(live, inputs + [i], Apply(live, Count(s), i));
  }

  lemma StepTraced(live: Sessions, before: seq<Input>, i: Input)
    requires Traced(live, before, Run(live, before))
    ensures Traced(live, before + [i], Run(live, before + [i]))
  {
    ProcessTraced(live, before, i, Run(live, before));
    RunExtends(live, before, i);
  }

  lemma NothingTraced(live: Sessions)
    ensures Traced(live, [], EMPTY_STATE)
  {
    assert Logged(live, EMPTY_STATE, []) && AllAsSent([], EMPTY_STATE, []);
  }

  lemma {:induction false} RunTraced(live: Sessions, inputs: seq<Input>)
    ensures Traced(live, inputs, Run(live, inputs))
  {
    if inputs == [] {
      NothingTraced(live);
    } else {
      var before, i := inputs[..|inputs| - 1], inputs[|inputs| - 1];
      assert before + [i] == inputs;
      RunTraced(live, before);
      StepTraced(live, before, i);
    }
  }

  /** Over every run: each resting or removed order and each order in a report has the session,
      symbol, side and price some request placed it with, and that session is the one told. */
  lemma OrdersAreAsSent(live: Sessions, inputs: seq<Input>) returns (log: seq<Sent>)
    ensures Logged(live, Run(live, inputs), log) && AllAsSent(inputs, Run(live, inputs), log)
  {
    RunTraced(live, inputs);
    log :| Logged(live, Run(live, inputs), log) && AllAsSent(inputs, Run(live, inputs), log);
  }

  // The order a message is about
  function About(m: Message): seq<Order> {
    if m.Error? then [] else [m.order]
  }

  /** With ids used once, that request is the only one with the order's id: whatever is reported of an
      order goes to the session that placed it. */
  lemma OwnerIsTold(live: Sessions, inputs: seq<Input>, prices: iset<int>) returns (log: seq<Sent>)
    requires ValidRun(inputs, prices)
    ensures Logged(live, Run(live, inputs), log)
    ensures forall sent, o, i |
              sent in log && o in About(sent.message) && i in inputs && Places(i) && i.order.id == o.id ::
              PlacedBy(i, o) && sent.session == i.order.session
    ensures forall o, i | o in Run(live, inputs).Resting() && i in inputs && Places(i) && i.order.id == o.id ::
              PlacedBy(i, o)
  {
    log := OrdersAreAsSent(live, inputs);
    forall sent, o, i | sent in log && o in About(sent.message) && i in inputs && Places(i) && i.order.id == o.id
      ensures PlacedBy(i, o) && sent.session == i.order.session
    {
      assert GoesBack(inputs, sent) && AsSent(inputs, o);
      OnlyOne(inputs, o, i, prices);
    }
    forall o, i | o in Run(live, inputs).Resting() && i in inputs && Places(i) && i.order.id == o.id
      ensures PlacedBy(i, o)
    {
      assert AsSent(inputs, o);
      OnlyOne(inputs, o, i, prices);
    }
  }

  lemma OnlyOne(inputs: seq<Input>, o: Order, i: Input, prices: iset<int>)
    requires ValidRun(inputs, prices) && AsSent(inputs, o) && i in inputs && Places(i) && i.order.id == o.id
    ensures PlacedBy(i, o)
  {
    var j :| j in inputs && PlacedBy(j, o);
    var a: nat :| a < |inputs| && inputs[a] == i;
    var b: nat :| b < |inputs| && inputs[b] == j;
    assert Places(inputs[a]) && Places(inputs[b]) && inputs[a].order.id == inputs[b].order.id;
    assert a == b;
  }
}

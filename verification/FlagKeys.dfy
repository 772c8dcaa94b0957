/** Which ids the flag table holds, and so how a cancellation is answered, whatever the sessions do. */
module FlagKeys {
  import opened Config
  import opened Orders
  import opened EagerBooks
  import opened LazyBooks
  import opened Refinement
  import opened Runs
  import opened Reports
  import KillFlags

  /** The orders whose last fill could not be delivered: their flags were never dropped. */
  ghost function Untold(live: Sessions, log: seq<Sent>): set<int> {
    set n: nat | n < |log| && n !in live && log[n].message.FullFill? :: log[n].message.order.id
  }

  /** The table's keys are the resting ids and those of filled orders that were never told. */
  ghost predicate KeysAre(live: Sessions, s: State, log: seq<Sent>) {
    && s.flags.Keys == Ids(s.bids) + Ids(s.asks) + Untold(live, log)
    && Untold(live, log) !! Ids(s.bids) + Ids(s.asks)
  }

  ghost predicate Keyed(live: Sessions, s: State, prices: iset<int>) {
    Inv(s, prices) && exists log :: Logged(live, s, log) && KeysAre(live, s, log)
  }

  function FilledId(sent: Sent): set<int> {
    if sent.message.FullFill? then {sent.message.order.id} else {}
  }

  lemma UntoldMore(live: Sessions, log: seq<Sent>, sent: Sent)
    ensures Untold(live, log + [sent]) == Untold(live, log) + if |log| in live then {} else FilledId(sent)
  {
    var log' := log + [sent];
    forall id | id in Untold(live, log')
      ensures id in Untold(live, log) + if |log| in live then {} else FilledId(sent)
    {
      var n: nat :| n < |log'| && n !in live && log'[n].message.FullFill? && log'[n].message.order.id == id;
      assert n < |log| ==> log[n] == log'[n];
    }
    forall id | id in Untold(live, log) ensures id in Untold(live, log') {
      var n: nat :| n < |log| && n !in live && log[n].message.FullFill? && log[n].message.order.id == id;
      assert log'[n] == log[n];
    }
    if |log| !in live && sent.message.FullFill? {
      assert log'[|log|] == sent;
    }
  }

  lemma EvictKeys(live: Sessions, s: State, side: Side, log: seq<Sent>, prices: iset<int>)
    requires Inv(s, prices) && KeysAre(live, s, log) && s.Of(side) != []
    ensures KeysAre(live, Evict(live, s, side), log + [Confirmation(s.Of(side)[0])])
  {
    SideInvTail(s.Of(side), side, prices);
    assert s.Of(side)[0].id in Ids(s.Of(side));
    UntoldMore(live, log, Confirmation(s.Of(side)[0]));
  }

  function When(c: bool, id: int): set<int> {
    if c then {id} else {}
  }

  lemma TradeDrops(live: Sessions, s: State)
    requires s.bids != [] && s.asks != []
    ensures var b, a, q, n := s.bids[0], s.asks[0], Min(s.bids[0].qty, s.asks[0].qty), s.lookups;
            Trade(live, s).flags.Keys
              == s.flags.Keys - When(q == b.qty && n in live, b.id) - When(q == a.qty && n + 1 in live, a.id)
  {}

  lemma NoticesMiss(live: Sessions, s: State, log: seq<Sent>)
    requires s.bids != [] && s.asks != [] && |log| == s.lookups
    ensures var b, a, q, n := s.bids[0], s.asks[0], Min(s.bids[0].qty, s.asks[0].qty), s.lookups;
            Untold(live, log + Notices(s))
              == Untold(live, log) + When(q == b.qty && n !in live, b.id) + When(q == a.qty && n + 1 !in live, a.id)
  {
    var ns := Notices(s);
    assert log + ns == log + [ns[0]] + [ns[1]];
    UntoldMore(live, log, ns[0]);
    UntoldMore(live, log + [ns[0]], ns[1]);
  }

  // A filled id moves from the resting ones out of the table, or to those never told
  lemma FilledIds(bids: set<int>, asks: set<int>, untold: set<int>, b: int, a: int,
                  bFilled: bool, aFilled: bool, bTold: bool, aTold: bool)
    requires b in bids && a in asks && bids !! asks && untold !! bids + asks
    ensures var bids', asks' := bids - When(bFilled, b), asks - When(aFilled, a);
            var untold' := untold + When(bFilled && !bTold, b) + When(aFilled && !aTold, a);
            && (bids + asks + untold) - When(bFilled && bTold, b) - When(aFilled && aTold, a) == bids' + asks' + untold'
            && untold' !! bids' + asks'
  {}

  lemma TradeKeys(live: Sessions, s: State, log: seq<Sent>, prices: iset<int>)
    requires Inv(s, prices) && KeysAre(live, s, log) && s.bids != [] && s.asks != [] && |log| == s.lookups
    ensures KeysAre(live, Trade(live, s), log + Notices(s))
  {
    var b, a, q, n := s.bids[0], s.asks[0], Min(s.bids[0].qty, s.asks[0].qty), s.lookups;
    assert b.id in Ids(s.bids) && a.id in Ids(s.asks);
    FilledIds(Ids(s.bids), Ids(s.asks), Untold(live, log), b.id, a.id, q == b.qty, q == a.qty, n in live,
        n + 1 in live);
    RestingIds(live, s, prices);
    TradeDrops(live, s);
    NoticesMiss(live, s, log);
  }

  lemma RestingIds(live: Sessions, s: State, prices: iset<int>)
    requires Inv(s, prices) && s.bids != [] && s.asks != []
    ensures var b, a, q, t := s.bids[0], s.asks[0], Min(s.bids[0].qty, s.asks[0].qty), Trade(live, s);
            Ids(t.bids) == Ids(s.bids) - When(q == b.qty, b.id) && Ids(t.asks) == Ids(s.asks) - When(q == a.qty, a.id)
  {
    var q := Min(s.bids[0].qty, s.asks[0].qty);
    SideInvAfterFill(s.bids, Buy, prices, q);
    SideInvAfterFill(s.asks, Sell, prices, q);
    TradeDoes(live, s);
  }

  lemma EvictKeyed(live: Sessions, s: State, side: Side, prices: iset<int>)
    requires Keyed(live, s, prices) && s.Of(side) != [] && Killed(s.flags, s.Of(side)[0])
    ensures Keyed(live, Evict(live, s, side), prices)
  {
    var log :| Logged(live, s, log) && KeysAre(live, s, log);
    EvictLogs(live, s, side, log);
    EvictKeys(live, s, side, log, prices);
    EvictRefines(live, s, side, prices);
  }

  lemma TradeKeyed(live: Sessions, s: State, prices: iset<int>)
    requires Keyed(live, s, prices) && Crossing(s)
    ensures Keyed(live, Trade(live, s), prices)
  {
    var log :| Logged(live, s, log) && KeysAre(live, s, log);
    TradeLogs(live, s, log);
    TradeKeys(live, s, log, prices);
    TradeRefines(live, s, prices);
  }

  lemma UpdateKeyed(live: Sessions, s: State, prices: iset<int>)
    requires Keyed(live, s, prices)
    ensures Keyed(live, UpdateBook(live, s), prices)
  {
    var kept := iset t: State | Keyed(live, t, prices);
    forall t: State, side: Side | t in kept && t.Of(side) != [] && Killed(t.flags, t.Of(side)[0])
      ensures Evict(live, t, side) in kept
    {
      EvictKeyed(live, t, side, prices);
    }
    forall t: State | t in kept && Crossing(t) ensures Trade(live, t) in kept {
      TradeKeyed(live, t, prices);
    }
    UpdateKeeps(live, s, kept);
  }

  lemma PlaceKeys(live: Sessions, s: State, o: Order, log: seq<Sent>)
    requires KeysAre(live, s, log) && o.id !in s.flags
    ensures KeysAre(live, Place(s, o), log)
  {
    var t := s.Of(o.side);
    var k := InsertSplits(BySlot, t, o);
    assert forall x :: x in Insert(BySlot, t, o) <==> x in t || x == o by {
      assert t == t[..k] + t[k..];
    }
    assert Ids(Insert(BySlot, t, o)) == Ids(t) + {o.id};
  }

  lemma CancelKeys(live: Sessions, s: State, o: Order, hit: bool, log: seq<Sent>)
    requires KeysAre(live, s, log)
    ensures KeysAre(live, Cancel(live, s, o, hit), log + CancelEntry(s, o, hit))
  {
    if Known(s.flags, o.delId, hit) {
      assert log + [] == log;
    } else {
      UntoldMore(live, log, Sent(o.session, Error(INVALID_ORDER_ID)));
    }
  }

  lemma ApplyKeysAre(live: Sessions, s: State, i: Input, log: seq<Sent>)
    requires KeysAre(live, s, log) && (Places(i) ==> i.order.id !in s.flags)
    ensures KeysAre(live, Apply(live, s, i), log + ApplyEntry(s, i))
  {
    match i.order.request
    case SendOrder =>
      assert log + [] == log;
      PlaceKeys(live, s, i.order, log);
    case ModifyOrder =>
      CancelKeys(live, s, i.order, i.hit, log);
      PlaceKeys(live, Cancel(live, s, i.order, i.hit), Renewed(i.order), log + CancelEntry(s, i.order, i.hit));
    case KillOrder =>
      CancelKeys(live, s, i.order, i.hit, log);
  }

  lemma ProcessKeyed(live: Sessions, s: State, i: Input, prices: iset<int>)
    requires Keyed(live, s, prices) && Acceptable(i.order, prices) && (Places(i) ==> i.order.id !in s.flags)
    ensures Keyed(live, Process(live, s, i), prices)
  {
    var log :| Logged(live, s, log) && KeysAre(live, s, log);
    assert Logged(live, Count(s), log) && KeysAre(live, Count(s), log);
    ApplyLogs(live, Count(s), i, log);
    ApplyKeysAre(live, Count(s), i, log);
    ApplyKeepsInv(live, Count(s), i, prices);
    UpdateKeyed(live, Apply(live, Count(s), i), prices);
  }

  lemma {:induction false} RunKeyed(live: Sessions, inputs: seq<Input>, prices: iset<int>)
    requires ValidRun(inputs, prices)
    ensures Keyed(live, Run(live, inputs), prices)
  {
    if inputs == [] {
      assert Logged(live, EMPTY_STATE, []) && KeysAre(live, EMPTY_STATE, []);
    } else {
      var n := |inputs| - 1;
      ValidPrefix(inputs, prices, n);
      RunInv(live, inputs[..n], prices);
      RunKeyed(live, inputs[..n], prices);
      assert inputs[n] in inputs;
      ProcessKeyed(live, Run(live, inputs[..n]), inputs[n], prices);
    }
  }

  /** After any run the table holds a flag for exactly the resting orders and for those filled orders
      whose session was not connected when the fill was to be reported. */
  lemma TableKeys(live: Sessions, inputs: seq<Input>, prices: iset<int>) returns (log: seq<Sent>)
    requires ValidRun(inputs, prices)
    ensures Logged(live, Run(live, inputs), log) && KeysAre(live, Run(live, inputs), log)
  {
    RunKeyed(live, inputs, prices);
    log :| Logged(live, Run(live, inputs), log) && KeysAre(live, Run(live, inputs), log);
  }

  /** If every session stays connected, for exactly the resting orders. */
  lemma FlagsOfResting(live: Sessions, inputs: seq<Input>, prices: iset<int>)
    requires ValidRun(inputs, prices) && forall n: nat :: n in live
    ensures Run(live, inputs).flags.Keys == Ids(Run(live, inputs).bids) + Ids(Run(live, inputs).asks)
  {
    var log := TableKeys(live, inputs, prices);
  }

  /** After any run a cancellation raises the flag of the order it names if that order rests, cancelled
      already or not, or was filled without being told; otherwise, and so always when it names an
      order never placed, it is answered with an error. */
  lemma CancelAnswered(live: Sessions, inputs: seq<Input>, o: Order, hit: bool, prices: iset<int>)
      returns (log: seq<Sent>)
    requires ValidRun(inputs, prices) && !KillFlags.Reserved(o.delId)
    ensures var s := Run(live, inputs);
            && Logged(live, s, log)
            && Cancel(live, s, o, hit) ==
               (if o.delId in Ids(s.bids) + Ids(s.asks) + Untold(live, log) then WithFlags(s, s.flags[o.delId := true])
                else Tell(live, s, o.session, Error(INVALID_ORDER_ID)))
            && Ids(s.bids) + Ids(s.asks) + Untold(live, log) <= PlacedIds(inputs)
  {
    log := TableKeys(live, inputs, prices);
    RunInv(live, inputs, prices);
  }
}

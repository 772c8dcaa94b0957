/** What sessions are told: every registry lookup is one entry of a log, the outbox is the log's
    entries for connected sessions, and the log is the trades made and the orders removed. */
module Reports {
  import opened Config
  import opened Orders
  import opened EagerBooks
  import opened LazyBooks
  import opened Refinement
  import opened Runs

  /** A fill as one of its two sides is told of it. */
  datatype Report = Report(id: int, qty: int, price: int)

  function ReportOf(m: Message): seq<Report> {
    match m
    case FullFill(o, q, p) => [Report(o.id, q, p)]
    case PartialFill(o, q, _, p) => [Report(o.id, q, p)]
    case KillConfirm(_) => []
    case Error(_) => []
  }

  function ReportsIn(log: seq<Sent>): seq<Report> {
    if log == [] then [] else ReportsIn(log[..|log| - 1]) + ReportOf(log[|log| - 1].message)
  }

  function ConfirmOf(m: Message): seq<Order> {
    if m.KillConfirm? then [m.order] else []
  }

  function ConfirmsIn(log: seq<Sent>): seq<Order> {
    if log == [] then [] else ConfirmsIn(log[..|log| - 1]) + ConfirmOf(log[|log| - 1].message)
  }

  // Both sides of every trade, the bid first
  function Expected(trades: seq<Fill>): seq<Report> {
    if trades == [] then []
    else
      var f := trades[|trades| - 1];
      Expected(trades[..|trades| - 1]) + [Report(f.bid, f.qty, f.price), Report(f.ask, f.qty, f.price)]
  }

  /** The entries whose lookup found its session connected. */
  ghost function Delivered(live: Sessions, log: seq<Sent>): seq<Sent> {
    if log == [] then []
    else
      var n := |log| - 1;
      Delivered(live, log[..n]) + if n in live then [log[n]] else []
  }

  /** A message goes to its order's session and says the truth about the order: what remains is what
      the order still holds, and a fill is full exactly when nothing remains. */
  predicate Truthful(sent: Sent) {
    match sent.message
    case FullFill(o, _, _) => o.qty == 0 && sent.session == o.session
    case PartialFill(o, _, remaining, _) => remaining == o.qty != 0 && sent.session == o.session
    case KillConfirm(o) => sent.session == o.session
    case Error(code) => code == INVALID_ORDER_ID
  }

  /** The log of a state: one entry a lookup, and of those exactly the ones to connected sessions were
      sent; its fills are the trades, its confirmations the removals, in order. */
  ghost predicate Logged(live: Sessions, s: State, log: seq<Sent>) {
    && |log| == s.lookups && s.outbox == Delivered(live, log)
    && ReportsIn(log) == Expected(s.trades) && ConfirmsIn(log) == s.removals
    && forall sent | sent in log :: Truthful(sent)
  }

  ghost predicate Reported(live: Sessions, s: State) {
    exists log :: Logged(live, s, log)
  }

  // ---------- one lookup ----------

  lemma OneMoreEntry(live: Sessions, log: seq<Sent>, sent: Sent)
    ensures Delivered(live, log + [sent]) == Delivered(live, log) + if |log| in live then [sent] else []
    ensures ReportsIn(log + [sent]) == ReportsIn(log) + ReportOf(sent.message)
    ensures ConfirmsIn(log + [sent]) == ConfirmsIn(log) + ConfirmOf(sent.message)
  {
    assert (log + [sent])[..|log|] == log;
  }

  lemma TellLogs(live: Sessions, s: State, log: seq<Sent>, session: int, m: Message)
    requires |log| == s.lookups && s.outbox == Delivered(live, log)
    ensures var s', log' := Tell(live, s, session, m), log + [Sent(session, m)];
            |log'| == s'.lookups && s'.outbox == Delivered(live, log')
  {
    OneMoreEntry(live, log, Sent(session, m));
    assert s.outbox + [] == s.outbox;
  }

  // ---------- each change of the book ----------

  function Confirmation(o: Order): Sent {
    Sent(o.session, KillConfirm(o))
  }

  lemma EvictLogs(live: Sessions, s: State, side: Side, log: seq<Sent>)
    requires Logged(live, s, log) && s.Of(side) != []
    ensures Logged(live, Evict(live, s, side), log + [Confirmation(s.Of(side)[0])])
  {
    var o, s' := s.Of(side)[0], Evict(live, s, side);
    TellLogs(live, s, log, o.session, KillConfirm(o));
    OneMoreEntry(live, log, Confirmation(o));
    assert ReportsIn(log) + [] == ReportsIn(log);
    assert s'.trades == s.trades && s'.removals == s.removals + [o];
  }

  function Notice(o: Order, q: int, p: int): Sent {
    Sent(o.session, if o.qty == 0 then FullFill(o, q, p) else PartialFill(o, q, o.qty, p))
  }

  /** The entries of one trade: the bid is told before the ask. */
  function Notices(s: State): seq<Sent>
    requires s.bids != [] && s.asks != []
  {
    var b, a := s.bids[0], s.asks[0];
    var q := Min(b.qty, a.qty);
    [Notice(b.(qty := b.qty - q), q, a.price), Notice(a.(qty := a.qty - q), q, a.price)]
  }

  lemma NotifyLogs(live: Sessions, s: State, log: seq<Sent>, o: Order, q: int, p: int)
    requires |log| == s.lookups && s.outbox == Delivered(live, log)
    ensures var s', log' := NotifyFill(live, s, o, q, p), log + [Notice(o, q, p)];
            |log'| == s'.lookups && s'.outbox == Delivered(live, log')
  {
    TellLogs(live, s, log, o.session, Notice(o, q, p).message);
  }

  lemma TradeDelivers(live: Sessions, s: State, log: seq<Sent>)
    requires s.bids != [] && s.asks != [] && |log| == s.lookups && s.outbox == Delivered(live, log)
    ensures var s', log' := Trade(live, s), log + Notices(s);
            |log'| == s'.lookups && s'.outbox == Delivered(live, log')
  {
    var q, p := Min(s.bids[0].qty, s.asks[0].qty), s.asks[0].price;
    var b, a := s.bids[0].(qty := s.bids[0].qty - q), s.asks[0].(qty := s.asks[0].qty - q);
    NotifyLogs(live, s, log, b, q, p);
    NotifyLogs(live, NotifyFill(live, s, b, q, p), log + [Notice(b, q, p)], a, q, p);
    assert log + [Notice(b, q, p)] + [Notice(a, q, p)] == log + Notices(s);
  }

  lemma NoticesReport(live: Sessions, s: State, log: seq<Sent>)
    requires s.bids != [] && s.asks != []
    ensures var b, a, q := s.bids[0], s.asks[0], Min(s.bids[0].qty, s.asks[0].qty);
            && ReportsIn(log + Notices(s)) == ReportsIn(log) + [Report(b.id, q, a.price), Report(a.id, q, a.price)]
            && ConfirmsIn(log + Notices(s)) == ConfirmsIn(log) && forall sent | sent in Notices(s) :: Truthful(sent)
  {
    var ns := Notices(s);
    assert log + ns == log + [ns[0]] + [ns[1]];
    OneMoreEntry(live, log, ns[0]);
    OneMoreEntry(live, log + [ns[0]], ns[1]);
    assert ConfirmsIn(log) + [] + [] == ConfirmsIn(log);
  }

  /** One trade is logged to both its sides. */
  lemma TradeLogs(live: Sessions, s: State, log: seq<Sent>)
    requires Logged(live, s, log) && s.bids != [] && s.asks != []
    ensures Logged(live, Trade(live, s), log + Notices(s))
  {
    var f := Fill(s.bids[0].id, s.asks[0].id, Min(s.bids[0].qty, s.asks[0].qty), s.asks[0].price);
    TradeDelivers(live, s, log);
    NoticesReport(live, s, log);
    TradeDoes(live, s);
    assert (s.trades + [f])[..|s.trades|] == s.trades;
  }

  function CancelEntry(s: State, o: Order, hit: bool): seq<Sent> {
    if Known(s.flags, o.delId, hit) then [] else [Sent(o.session, Error(INVALID_ORDER_ID))]
  }

  lemma CancelLogs(live: Sessions, s: State, o: Order, hit: bool, log: seq<Sent>)
    requires Logged(live, s, log)
    ensures Logged(live, Cancel(live, s, o, hit), log + CancelEntry(s, o, hit))
  {
    var sent := Sent(o.session, Error(INVALID_ORDER_ID));
    if Known(s.flags, o.delId, hit) {
      assert log + [] == log;
    } else {
      TellLogs(live, s, log, o.session, sent.message);
      OneMoreEntry(live, log, sent);
      assert ReportsIn(log) + [] == ReportsIn(log) && ConfirmsIn(log) + [] == ConfirmsIn(log);
    }
  }

  lemma PlaceLogs(live: Sessions, s: State, o: Order, log: seq<Sent>)
    requires Logged(live, s, log)
    ensures Logged(live, Place(s, o), log)
  {}

  /** What a request itself adds to the log: an error when it names an order without a flag. */
  function ApplyEntry(s: State, i: Input): seq<Sent> {
    if i.order.request == SendOrder then [] else CancelEntry(s, i.order, i.hit)
  }

  lemma ApplyLogs(live: Sessions, s: State, i: Input, log: seq<Sent>)
    requires Logged(live, s, log)
    ensures Logged(live, Apply(live, s, i), log + ApplyEntry(s, i))
  {
    match i.order.request
    case SendOrder =>
      assert log + [] == log;
      PlaceLogs(live, s, i.order, log);
    case ModifyOrder =>
      CancelLogs(live, s, i.order, i.hit, log);
      PlaceLogs(live, Cancel(live, s, i.order, i.hit), Renewed(i.order), log + CancelEntry(s, i.order, i.hit));
    case KillOrder =>
      CancelLogs(live, s, i.order, i.hit, log);
  }

  // ---------- whole runs ----------

  ghost predicate NoErrors(entries: seq<Sent>) {
    forall sent | sent in entries :: !sent.message.Error?
  }

  // The log goes on without errors
  ghost predicate Extended(live: Sessions, s: State, log: seq<Sent>) {
    exists more :: Logged(live, s, log + more) && NoErrors(more)
  }

  lemma Extends(live: Sessions, s: State, log: seq<Sent>, more: seq<Sent>, entries: seq<Sent>)
    requires Logged(live, s, log + more + entries) && NoErrors(more) && NoErrors(entries)
    ensures Extended(live, s, log)
  {
    assert log + more + entries == log + (more + entries);
    assert NoErrors(more + entries);
  }

  /** Draining and matching only add fills and confirmations to the log. */
  lemma UpdateExtends(live: Sessions, s: State, log: seq<Sent>)
    requires Logged(live, s, log)
    ensures Extended(live, UpdateBook(live, s), log)
  {
    var kept := iset t: State | Extended(live, t, log);
    assert log + [] == log && NoErrors([]);
    forall t: State, side: Side | t in kept && t.Of(side) != [] && Killed(t.flags, t.Of(side)[0])
      ensures Evict(live, t, side) in kept
    {
      var more :| Logged(live, t, log + more) && NoErrors(more);
      EvictLogs(live, t, side, log + more);
      Extends(live, Evict(live, t, side), log, more, [Confirmation(t.Of(side)[0])]);
    }
    forall t: State | t in kept && Crossing(t) ensures Trade(live, t) in kept {
      var more :| Logged(live, t, log + more) && NoErrors(more);
      TradeLogs(live, t, log + more);
      Extends(live, Trade(live, t), log, more, Notices(t));
    }
    UpdateKeeps(live, s, kept);
  }

  /** One request: first the error, if it names an order without a flag, then what its trades and
      removals add. */
  lemma ProcessExtends(live: Sessions, s: State, i: Input, log: seq<Sent>)
    requires Logged(live, s, log)
    ensures Extended(live, Process(live, s, i), log + ApplyEntry(s, i))
  {
    assert Logged(live, Count(s), log);
    ApplyLogs(live, Count(s), i, log);
    UpdateExtends(live, Apply(live, Count(s), i), log + ApplyEntry(s, i));
  }

  lemma {:induction false} RunReported(live: Sessions, inputs: seq<Input>)
    ensures Reported(live, Run(live, inputs))
  {
    if inputs == [] {
      assert Logged(live, EMPTY_STATE, []);
    } else {
      var n := |inputs| - 1;
      RunReported(live, inputs[..n]);
      var log :| Logged(live, Run(live, inputs[..n]), log);
      ProcessExtends(live, Run(live, inputs[..n]), inputs[n], log);
    }
  }

  /** Over every run, whatever the sessions do, the outbox is a log of all its trades and removals
      without the entries whose session was not connected. */
  lemma TradesAreReported(live: Sessions, inputs: seq<Input>) returns (log: seq<Sent>)
    ensures Logged(live, Run(live, inputs), log)
  {
    RunReported(live, inputs);
    log :| Logged(live, Run(live, inputs), log);
  }
}

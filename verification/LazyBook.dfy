/** What the matching engine computes, request by request, on values: the resting orders of each
    side in priority order, cancelled ones included, the cancel flags, and everything reported.
    Cancellation only sets a flag; a flagged order leaves when it reaches the front. */
module LazyBooks {
  import opened Config
  import opened Orders
  import opened EagerBooks
  import KillFlags

  datatype State = State(
    bids: seq<Order>, asks: seq<Order>, flags: map<int, bool>,
    trades: seq<Fill>, removals: seq<Order>, outbox: seq<Sent>, lookups: nat, seqLen: nat)
  {
    function Of(side: Side): seq<Order> {
      if side.Buy? then bids else asks
    }

    function Put(side: Side, orders: seq<Order>): State {
      if side.Buy? then this.(bids := orders) else this.(asks := orders)
    }

    function Resting(): seq<Order> {
      bids + asks
    }
  }

  function WithFlags(s: State, flags: map<int, bool>): State {
    s.(flags := flags)
  }

  const EMPTY_STATE := State([], [], map[], [], [], [], 0, 0)

  /** The session registry, as the numbers of those lookups that find their session connected. */
  type Sessions = iset<nat>

  /** A queued request. `hit` only matters when a cancel names the reserved key -2: it says
      whether the probe meets a tombstone. */
  datatype Input = Input(order: Order, hit: bool)

  // One registry lookup, and the message if the session is there
  function Tell(live: Sessions, s: State, session: int, m: Message): State {
    State(s.bids, s.asks, s.flags, s.trades, s.removals,
          if s.lookups in live then s.outbox + [Sent(session, m)] else s.outbox, s.lookups + 1, s.seqLen)
  }

  predicate Killed(flags: map<int, bool>, o: Order) {
    o.id in flags && flags[o.id]
  }

  function Place(s: State, o: Order): State {
    WithFlags(s, s.flags[o.id := false]).Put(o.side, Insert(BySlot, s.Of(o.side), o))
  }

  /** The orders of a side that have not been cancelled. */
  function LiveOf(s: seq<Order>, flags: map<int, bool>): seq<Order> {
    if s == [] then []
    else if Killed(flags, s[0]) then LiveOf(s[1..], flags)
    else [s[0]] + LiveOf(s[1..], flags)
  }

  predicate Known(flags: map<int, bool>, id: int, hit: bool) {
    id == KillFlags.EMPTY_KEY || (if id == KillFlags.TOMBSTONE_KEY then hit else id in flags)
  }

  function Cancel(live: Sessions, s: State, o: Order, hit: bool): State {
    if !Known(s.flags, o.delId, hit) then Tell(live, s, o.session, Error(INVALID_ORDER_ID))
    else if KillFlags.Reserved(o.delId) then s
    else WithFlags(s, s.flags[o.delId := true])
  }

  function Replace(live: Sessions, s: State, o: Order, hit: bool): State {
    Place(Cancel(live, s, o, hit), Renewed(o))
  }

  // Reports a fill; a filled order's flag goes only if its session is connected
  function NotifyFill(live: Sessions, s: State, o: Order, fillQty: int, fillPrice: int): State {
    var m := if o.qty == 0 then FullFill(o, fillQty, fillPrice) else PartialFill(o, fillQty, o.qty, fillPrice);
    var s' := Tell(live, s, o.session, m);
    if s.lookups in live && o.qty == 0 then WithFlags(s', s.flags - {o.id}) else s'
  }

  function Recorded(s: State, o: Order): State {
    s.(removals := s.removals + [o])
  }

  // Removes the cancelled order at the front of a side
  function Evict(live: Sessions, s: State, side: Side): State
    requires s.Of(side) != []
  {
    var o := s.Of(side)[0];
    var s' := Tell(live, s, o.session, KillConfirm(o));
    Recorded(WithFlags(s', s.flags - {o.id}).Put(side, s.Of(side)[1..]), o)
  }

  function DrainDead(live: Sessions, s: State, side: Side): State
    decreases |s.Of(side)|
  {
    if s.Of(side) == [] || !Killed(s.flags, s.Of(side)[0]) then s
    else DrainDead(live, Evict(live, s, side), side)
  }

  // One trade between the two front orders
  function Trade(live: Sessions, s: State): State
    requires s.bids != [] && s.asks != []
  {
    var b, a := s.bids[0], s.asks[0];
    var q := Min(b.qty, a.qty);
    var s1 := NotifyFill(live, s, b.(qty := b.qty - q), q, a.price);
    var s2 := NotifyFill(live, s1, a.(qty := a.qty - q), q, a.price);
    Traded(s2.Put(Buy, AfterFill(s.bids, q)).Put(Sell, AfterFill(s.asks, q)), Fill(b.id, a.id, q, a.price))
  }

  function Traded(s: State, f: Fill): State {
    s.(trades := s.trades + [f])
  }

  function DrainBoth(live: Sessions, s: State): (s': State)
    ensures |s'.bids| <= |s.bids| && |s'.asks| <= |s.asks|
  {
    DrainDeadShrinks(live, s, Buy);
    DrainDeadShrinks(live, DrainDead(live, s, Buy), Sell);
    DrainDead(live, DrainDead(live, s, Buy), Sell)
  }

  lemma {:induction false} DrainDeadShrinks(live: Sessions, s: State, side: Side)
    ensures |DrainDead(live, s, side).Of(side)| <= |s.Of(side)|
    ensures DrainDead(live, s, side).Of(side.Other()) == s.Of(side.Other())
    ensures DrainDead(live, s, side).trades == s.trades && DrainDead(live, s, side).seqLen == s.seqLen
    decreases |s.Of(side)|
  {
    if s.Of(side) != [] && Killed(s.flags, s.Of(side)[0]) {
      DrainDeadShrinks(live, Evict(live, s, side), side);
    }
  }

  function UpdateBook(live: Sessions, s: State): State
    decreases |s.bids| + |s.asks|
  {
    var d := DrainBoth(live, s);
    if d.bids == [] || d.asks == [] || d.bids[0].price < d.asks[0].price then d
    else UpdateBook(live, Trade(live, d))
  }

  // Two live front orders that trade
  ghost predicate Crossing(s: State) {
    && s.bids != [] && s.asks != [] && s.bids[0].price >= s.asks[0].price
    && !Killed(s.flags, s.bids[0]) && !Killed(s.flags, s.asks[0])
  }

  ghost predicate KeptByEvict(live: Sessions, kept: iset<State>) {
    forall s: State, side: Side | s in kept && s.Of(side) != [] && Killed(s.flags, s.Of(side)[0]) ::
      Evict(live, s, side) in kept
  }

  ghost predicate KeptByTrade(live: Sessions, kept: iset<State>) {
    forall s: State | s in kept && Crossing(s) :: Trade(live, s) in kept
  }

  lemma {:induction false} DrainKeeps(live: Sessions, s: State, side: Side, kept: iset<State>)
    requires s in kept && KeptByEvict(live, kept)
    ensures var s' := DrainDead(live, s, side);
            && s' in kept && (s'.Of(side) != [] ==> !Killed(s'.flags, s'.Of(side)[0]))
            && s'.Of(side.Other()) == s.Of(side.Other())
            && (forall o :: Killed(s'.flags, o) ==> Killed(s.flags, o))
    decreases |s.Of(side)|
  {
    if s.Of(side) != [] && Killed(s.flags, s.Of(side)[0]) {
      DrainKeeps(live, Evict(live, s, side), side, kept);
    }
  }

  /** What every removal of a cancelled front and every trade of live, crossing fronts keeps,
      updating the book keeps. */
  lemma {:induction false} UpdateKeeps(live: Sessions, s: State, kept: iset<State>)
    requires s in kept && KeptByEvict(live, kept) && KeptByTrade(live, kept)
    ensures UpdateBook(live, s) in kept
    decreases |s.bids| + |s.asks|
  {
    DrainKeeps(live, s, Buy, kept);
    DrainKeeps(live, DrainDead(live, s, Buy), Sell, kept);
    var d := DrainBoth(live, s);
    if d.bids == [] || d.asks == [] || d.bids[0].price < d.asks[0].price {
    } else {
      UpdateKeeps(live, Trade(live, d), kept);
    }
  }

  function Apply(live: Sessions, s: State, i: Input): State {
    match i.order.request
    case SendOrder => Place(s, i.order)
    case ModifyOrder => Replace(live, s, i.order, i.hit)
    case KillOrder => Cancel(live, s, i.order, i.hit)
  }

  // The book's sequence number counts its requests
  function Count(s: State): State {
    s.(seqLen := s.seqLen + 1)
  }

  /** One request, as `process_one` carries it out on a book. */
  function Process(live: Sessions, s: State, i: Input): State {
    UpdateBook(live, Apply(live, Count(s), i))
  }

  /** A whole run from the empty book. */
  function Run(live: Sessions, inputs: seq<Input>): State {
    if inputs == [] then EMPTY_STATE
    else Process(live, Run(live, inputs[..|inputs| - 1]), inputs[|inputs| - 1])
  }
}

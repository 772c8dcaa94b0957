/** Requests against the book in memory, and whole runs of them. */
module Requests {
  import opened Config
  import opened Wrappers
  import opened Orders
  import opened Levels
  import opened LazyBooks
  import opened OrderBooks
  import opened Snapshots
  import opened BookSnapshots
  import opened EagerBooks
  import opened Refinement
  import opened Runs
  import MemoryAccounts
  import KillFlags

  // What the server guarantees of the order it submits next
  predicate Placeable(o: Order) {
    o.request == KillOrder || !KillFlags.Reserved(o.id)
  }

  /** One request on a book, and the snapshot taken after every SNAPSHOT_FREQUENCY requests. */
  method ProcessOne(book: OrderBook, order: Order) returns (ghost hit: bool, snapshot: Option<Snapshot>)
    requires book.Valid() && Placeable(order)
    requires order.request != KillOrder ==> |book.state.bids| + |book.state.asks| < ORDER_POOL_MAX_CAP
    modifies book.Repr()
    ensures book.Valid() && fresh(book.Repr() - old(book.Repr()))
    ensures book.state == Process(book.live, old(book.state), Input(order, hit))
    ensures snapshot == if book.state.seqLen % SNAPSHOT_FREQUENCY == 0 then Some(SnapshotOf(book.state)) else None
  {
    MemoryAccounts.RoomWhileFew(book.resting);
    hit := book.ProcessRequest(order);
    snapshot := None;
    if book.seq_len % SNAPSHOT_FREQUENCY == 0 {
      var taken := CreateSnapshot(book);
      snapshot := Some(taken);
    }
  }

  // ---------- whole runs ----------

  ghost predicate InputsFor(inputs: seq<Input>, orders: seq<Order>) {
    |inputs| == |orders| && forall k: nat | k < |orders| :: inputs[k].order == orders[k]
  }

  lemma InputsForMore(inputs: seq<Input>, inputs': seq<Input>, orders: seq<Order>, n: nat)
    requires n < |orders| && InputsFor(inputs, orders[..n])
    requires exists i: Input :: i.order == orders[n] && inputs' == inputs + [i]
    ensures InputsFor(inputs', orders[..n + 1])
  {}

  // The book holds what a run leaves
  ghost predicate After(book: OrderBook, inputs: seq<Input>)
    reads book
  {
    book.state == Run(book.live, inputs)
  }

  // `mine` is the memory of the book
  method RunOne(book: OrderBook, order: Order, ghost inputs: seq<Input>, ghost mine: set<object>)
    returns (ghost i: Input, ghost mine': set<object>)
    requires book.Valid() && Placeable(order) && After(book, inputs) && mine == book.Repr()
    requires order.request != KillOrder ==> |book.state.bids| + |book.state.asks| < ORDER_POOL_MAX_CAP
    modifies mine
    ensures book.Valid() && mine' == book.Repr() && fresh(mine' - mine)
    ensures i.order == order && After(book, inputs + [i])
  {
    ghost var hit;
    var snapshot;
    hit, snapshot := ProcessOne(book, order);
    i, mine' := Input(order, hit), book.Repr();
    RunExtends(book.live, inputs, i);
  }

  // Whether the book can take a request, which it cannot when that places an order and the pool is exhausted
  method CanTake(book: OrderBook, order: Order) returns (ok: bool)
    requires book.Valid()
    ensures ok == (order.request == KillOrder || |book.state.bids| + |book.state.asks| < ORDER_POOL_MAX_CAP)
    ensures !ok ==> |book.state.bids| + |book.state.asks| == ORDER_POOL_MAX_CAP
  {
    MemoryAccounts.RoomWhileFew(book.resting);
    MemoryAccounts.AtMostCapacity(book.resting);
    ok := order.request == KillOrder;
    if !ok {
      ok := book.resting.Room();
    }
  }

  // Carries out one more request of a run, if the book can take it
  method RunNext(book: OrderBook, order: Order, ghost inputs: seq<Input>, ghost mine: set<object>)
    returns (ok: bool, ghost inputs': seq<Input>, ghost mine': set<object>)
    requires book.Valid() && Placeable(order) && After(book, inputs) && mine == book.Repr()
    modifies mine
    ensures book.Valid() && mine' == book.Repr() && fresh(mine' - mine) && After(book, inputs')
    ensures ok ==> exists i: Input :: i.order == order && inputs' == inputs + [i]
    ensures !ok ==> inputs' == inputs && order.request != KillOrder && |book.state.Resting()| == ORDER_POOL_MAX_CAP
  {
    inputs', mine' := inputs, mine;
    ok := CanTake(book, order);
    assert book.Valid() && After(book, inputs) && mine == book.Repr();
    if ok {
      ghost var i;
      i, mine' := RunOne(book, order, inputs, mine);
      inputs' := inputs + [i];
    }
  }

  /** A new book fed any requests carries them out one after the other and ends in the state of their
      run, so what is proved of runs holds of the book in memory. It stops short only at a request
      that places an order while ORDER_POOL_MAX_CAP orders rest. */
  method RunBook(live: Sessions, orders: seq<Order>) returns (book: OrderBook, ghost inputs: seq<Input>, done: nat)
    requires forall o | o in orders :: Placeable(o)
    ensures fresh(book) && book.Valid() && book.live == live
    ensures done <= |orders| && InputsFor(inputs, orders[..done]) && book.state == Run(live, inputs)
    ensures done < |orders| ==> orders[done].request != KillOrder && |book.state.Resting()| == ORDER_POOL_MAX_CAP
  {
    book := new OrderBook(live);
    inputs := [];
    ghost var mine := book.Repr();
    done := 0;
    while done < |orders|
      invariant done <= |orders| && mine == book.Repr() && fresh(mine) && book.Valid()
      invariant InputsFor(inputs, orders[..done]) && After(book, inputs)
    {
      ghost var before := inputs;
      var ok;
      ok, inputs, mine := RunNext(book, orders[done], inputs, mine);
      if !ok {
        return;
      }
      InputsForMore(before, inputs, orders, done);
      done := done + 1;
    }
  }

  // ---------- a run holds no more orders than it placed ----------

  lemma PlaceSize(s: State, o: Order)
    ensures |Place(s, o).Resting()| == |s.Resting()| + 1
  {
    var k := InsertSplits(BySlot, s.Of(o.side), o);
  }

  lemma ApplySize(live: Sessions, s: State, i: Input)
    ensures |Apply(live, s, i).Resting()| == |s.Resting()| + if Places(i) then 1 else 0
  {
    match i.order.request
    case SendOrder => PlaceSize(s, i.order);
    case ModifyOrder => PlaceSize(Cancel(live, s, i.order, i.hit), Renewed(i.order));
    case KillOrder =>
  }

  lemma UpdateSize(live: Sessions, s: State)
    ensures |UpdateBook(live, s).Resting()| <= |s.Resting()|
  {
    UpdateKeeps(live, s, iset t: State | |t.Resting()| <= |s.Resting()|);
  }

  lemma ProcessSize(live: Sessions, s: State, i: Input)
    ensures |Process(live, s, i).Resting()| <= |s.Resting()| + if Places(i) then 1 else 0
  {
    ApplySize(live, Count(s), i);
    UpdateSize(live, Apply(live, Count(s), i));
  }

  function Placed(inputs: seq<Input>): nat {
    if inputs == [] then 0 else Placed(inputs[..|inputs| - 1]) + if Places(inputs[|inputs| - 1]) then 1 else 0
  }

  /** No more orders rest after a run than it placed: the pool cannot be exhausted before
      ORDER_POOL_MAX_CAP orders were placed. */
  lemma {:induction false} RestingAtMostPlaced(live: Sessions, inputs: seq<Input>)
    ensures |Run(live, inputs).Resting()| <= Placed(inputs)
  {
    if inputs != [] {
      var n := |inputs| - 1;
      RestingAtMostPlaced(live, inputs[..n]);
      ProcessSize(live, Run(live, inputs[..n]), inputs[n]);
    }
  }

  /** What lies in memory after a run: without the flagged ones, the queues of each side, best slot
      first, are the price-time book of the same requests. */
  lemma MemoryIsPriceTimeBook(book: OrderBook, inputs: seq<Input>, prices: iset<int>)
    requires book.Valid() && After(book, inputs)
    requires OrderPreserving(prices) && ValidRun(inputs, prices)
    ensures LiveOf(book.resting.Of(Buy), book.killed_orders.contents) == EagerRun(inputs).bids
    ensures LiveOf(book.resting.Of(Sell), book.killed_orders.contents) == EagerRun(inputs).asks
  {
    LazyRefinesEager(book.live, inputs, prices);
  }
}

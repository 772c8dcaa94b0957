/** The order book of one symbol, with the matching loop that runs after every request. */
module OrderBooks {
  import opened Config
  import opened Wrappers
  import opened Orders
  import opened Levels
  import opened OrderPools
  import opened RestingBooks
  import opened EagerBooks
  import opened LazyBooks
  import opened KillFlags

  class OrderBook {
    const live: Sessions   // the session registry's answers
    const resting: RestingOrders
    const killed_orders: KillFlagTable
    var seq_len: nat
    var lookups: nat
    var outbox: seq<Sent>
    ghost var state: State   // the book as a value

    ghost function Repr(): set<object>
      reads this, resting, resting.pool, killed_orders
    {
      {this, killed_orders, killed_orders.slots} + resting.Repr()
    }

    // The parts of the book do not share memory
    ghost predicate Apart()
      reads this, resting, resting.pool, killed_orders
    {
      {this, killed_orders, killed_orders.slots} !! resting.Repr()
    }

    // The resting orders and the flags are those of the value s
    ghost predicate Holds(s: State)
      reads this, resting, resting.pool, resting.pool.nodes
      reads resting.bids, resting.bids.levels, resting.bids.bitmap.l0, resting.bids.bitmap.l1
      reads resting.asks, resting.asks.levels, resting.asks.bitmap.l0, resting.asks.bitmap.l1
      reads killed_orders, killed_orders.slots
    {
      && Apart() && resting.Valid() && resting.Of(Buy) == s.bids && resting.Of(Sell) == s.asks
      && killed_orders.Valid() && killed_orders.contents == s.flags
    }

    ghost predicate Valid()
      reads this, resting, resting.pool, resting.pool.nodes
      reads resting.bids, resting.bids.levels, resting.bids.bitmap.l0, resting.bids.bitmap.l1
      reads resting.asks, resting.asks.levels, resting.asks.bitmap.l0, resting.asks.bitmap.l1
      reads killed_orders, killed_orders.slots
    {
      Holds(state) && outbox == state.outbox && lookups == state.lookups && seq_len == state.seqLen
    }

    constructor (live: Sessions)
      ensures Valid() && state == EMPTY_STATE && this.live == live
      ensures fresh(resting.Repr()) && fresh({killed_orders, killed_orders.slots})
    {
      this.live := live;
      resting := new RestingOrders();
      killed_orders := new KillFlagTable();
      seq_len, lookups, outbox := 0, 0, [];
      state := EMPTY_STATE;
    }

    // One registry lookup, and the message if the session is connected
    method Tell(session: int, m: Message) returns (ok: bool)
      requires Valid()
      modifies this`lookups, this`outbox, this`state
      ensures Valid() && ok == (old(lookups) in live)
      ensures state == LazyBooks.Tell(live, old(state), session, m)
    {
      ok := lookups in live;
      lookups := lookups + 1;
      if ok {
        outbox := outbox + [Sent(session, m)];
      }
      state := LazyBooks.Tell(live, state, session, m);
    }

    // Each of the following changes one part of memory, and the value with it

    method SetFlag(id: int)
      requires Valid() && !Reserved(id)
      modifies this`state, killed_orders, killed_orders.slots
      ensures Valid() && state == WithFlags(old(state), old(state).flags[id := false])
      ensures resting.pool.HasRoom() == old(resting.pool.HasRoom()) && resting.Repr() == old(resting.Repr())
      ensures killed_orders.slots == old(killed_orders.slots) || fresh(killed_orders.slots)
    {
      killed_orders.Set(id, false);
      state := WithFlags(state, state.flags[id := false]);
    }

    // Writes true through a pointer into the table
    method RaiseFlag(idx: nat, id: int)
      requires Valid() && idx < killed_orders.slots.Length && killed_orders.slots[idx].key == id
      modifies this`state, killed_orders`contents, killed_orders.slots
      ensures Valid() && state == if Reserved(id) then old(state)
          else WithFlags(old(state), old(state).flags[id := true])
    {
      ghost var flags := if Reserved(id) then state.flags else state.flags[id := true];
      assert WithFlags(state, state.flags) == state;
      killed_orders.Assign(idx, true);
      assert killed_orders.contents == flags;
      state := WithFlags(state, flags);
    }

    method DropFlag(id: int)
      requires Valid() && !Reserved(id)
      modifies this`state, killed_orders, killed_orders.slots
      ensures Valid() && state == WithFlags(old(state), old(state).flags - {id})
      ensures resting.Repr() == old(resting.Repr()) && killed_orders.slots == old(killed_orders.slots)
    {
      killed_orders.Erase(id);
      state := WithFlags(state, state.flags - {id});
    }

    method Rest(order: Order)
      requires Valid() && resting.pool.HasRoom() && !Reserved(order.id)
      modifies this`state, resting.Repr()
      ensures Valid() && state == old(state).Put(order.side, Insert(BySlot, old(state).Of(order.side), order))
      ensures fresh(resting.Repr() - old(resting.Repr()))
    {
      resting.Insert(order);
      state := state.Put(order.side, Insert(BySlot, state.Of(order.side), order));
    }

    method PopBest(side: Side, idx: nat)
      requires Valid() && resting.IsBest(side, idx) && state.Of(side) != []
      modifies this`state, resting.Repr()
      ensures Valid() && state == old(state).Put(side, old(state).Of(side)[1..])
      ensures resting.Repr() == old(resting.Repr()) && resting.Slots(side.Other()) == old(resting.Slots(side.Other()))
    {
      resting.PopFront(side, idx);
      state := state.Put(side, state.Of(side)[1..]);
    }

    method SetBest(side: Side, idx: nat, o: Order)
      requires Valid() && resting.IsBest(side, idx) && state.Of(side) != [] && o == state.Of(side)[0].(qty := o.qty)
      modifies this`state, resting.Repr()
      ensures Valid() && state == old(state).Put(side, [o] + old(state).Of(side)[1..])
      ensures resting.IsBest(side, idx)
      ensures resting.Repr() == old(resting.Repr()) && resting.Slots(side.Other()) == old(resting.Slots(side.Other()))
    {
      resting.SetFront(side, idx, o);
      state := state.Put(side, [o] + state.Of(side)[1..]);
    }

    method SendOrder(order: Order)
      requires Valid() && resting.pool.HasRoom() && !Reserved(order.id)
      modifies this`state, killed_orders, killed_orders.slots
      modifies resting.Repr()
      ensures Valid()
      ensures fresh(resting.Repr() - old(resting.Repr()))
      ensures killed_orders.slots == old(killed_orders.slots) || fresh(killed_orders.slots)
      ensures state == Place(old(state), order)
    {
      SetFlag(order.id);
      Rest(order);
    }

    // `hit` is whether the probe for the named order met its key
    method KillOrder(order: Order) returns (ghost hit: bool)
      requires Valid()
      modifies this`lookups, this`outbox, this`state, killed_orders`contents, killed_orders.slots
      ensures Valid() && state == Cancel(live, old(state), order, hit)
      ensures hit == old(Met(killed_orders.slots[..], order.delId))
    {
      var flag := killed_orders.Find(order.delId);
      hit := flag.Some?;
      if flag.None? {
        var ok := Tell(order.session, Error(INVALID_ORDER_ID));
      } else {
        RaiseFlag(flag.value, order.delId);
      }
    }

    method ModifyOrder(order: Order) returns (ghost hit: bool)
      requires Valid() && resting.pool.HasRoom() && !Reserved(order.id)
      modifies this`lookups, this`outbox, this`state, killed_orders, killed_orders.slots
      modifies resting.Repr()
      ensures Valid()
      ensures fresh(resting.Repr() - old(resting.Repr()))
      ensures killed_orders.slots == old(killed_orders.slots) || fresh(killed_orders.slots)
      ensures state == Replace(live, old(state), order, hit)
    {
      hit := KillOrder(order);
      SendOrder(Renewed(order));
    }

    // Reports a fill; a filled order's flag goes only if its session is connected
    method NotifyFill(order: Order, fillQty: int, fillPrice: int)
      requires Valid() && !Reserved(order.id)
      modifies this`lookups, this`outbox, this`state, killed_orders, killed_orders.slots
      ensures Valid() && killed_orders.slots == old(killed_orders.slots)
      ensures state == LazyBooks.NotifyFill(live, old(state), order, fillQty, fillPrice)
    {
      if order.qty == 0 {
        var ok := Tell(order.session, FullFill(order, fillQty, fillPrice));
        if ok {
          DropFlag(order.id);
        }
      } else {
        var ok := Tell(order.session, PartialFill(order, fillQty, order.qty, fillPrice));
      }
    }

    // Reports and removes the cancelled order at the front of a side
    method EvictFront(side: Side, idx: nat, front: Order)
      requires Valid() && resting.IsBest(side, idx) && state.Of(side) != [] && front == state.Of(side)[0]
      requires !Reserved(front.id)
      modifies this`lookups, this`outbox, this`state, killed_orders, killed_orders.slots
      modifies resting.Repr()
      ensures Valid() && state == Evict(live, old(state), side)
      ensures resting.Repr() == old(resting.Repr()) && killed_orders.slots == old(killed_orders.slots)
    {
      var ok := Tell(front.session, KillConfirm(front));
      DropFlag(front.id);
      PopBest(side, idx);
      RecordRemoval(front);
    }

    // Looks for a cancelled order at the front of a side
    method DeadFront(side: Side) returns (dead: bool, idx: nat, front: Order)
      requires Valid()
      ensures dead == (state.Of(side) != [] && Killed(state.flags, state.Of(side)[0]))
      ensures dead ==> resting.IsBest(side, idx) && front == state.Of(side)[0] && !Reserved(front.id)
    {
      dead := false;
      var has;
      has, idx, front := resting.BestFront(side);
      if has {
        var flag := killed_orders.Find(front.id);
        dead := flag.Some? && killed_orders.slots[flag.value].value;
      }
    }

    // One round of the draining loop
    method DrainOne(side: Side) returns (done: bool)
      requires Valid()
      modifies this`lookups, this`outbox, this`state, killed_orders, killed_orders.slots
      modifies resting.Repr()
      ensures Valid() && done == (old(state).Of(side) == [] || !Killed(old(state).flags, old(state).Of(side)[0]))
      ensures state == if done then old(state) else Evict(live, old(state), side)
      ensures resting.Repr() == old(resting.Repr()) && killed_orders.slots == old(killed_orders.slots)
    {
      var dead, idx, front := DeadFront(side);
      if dead {
        EvictFront(side, idx, front);
      }
      done := !dead;
    }

    /** Removes cancelled orders from the front of a side. */
    method DrainDead(side: Side)
      requires Valid()
      modifies this`lookups, this`outbox, this`state, killed_orders, killed_orders.slots
      modifies resting.Repr()
      ensures Valid() && state == LazyBooks.DrainDead(live, old(state), side)
      ensures resting.Repr() == old(resting.Repr()) && killed_orders.slots == old(killed_orders.slots)
    {
      var done := false;
      while !done
        invariant Valid() && LazyBooks.DrainDead(live, state, side) == LazyBooks.DrainDead(live, old(state), side)
        invariant done ==> state == LazyBooks.DrainDead(live, state, side)
        invariant resting.Repr() == old(resting.Repr()) && killed_orders.slots == old(killed_orders.slots)
        decreases !done, |state.Of(side)|
      {
        done := DrainOne(side);
      }
    }

    // Removes a filled front order
    method PopFilled(side: Side, idx: nat, left: Order)
      requires Valid() && resting.IsBest(side, idx) && state.Of(side) != [] && left == state.Of(side)[0]
      modifies this`state, resting.Repr()
      ensures Valid() && state == old(state).Put(side, if left.qty == 0 then old(state).Of(side)[1..]
          else old(state).Of(side))
      ensures resting.Repr() == old(resting.Repr()) && resting.Slots(side.Other()) == old(resting.Slots(side.Other()))
    {
      if left.qty == 0 {
        PopBest(side, idx);
      }
    }

    method PopFilledBoth(bidx: nat, aidx: nat, b: Order, a: Order)
      requires Valid() && resting.IsBest(Buy, bidx) && resting.IsBest(Sell, aidx) && state.bids != []
          && state.asks != []
      requires b == state.bids[0] && a == state.asks[0]
      modifies this`state, resting.Repr()
      ensures Valid() && resting.Repr() == old(resting.Repr())
      ensures var s3 := old(state).Put(Buy, if b.qty == 0 then old(state).bids[1..] else old(state).bids);
              state == s3.Put(Sell, if a.qty == 0 then s3.asks[1..] else s3.asks)
    {
      PopFilled(Buy, bidx, b);
      PopFilled(Sell, aidx, a);
    }

    ghost method RecordTrade(f: Fill)
      requires Valid()
      modifies this`state
      ensures Valid() && state == Traded(old(state), f)
    {
      state := Traded(state, f);
    }

    ghost method RecordRemoval(o: Order)
      requires Valid()
      modifies this`state
      ensures Valid() && state == Recorded(old(state), o)
    {
      state := Recorded(state, o);
    }

    // Takes the fill out of both fronts
    method ReduceBoth(bidx: nat, aidx: nat, b: Order, a: Order)
      requires Valid() && resting.IsBest(Buy, bidx) && resting.IsBest(Sell, aidx) && state.bids != []
          && state.asks != []
      requires b == state.bids[0].(qty := b.qty) && a == state.asks[0].(qty := a.qty)
      modifies this`state, resting.Repr()
      ensures Valid() && resting.IsBest(Buy, bidx) && resting.IsBest(Sell, aidx)
      ensures state == old(state).Put(Buy, [b] + old(state).bids[1..]).Put(Sell, [a] + old(state).asks[1..])
      ensures resting.Repr() == old(resting.Repr())
    {
      SetBest(Buy, bidx, b);
      SetBest(Sell, aidx, a);
    }

    method NotifyBoth(b: Order, a: Order, q: int, price: int)
      requires Valid() && !Reserved(b.id) && !Reserved(a.id)
      modifies this`lookups, this`outbox, this`state, killed_orders, killed_orders.slots
      ensures Valid() && killed_orders.slots == old(killed_orders.slots) && resting.Repr() == old(resting.Repr())
      ensures state == LazyBooks.NotifyFill(live, LazyBooks.NotifyFill(live, old(state), b, q, price), a, q, price)
      ensures forall side :: resting.Slots(side) == old(resting.Slots(side))
    {
      NotifyFill(b, q, price);
      NotifyFill(a, q, price);
    }

    method ReduceAndNotify(bidx: nat, aidx: nat, b: Order, a: Order, q: int, price: int) returns (ghost s1: State)
      requires Valid() && resting.IsBest(Buy, bidx) && resting.IsBest(Sell, aidx) && state.bids != []
          && state.asks != []
      requires b == state.bids[0].(qty := b.qty) && a == state.asks[0].(qty := a.qty)
      requires !Reserved(b.id) && !Reserved(a.id)
      modifies this`lookups, this`outbox, this`state, killed_orders, killed_orders.slots
      modifies resting.Repr()
      ensures Valid() && resting.IsBest(Buy, bidx) && resting.IsBest(Sell, aidx)
      ensures s1 == old(state).Put(Buy, [b] + old(state).bids[1..]).Put(Sell, [a] + old(state).asks[1..])
      ensures state == LazyBooks.NotifyFill(live, LazyBooks.NotifyFill(live, s1, b, q, price), a, q, price)
      ensures resting.Repr() == old(resting.Repr()) && killed_orders.slots == old(killed_orders.slots)
    {
      ReduceBoth(bidx, aidx, b, a);
      s1 := state;
      NotifyBoth(b, a, q, price);
    }

    // One trade between the two front orders
    method TradeBest(bidx: nat, aidx: nat, b: Order, a: Order)
      requires Valid() && resting.IsBest(Buy, bidx) && resting.IsBest(Sell, aidx)
      requires state.bids != [] && state.asks != [] && b == state.bids[0] && a == state.asks[0]
      requires !Reserved(b.id) && !Reserved(a.id)
      modifies this`lookups, this`outbox, this`state, killed_orders, killed_orders.slots
      modifies resting.Repr()
      ensures Valid() && state == Trade(live, old(state))
      ensures resting.Repr() == old(resting.Repr()) && killed_orders.slots == old(killed_orders.slots)
    {
      ghost var s := state;
      var q := Min(b.qty, a.qty);
      var b', a' := b.(qty := b.qty - q), a.(qty := a.qty - q);
      ghost var s1 := ReduceAndNotify(bidx, aidx, b', a', q, a.price);
      TradeInSteps(live, s, s1, state, b', a', q);
      PopFilledBoth(bidx, aidx, b', a');
      RecordTrade(Fill(b.id, a.id, q, a.price));
    }

    // Looks for front orders that cross
    method CrossingFronts() returns (crossing: bool, bidx: nat, aidx: nat, b: Order, a: Order)
      requires Valid()
      ensures crossing == !(state.bids == [] || state.asks == [] || state.bids[0].price < state.asks[0].price)
      ensures crossing ==>
                && resting.IsBest(Buy, bidx) && resting.IsBest(Sell, aidx) && b == state.bids[0] && a == state.asks[0]
                && !Reserved(b.id) && !Reserved(a.id)
    {
      var hasBid, hasAsk;
      hasBid, bidx, b := resting.BestFront(Buy);
      hasAsk, aidx, a := resting.BestFront(Sell);
      crossing := hasBid && hasAsk && b.price >= a.price;
    }

    // One round of the matching loop
    method Round() returns (again: bool)
      requires Valid()
      modifies this`lookups, this`outbox, this`state, killed_orders, killed_orders.slots
      modifies resting.Repr()
      ensures Valid()
      ensures var d := DrainBoth(live, old(state));
              && again == !(d.bids == [] || d.asks == [] || d.bids[0].price < d.asks[0].price)
              && state == if again then Trade(live, d) else d
      ensures resting.Repr() == old(resting.Repr()) && killed_orders.slots == old(killed_orders.slots)
    {
      DrainDead(Buy);
      DrainDead(Sell);
      var bidx, aidx, b, a;
      again, bidx, aidx, b, a := CrossingFronts();
      if again {
        TradeBest(bidx, aidx, b, a);
      }
    }

    /** Drains and matches until the best orders no longer cross. */
    method UpdateBook()
      requires Valid()
      modifies this`lookups, this`outbox, this`state, killed_orders, killed_orders.slots
      modifies resting.Repr()
      ensures Valid() && state == LazyBooks.UpdateBook(live, old(state))
      ensures resting.Repr() == old(resting.Repr()) && killed_orders.slots == old(killed_orders.slots)
    {
      var again := true;
      while again
        invariant Valid()
        invariant again ==> LazyBooks.UpdateBook(live, state) == LazyBooks.UpdateBook(live, old(state))
        invariant !again ==> state == LazyBooks.UpdateBook(live, old(state))
        invariant resting.Repr() == old(resting.Repr()) && killed_orders.slots == old(killed_orders.slots)
        decreases again, |state.bids| + |state.asks|
      {
        again := Round();
      }
    }

    // Carries out what a request asks for
    method Dispatch(order: Order) returns (ghost hit: bool)
      requires Valid() && (order.request != RequestType.KillOrder ==> resting.pool.HasRoom() && !Reserved(order.id))
      modifies this`lookups, this`outbox, this`state, killed_orders, killed_orders.slots
      modifies resting.Repr()
      ensures Valid()
      ensures fresh(resting.Repr() - old(resting.Repr()))
      ensures killed_orders.slots == old(killed_orders.slots) || fresh(killed_orders.slots)
      ensures state == Apply(live, old(state), Input(order, hit))
    {
      hit := false;
      match order.request {
        case SendOrder => SendOrder(order);
        case ModifyOrder => hit := ModifyOrder(order);
        case KillOrder => hit := KillOrder(order);
      }
    }

    method CountRequest()
      requires Valid()
      modifies this`seq_len, this`state
      ensures Valid() && state == LazyBooks.Count(old(state))
    {
      seq_len := seq_len + 1;
      state := LazyBooks.Count(state);
    }

    /** One request: count it, carry it out, update the book. */
    method ProcessRequest(order: Order) returns (ghost hit: bool)
      requires Valid() && (order.request != RequestType.KillOrder ==> resting.pool.HasRoom() && !Reserved(order.id))
      modifies this`seq_len, this`lookups, this`outbox, this`state, killed_orders, killed_orders.slots
      modifies resting.Repr()
      ensures Valid()
      ensures fresh(resting.Repr() - old(resting.Repr()))
      ensures killed_orders.slots == old(killed_orders.slots) || fresh(killed_orders.slots)
      ensures state == Process(live, old(state), Input(order, hit))
    {
      CountRequest();
      hit := Dispatch(order);
      UpdateBook();
    }
  }

  // Reporting a fill only concerns the flags, the messages and the lookups
  lemma NotifyParts(live: Sessions, s: State, t: State, o: Order, q: int, price: int)
    requires s.flags == t.flags && s.outbox == t.outbox && s.lookups == t.lookups
    ensures var s', t' := LazyBooks.NotifyFill(live, s, o, q, price), LazyBooks.NotifyFill(live, t, o, q, price);
            && s'.flags == t'.flags && s'.outbox == t'.outbox && s'.lookups == t'.lookups
            && s'.bids == s.bids && s'.asks == s.asks && s'.seqLen == s.seqLen
            && s'.trades == s.trades && s'.removals == s.removals
  {}

  // A trade reduces both fronts, reports both fills and drops what is filled
  lemma TradeInSteps(live: Sessions, s: State, s1: State, s2: State, b: Order, a: Order, q: int)
    requires s.bids != [] && s.asks != [] && q == Min(s.bids[0].qty, s.asks[0].qty)
    requires b == s.bids[0].(qty := s.bids[0].qty - q) && a == s.asks[0].(qty := s.asks[0].qty - q)
    requires s1 == s.Put(Buy, [b] + s.bids[1..]).Put(Sell, [a] + s.asks[1..])
    requires s2 == LazyBooks.NotifyFill(live, LazyBooks.NotifyFill(live, s1, b, q, s.asks[0].price), a, q,
        s.asks[0].price)
    ensures s2.bids == s1.bids && s2.asks == s1.asks
    ensures var s3 := s2.Put(Buy, if b.qty == 0 then s2.bids[1..] else s2.bids);
            var s4 := s3.Put(Sell, if a.qty == 0 then s3.asks[1..] else s3.asks);
            Trade(live, s) == Traded(s4, Fill(b.id, a.id, q, s.asks[0].price))
  {
    var price := s.asks[0].price;
    NotifyParts(live, s1, s, b, q, price);
    NotifyParts(live, s, s, b, q, price);
    NotifyParts(live, LazyBooks.NotifyFill(live, s1, b, q, price), LazyBooks.NotifyFill(live, s, b, q, price), a, q,
        price);
    NotifyParts(live, LazyBooks.NotifyFill(live, s, b, q, price), LazyBooks.NotifyFill(live, s, b, q, price), a, q,
        price);
  }
}

/** The resting orders of a book: both sides and the node slab they share. */
module RestingBooks {
  import opened Config
  import opened Wrappers
  import opened Orders
  import opened Levels
  import opened OrderPools
  import opened BookSides
  import opened Homes
  import opened Flattening
  import opened KillFlags

  // Two sides over disjoint arrays
  ghost predicate Apart(on: BookSide, off: BookSide) {
    && on != off && off.side == on.side.Other() && on.levels != off.levels
    && on.bitmap.l0 !in {off.bitmap.l0, off.bitmap.l1} && on.bitmap.l1 !in {off.bitmap.l0, off.bitmap.l1}
  }

  // Two sides that share a slab
  ghost predicate Sharing(on: BookSide, off: BookSide, pool: OrderPool, owner: seq<Home>)
    reads pool, pool.nodes
    reads on, on.levels, on.bitmap.l0, on.bitmap.l1
    reads off, off.levels, off.bitmap.l0, off.bitmap.l1
  {
    && Apart(on, off) && pool.Valid() && FreeHomes(owner, pool.free)
    && on.Valid(pool.nodes[..], owner) && off.Valid(pool.nodes[..], owner)
  }

  lemma SharingEither(on: BookSide, off: BookSide, pool: OrderPool, owner: seq<Home>)
    ensures Sharing(on, off, pool, owner) <==> Sharing(off, on, pool, owner)
  {}

  method EmptySide(side: Side, ghost nodes: seq<OrderNode>, ghost owner: seq<Home>) returns (on: BookSide)
    requires |owner| == |nodes| < NIL && forall n: nat | n < |owner| :: owner[n] == Home.Free
    ensures on.Valid(nodes, owner) && on.side == side && |on.orders| == PRICE_WINDOW && Flat(side, on.orders) == []
    ensures fresh(on) && fresh(on.Repr())
  {
    on := new BookSide(side, nodes, owner);
    FlatEmpty(side, on.orders);
  }

  method EmptySides() returns (pool: OrderPool, bids: BookSide, asks: BookSide, ghost owner: seq<Home>)
    ensures fresh(pool) && fresh(pool.nodes) && fresh(bids.Repr()) && fresh(asks.Repr())
    ensures bids.side == Buy && Flat(Buy, bids.orders) == [] && Flat(Sell, asks.orders) == []
    ensures |bids.orders| == |asks.orders| == PRICE_WINDOW && Sharing(bids, asks, pool, owner)
  {
    pool := new OrderPool();
    owner := seq(pool.nodes.Length, _ => Home.Free);
    ghost var nodes := pool.nodes[..];
    bids := EmptySide(Buy, nodes, owner);
    asks := EmptySide(Sell, nodes, owner);
    assert pool.nodes[..] == nodes;
    assert bids.Valid(nodes, owner);
  }

  method InsertInto(on: BookSide, off: BookSide, order: Order, pool: OrderPool, ghost owner: seq<Home>)
    returns (ghost owner': seq<Home>)
    requires Sharing(on, off, pool, owner) && pool.HasRoom() && order.side == on.side && !Reserved(order.id)
    modifies on, on.levels, on.bitmap.l0, on.bitmap.l1, pool, pool.nodes
    ensures Sharing(on, off, pool, owner') && (pool.nodes == old(pool.nodes) || fresh(pool.nodes))
    ensures on.orders == old(AppendAt(on.orders, order))
  {
    ghost var nodes := pool.nodes[..];
    owner' := on.Insert(order, pool, owner);
    assert off.Valid(nodes, owner);
    off.Framed(nodes, owner, pool.nodes[..], owner');
  }

  method PopFrom(on: BookSide, off: BookSide, idx: nat, pool: OrderPool, ghost owner: seq<Home>)
    returns (ghost owner': seq<Home>)
    requires Sharing(on, off, pool, owner) && idx < |on.orders| && on.orders[idx] != []
    modifies on, on.levels, on.bitmap.l0, on.bitmap.l1, pool, pool.nodes
    ensures Sharing(on, off, pool, owner') && pool.nodes == old(pool.nodes)
    ensures on.orders == old(on.orders[idx := on.orders[idx][1..]])
  {
    ghost var nodes := pool.nodes[..];
    owner' := on.PopFront(idx, pool, owner);
    assert off.Valid(nodes, owner);
    off.Framed(nodes, owner, pool.nodes[..], owner');
  }

  method SetOn(on: BookSide, off: BookSide, idx: nat, o: Order, pool: OrderPool, ghost owner: seq<Home>)
    requires Sharing(on, off, pool, owner) && idx < |on.orders| && on.orders[idx] != []
    requires o == on.orders[idx][0].(qty := o.qty)
    modifies on, pool.nodes
    ensures Sharing(on, off, pool, owner)
    ensures on.orders == old(on.orders)[idx := old(on.orders)[idx][0 := o]]
  {
    ghost var nodes := pool.nodes[..];
    on.SetFront(idx, o, pool, owner);
    assert off.Valid(nodes, owner);
    off.Framed(nodes, owner, pool.nodes[..], owner);
  }

  class RestingOrders {
    const bids: BookSide
    const asks: BookSide
    const pool: OrderPool
    ghost var owner: seq<Home>   // where each node of the slab is at home

    ghost function Repr(): set<object>
      reads this, pool
    {
      {this, pool, pool.nodes} + bids.Repr() + asks.Repr()
    }

    /** Every node of the slab is free or in exactly one queue of one side. Sealed, so that a
        caller, to whom this is one fact, does not get it spelled out. */
    ghost predicate Valid()
      reads this, pool, pool.nodes
      reads bids, bids.levels, bids.bitmap.l0, bids.bitmap.l1
      reads asks, asks.levels, asks.bitmap.l0, asks.bitmap.l1
    {
      && |bids.orders| == |asks.orders| == PRICE_WINDOW
      && forall key: bool {:trigger Unseal(key)} :: Unseal(key) ==> bids.side == Buy && Sharing(bids, asks, pool, owner)
    }

    ghost function Slots(side: Side): Slots
      reads bids`orders, asks`orders
    {
      if side.Buy? then bids.orders else asks.orders
    }

    /** A side's resting orders, best first. */
    ghost function Of(side: Side): seq<Order>
      reads bids`orders, asks`orders
    {
      Flat(side, Slots(side))
    }

    constructor ()
      ensures Valid() && Of(Buy) == [] && Of(Sell) == [] && fresh(Repr())
    {
      var p, b, a, homes := EmptySides();
      pool, bids, asks, owner := p, b, a, homes;
      new;
      assert Sharing(bids, asks, pool, owner);
      assert fresh({this, pool, pool.nodes});
      assert fresh({this, pool, pool.nodes} + bids.Repr() + asks.Repr());
    }

    // A side of the book and the other one
    method Facing(side: Side) returns (on: BookSide, off: BookSide)
      ensures on == (if side.Buy? then bids else asks) && off == (if side.Buy? then asks else bids)
    {
      if side.Buy? {
        on, off := bids, asks;
      } else {
        on, off := asks, bids;
      }
    }

    method InsertSlot(order: Order)
      requires Valid() && pool.HasRoom() && !Reserved(order.id)
      modifies Repr()
      ensures Valid() && fresh(Repr() - old(Repr()))
      ensures Slots(order.side) == old(AppendAt(Slots(order.side), order))
      ensures Slots(order.side.Other()) == old(Slots(order.side.Other()))
    {
      assert Unseal(true);
      SharingEither(bids, asks, pool, owner);
      var on, off := Facing(order.side);
      ghost var homes := InsertInto(on, off, order, pool, owner);
      SharingEither(bids, asks, pool, homes);
      owner := homes;
    }

    /** Adds an order behind those of the same or a better slot. */
    method Insert(order: Order)
      requires Valid() && pool.HasRoom() && !Reserved(order.id)
      modifies Repr()
      ensures Valid() && fresh(Repr() - old(Repr()))
      ensures Of(order.side) == Orders.Insert(BySlot, old(Of(order.side)), order)
      ensures Of(order.side.Other()) == old(Of(order.side.Other()))
    {
      assert Unseal(true);
      FlatInsert(order.side, Slots(order.side), order);
      InsertSlot(order);
    }

    /** The slot that trades first on a side, if the side has any order. */
    method BestSlot(side: Side) returns (found: bool, idx: nat)
      requires Valid()
      ensures found <==> Of(side) != []
      ensures found ==> IsBest(side, idx)
    {
      assert Unseal(true);
      if side.Buy? {
        found, idx := bids.BestSlot(pool.nodes[..], owner);
        BestIsFront(Buy, bids.orders, found, idx);
      } else {
        found, idx := asks.BestSlot(pool.nodes[..], owner);
        BestIsFront(Sell, asks.orders, found, idx);
      }
    }

    method Room() returns (room: bool)
      requires Valid()
      ensures room == pool.HasRoom()
    {
      assert Unseal(true);
      room := pool.Room();
    }

    ghost predicate IsBest(side: Side, idx: nat)
      reads bids`orders, asks`orders
    {
      Best(side, Slots(side), idx)
    }

    method Front(side: Side, idx: nat) returns (o: Order)
      requires Valid() && IsBest(side, idx)
      ensures Of(side) != [] && o == Of(side)[0] && !Reserved(o.id) && o.side == side
    {
      assert Unseal(true);
      if side.Buy? {
        o := bids.Front(idx, pool, owner);
        FlatBest(Buy, bids.orders, idx);
        assert o in bids.orders[idx];
      } else {
        o := asks.Front(idx, pool, owner);
        FlatBest(Sell, asks.orders, idx);
        assert o in asks.orders[idx];
      }
    }

    /** The order that trades first on a side and its slot, if the side has any order. */
    method BestFront(side: Side) returns (found: bool, idx: nat, o: Order)
      requires Valid()
      ensures found <==> Of(side) != []
      ensures found ==> IsBest(side, idx) && o == Of(side)[0] && !Reserved(o.id)
    {
      o := DEFAULT_ORDER;
      found, idx := BestSlot(side);
      if found {
        o := Front(side, idx);
      }
    }

    method PopSlot(side: Side, idx: nat)
      requires Valid() && IsBest(side, idx)
      modifies Repr()
      ensures Valid() && Repr() == old(Repr())
      ensures Slots(side) == old(Slots(side)[idx := Slots(side)[idx][1..]])
      ensures Slots(side.Other()) == old(Slots(side.Other()))
    {
      assert Unseal(true);
      SharingEither(bids, asks, pool, owner);
      var on, off := Facing(side);
      ghost var homes := PopFrom(on, off, idx, pool, owner);
      SharingEither(bids, asks, pool, homes);
      owner := homes;
    }

    /** Removes the order that trades first. */
    method PopFront(side: Side, idx: nat)
      requires Valid() && IsBest(side, idx)
      modifies Repr()
      ensures Valid() && Repr() == old(Repr())
      ensures old(Of(side)) != [] && Of(side) == old(Of(side))[1..]
      ensures Slots(side.Other()) == old(Slots(side.Other()))
    {
      assert Unseal(true);
      FlatBest(side, Slots(side), idx);
      PopSlot(side, idx);
    }

    method SetSlot(side: Side, idx: nat, o: Order)
      requires Valid() && IsBest(side, idx) && o == Slots(side)[idx][0].(qty := o.qty)
      modifies Repr()
      ensures Valid() && Repr() == old(Repr())
      ensures Slots(side) == old(Slots(side))[idx := old(Slots(side))[idx][0 := o]]
      ensures Slots(side.Other()) == old(Slots(side.Other()))
    {
      assert Unseal(true);
      SharingEither(bids, asks, pool, owner);
      var on, off := Facing(side);
      SetOn(on, off, idx, o, pool, owner);
      SharingEither(bids, asks, pool, owner);
    }

    /** Changes the quantity of the order that trades first. */
    method SetFront(side: Side, idx: nat, o: Order)
      requires Valid() && IsBest(side, idx)
      requires Of(side) != [] ==> o == Of(side)[0].(qty := o.qty)
      modifies Repr()
      ensures Valid() && Repr() == old(Repr()) && IsBest(side, idx)
      ensures old(Of(side)) != [] && Of(side) == [o] + old(Of(side))[1..]
      ensures Slots(side.Other()) == old(Slots(side.Other()))
    {
      assert Unseal(true);
      ghost var os := Slots(side);
      FlatBest(side, os, idx);
      FlatBestSet(side, os, idx, o);
      BestAfterChange(side, os, idx, o);
      SetSlot(side, idx, o);
    }
  }

  lemma BestAfterChange(side: Side, os: Slots, k: nat, o: Order)
    requires Best(side, os, k)
    ensures Best(side, os[k := os[k][0 := o]], k)
  {}

  lemma BestIsFront(side: Side, os: Slots, found: bool, idx: nat)
    requires found ==> Best(side, os, idx)
    requires !found ==> forall k: nat | k < |os| :: os[k] == []
    ensures found <==> Flat(side, os) != []
  {
    if found {
      FlatNonEmpty(side, os, idx);
    } else {
      FlatEmpty(side, os);
    }
  }
}

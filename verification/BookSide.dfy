/** One side of the book: its 65536 price levels and its bitmap, over the shared node slab. */
module BookSides {
  import opened Config
  import opened Orders
  import opened Levels
  import opened OrderPools
  import opened PriceBitmaps
  import opened Flattening
  import opened Homes
  import KillFlags

  class BookSide {
    const side: Side
    const levels: array<PriceLevel>
    const bitmap: PriceBitmap
    ghost var chains: seq<seq<nat>>
    ghost var orders: Slots

    ghost function Repr(): set<object> {
      {this, levels, bitmap.l0, bitmap.l1}
    }

    /** The levels' queues are the side's share of the slab, the bitmap marks exactly the
        non-empty levels, and every order sits in the slot of its price. */
    ghost predicate Valid(nodes: seq<OrderNode>, owner: seq<Home>)
      reads this, levels, bitmap.l0, bitmap.l1
    {
      && Hosts(nodes, owner, side, levels[..], chains, orders)
      && bitmap.Valid() && bitmap.Members() == Occupied(orders)
      && OrdersOk(side, orders)
    }

    // A change to the other side's nodes does not concern this side
    lemma Framed(nodes: seq<OrderNode>, owner: seq<Home>, nodes': seq<OrderNode>, owner': seq<Home>)
      requires Valid(nodes, owner) && KeepsSide(nodes, owner, nodes', owner', side)
      ensures Valid(nodes', owner')
    {
      HostsFrame(nodes, owner, nodes', owner', side, levels[..], chains, orders);
    }

    constructor (side: Side, ghost nodes: seq<OrderNode>, ghost owner: seq<Home>)
      requires |owner| == |nodes| < NIL && forall n: nat | n < |owner| :: owner[n] == Free
      ensures Valid(nodes, owner) && this.side == side && orders == seq(PRICE_WINDOW, _ => [])
      ensures fresh(levels) && fresh(bitmap) && fresh(bitmap.l0) && fresh(bitmap.l1)
    {
      this.side := side;
      levels := new PriceLevel[PRICE_WINDOW](_ => EMPTY_LEVEL);
      bitmap := new PriceBitmap();
      chains := seq(PRICE_WINDOW, _ => []);
      orders := seq(PRICE_WINDOW, _ => []);
      new;
      assert Occupied(orders) == {};
    }

    // Marks a slot that is about to receive an order
    method MarkSlot(idx: nat, price: int)
      requires idx < levels.Length == PRICE_WINDOW && bitmap.Valid()
          && (levels[idx].count > 0 ==> idx in bitmap.Members())
      modifies levels, bitmap.l0, bitmap.l1
      ensures bitmap.Valid() && bitmap.Members() == old(bitmap.Members()) + {idx}
      ensures levels[..] == old(levels[..])[idx := levels[idx]]
      ensures levels[idx]
          == if old(levels[idx]).count == 0 then old(levels[idx]).(levelPrice := price) else old(levels[idx])
    {
      if levels[idx].count == 0 {
        levels[idx] := levels[idx].(levelPrice := price);
        bitmap.Set(idx);
      }
    }

    // The writes of an insertion
    method PushOrder(idx: nat, order: Order, pool: OrderPool, ghost chain: seq<nat>, ghost q: seq<Order>)
        returns (ghost i: nat)
      requires idx < levels.Length == PRICE_WINDOW && bitmap.Valid() && (q != [] ==> idx in bitmap.Members())
      requires pool.Valid() && pool.HasRoom() && LevelOk(pool.nodes[..], levels[idx], chain, q)
      requires forall n | n in chain :: n !in pool.free
      modifies levels, bitmap.l0, bitmap.l1, pool, pool.nodes
      ensures pool.Valid() && (pool.nodes == old(pool.nodes) || fresh(pool.nodes))
      ensures bitmap.Valid() && bitmap.Members() == old(bitmap.Members()) + {idx}
      ensures levels[..] == old(levels[..])[idx := levels[idx]]
      ensures LevelOk(pool.nodes[..], levels[idx], chain + [i], q + [order])
      ensures PushEffect(old(pool.nodes[..]), old(pool.free), pool.nodes[..], pool.free, chain, i)
    {
      MarkSlot(idx, order.price);
      i := LevelPushBack(levels, idx, pool, order, chain, q);
    }

    // Everything an insertion does except to the ghost fields of this side
    method PlaceInSlot(idx: nat, order: Order, pool: OrderPool, ghost owner: seq<Home>)
        returns (ghost i: nat, ghost owner': seq<Home>)
      requires pool.Valid() && pool.HasRoom() && FreeHomes(owner, pool.free) && Valid(pool.nodes[..], owner)
      requires order.side == side && !KillFlags.Reserved(order.id) && idx == IndexOf(order.price)
      modifies levels, bitmap.l0, bitmap.l1, pool, pool.nodes
      ensures pool.Valid() && (pool.nodes == old(pool.nodes) || fresh(pool.nodes))
      ensures bitmap.Valid() && bitmap.Members() == Occupied(AppendAt(orders, order)) && FreeHomes(owner', pool.free)
      ensures Hosts(pool.nodes[..], owner', side, levels[..], chains[idx := chains[idx] + [i]], AppendAt(orders, order))
      ensures KeepsSide(old(pool.nodes[..]), owner, pool.nodes[..], owner', side.Other())
    {
      ghost var nodes, lvls, free := pool.nodes[..], levels[..], pool.free;
      SlotIsQueue(nodes, owner, side, lvls, chains, orders, free, idx);
      OrdersAfterPush(side, orders, order);
      i := PushOrder(idx, order, pool, chains[idx], orders[idx]);
      owner' := OwnersAfterPush(owner, pool.nodes.Length, i, Queue(side, idx));
      HostsAfterPush(nodes, owner, pool.nodes[..], side, lvls, chains, orders, free, pool.free, order, i, levels[idx]);
    }

    /** Queues an order behind those already at its price slot. */
    method Insert(order: Order, pool: OrderPool, ghost owner: seq<Home>) returns (ghost owner': seq<Home>)
      requires pool.Valid() && pool.HasRoom() && FreeHomes(owner, pool.free) && Valid(pool.nodes[..], owner)
      requires order.side == side && !KillFlags.Reserved(order.id)
      modifies this, levels, bitmap.l0, bitmap.l1, pool, pool.nodes
      ensures pool.Valid() && (pool.nodes == old(pool.nodes) || fresh(pool.nodes))
      ensures FreeHomes(owner', pool.free) && Valid(pool.nodes[..], owner')
      ensures KeepsSide(old(pool.nodes[..]), owner, pool.nodes[..], owner', side.Other())
      ensures orders == old(AppendAt(orders, order))
    {
      var idx := IndexOf(order.price);
      ghost var i;
      OrdersAfterPush(side, orders, order);
      i, owner' := PlaceInSlot(idx, order, pool, owner);
      chains := chains[idx := chains[idx] + [i]];
      orders := AppendAt(orders, order);
    }

    /** The slot that trades first, by the bitmap. */
    method BestSlot(ghost nodes: seq<OrderNode>, ghost owner: seq<Home>) returns (found: bool, idx: nat)
      requires Valid(nodes, owner)
      ensures found ==> Best(side, orders, idx) && idx < levels.Length
      ensures !found ==> forall k: nat | k < |orders| :: orders[k] == []
    {
      if side.Buy? {
        found, idx := bitmap.FindHighest();
      } else {
        found, idx := bitmap.FindLowest();
      }
      OccupiedBest(side, orders, found, idx);
    }

    /** The order that trades first. */
    method Front(idx: nat, pool: OrderPool, ghost owner: seq<Home>) returns (o: Order)
      requires Valid(pool.nodes[..], owner) && idx < levels.Length && orders[idx] != []
      ensures o == orders[idx][0]
    {
      assert SlotOk(pool.nodes[..], owner, Queue(side, idx), levels[idx], chains[idx], orders[idx]);
      o := LevelFront(levels, idx, pool, chains[idx], orders[idx]);
    }

    // Everything a removal does except to the ghost fields of this side
    method TakeFromSlot(idx: nat, pool: OrderPool, ghost owner: seq<Home>) returns (ghost owner': seq<Home>)
      requires pool.Valid() && FreeHomes(owner, pool.free) && Valid(pool.nodes[..], owner)
      requires idx < levels.Length && orders[idx] != []
      modifies levels, bitmap.l0, bitmap.l1, pool, pool.nodes
      ensures pool.Valid() && pool.nodes == old(pool.nodes) && chains[idx] != []
      ensures bitmap.Valid() && bitmap.Members() == Occupied(orders[idx := orders[idx][1..]])
          && FreeHomes(owner', pool.free)
      ensures Hosts(pool.nodes[..], owner', side, levels[..], chains[idx := chains[idx][1..]],
          orders[idx := orders[idx][1..]])
      ensures KeepsSide(old(pool.nodes[..]), owner, pool.nodes[..], owner', side.Other())
    {
      ghost var nodes, lvls, free := pool.nodes[..], levels[..], pool.free;
      SlotIsQueue(nodes, owner, side, lvls, chains, orders, free, idx);
      OrdersAfterTail(side, orders, idx);
      PopOrder(idx, pool, chains[idx], orders[idx]);
      HostsAfterPop(nodes, owner, pool.nodes[..], side, lvls, chains, orders, free, idx, levels[idx]);
      owner' := owner[chains[idx][0] := Free];
    }

    /** Takes the front order of a slot out of the book. */
    method PopFront(idx: nat, pool: OrderPool, ghost owner: seq<Home>) returns (ghost owner': seq<Home>)
      requires pool.Valid() && FreeHomes(owner, pool.free) && Valid(pool.nodes[..], owner)
      requires idx < levels.Length && orders[idx] != []
      modifies this, levels, bitmap.l0, bitmap.l1, pool, pool.nodes
      ensures pool.Valid() && pool.nodes == old(pool.nodes)
      ensures FreeHomes(owner', pool.free) && Valid(pool.nodes[..], owner')
      ensures KeepsSide(old(pool.nodes[..]), owner, pool.nodes[..], owner', side.Other())
      ensures orders == old(orders[idx := orders[idx][1..]])
    {
      OrdersAfterTail(side, orders, idx);
      owner' := TakeFromSlot(idx, pool, owner);
      chains := chains[idx := chains[idx][1..]];
      orders := orders[idx := orders[idx][1..]];
    }

    // The writes of a removal
    method PopOrder(idx: nat, pool: OrderPool, ghost chain: seq<nat>, ghost q: seq<Order>)
      requires idx < levels.Length == PRICE_WINDOW && bitmap.Valid()
      requires pool.Valid() && LevelOk(pool.nodes[..], levels[idx], chain, q) && chain != []
      requires forall n | n in chain :: n !in pool.free
      modifies levels, bitmap.l0, bitmap.l1, pool, pool.nodes
      ensures pool.Valid() && pool.nodes == old(pool.nodes) && pool.free == [chain[0]] + old(pool.free)
      ensures bitmap.Valid() && bitmap.Members() == old(bitmap.Members()) - if |q| == 1 then {idx} else {}
      ensures levels[..] == old(levels[..])[idx := levels[idx]]
      ensures LevelOk(pool.nodes[..], levels[idx], chain[1..], q[1..])
      ensures SameOff(old(pool.nodes[..]), pool.nodes[..], chain)
    {
      LevelPopFront(levels, idx, pool, chain, q);
      if levels[idx].count == 0 {
        bitmap.Clear(idx);
      }
    }

    /** Changes the front order of a slot in place; its id, price and side stay. */
    method SetFront(idx: nat, o: Order, pool: OrderPool, ghost owner: seq<Home>)
      requires pool.Valid() && FreeHomes(owner, pool.free) && Valid(pool.nodes[..], owner)
      requires idx < levels.Length && orders[idx] != [] && o == orders[idx][0].(qty := o.qty)
      modifies this, pool.nodes
      ensures pool.Valid() && Valid(pool.nodes[..], owner)
      ensures KeepsSide(old(pool.nodes[..]), owner, pool.nodes[..], owner, side.Other())
      ensures orders == old(orders)[idx := old(orders)[idx][0 := o]]
    {
      ghost var nodes, lvls := pool.nodes[..], levels[..];
      ghost var chain, q := chains[idx], orders[idx];
      SlotIsQueue(nodes, owner, side, lvls, chains, orders, pool.free, idx);
      OrdersAfterChange(side, orders, idx, o);
      SetLevelFront(levels, idx, pool, o, chain, q);
      ghost var nodes' := pool.nodes[..];
      HostsAfterChange(nodes, owner, nodes', side, lvls, chains, orders, idx, q[0 := o]);
      orders := orders[idx := q[0 := o]];
      assert pool.nodes[..] == nodes' && levels[..] == lvls && lvls[idx := lvls[idx]] == lvls;
      assert Hosts(pool.nodes[..], owner, side, levels[..], chains, orders);
      assert bitmap.Valid() && bitmap.Members() == Occupied(orders);
      assert OrdersOk(side, orders);
      assert Valid(pool.nodes[..], owner);
    }
  }
}

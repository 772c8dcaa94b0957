/** The node slab of a book: one growing array of order nodes that carries the free list and
    every price level's queue. */
module OrderPools {
  import opened Orders
  import opened Wrappers
  import opened Levels

  // A longer array with the same first nodes and default nodes after them
  method Resized(was: array<OrderNode>, count: nat) returns (grown: array<OrderNode>)
    ensures fresh(grown) && grown.Length == was.Length + count && grown[..was.Length] == was[..]
  {
    grown := new OrderNode[was.Length + count](_ => OrderNode(DEFAULT_ORDER, NIL, NIL));
    forall i | 0 <= i < was.Length {
      grown[i] := was[i];
    }
  }

  class OrderPool {
    var nodes: array<OrderNode>
    var free_head: nat
    ghost var free: seq<nat>

    ghost predicate Valid()
      reads this, nodes
    {
      nodes.Length <= ORDER_POOL_MAX_CAP && FreeList(nodes[..], free_head, free)
    }

    /** The pool can take another order. */
    ghost predicate HasRoom()
      reads this
    {
      free != [] || nodes.Length < ORDER_POOL_MAX_CAP
    }

    constructor ()
      ensures Valid() && fresh(nodes) && nodes.Length == ORDER_POOL_INITIAL_CAP
      ensures forall n: nat :: n in free <==> n < nodes.Length
    {
      nodes := new OrderNode[0];
      free_head, free := NIL, [];
      new;
      Grow(ORDER_POOL_INITIAL_CAP);
    }

    method Grow(count: nat)
      requires Valid() && nodes.Length + count <= ORDER_POOL_MAX_CAP
      modifies this
      ensures Valid() && nodes.Length == old(nodes.Length) + count && (count > 0 ==> fresh(nodes) && free != [])
      ensures count == 0 ==> nodes == old(nodes)
      ensures nodes[..old(nodes.Length)] == old(nodes[..])
      ensures forall n: nat :: n in free <==> n in old(free) || old(nodes.Length) <= n < nodes.Length
    {
      if count == 0 {
        return;
      }
      var oldSize := nodes.Length;
      ghost var was := nodes[..];
      nodes := Resized(nodes, count);
      var i := oldSize;
      while i + 1 < nodes.Length
        invariant oldSize <= i < nodes.Length == oldSize + count && nodes[..oldSize] == was && fresh(nodes)
        invariant free == old(free) && free_head == old(free_head)
        invariant forall j: nat | oldSize <= j < i :: nodes[j].next == j + 1
      {
        nodes[i] := nodes[i].(next := i + 1);
        i := i + 1;
      }
      nodes[i] := nodes[i].(next := free_head);
      ghost var run := seq(count, j requires 0 <= j => oldSize + j);
      SplicedFree(was, nodes[..], free_head, free, run, oldSize);
      free_head := oldSize;
      free := run + free;
    }

    /** Takes a node for the order. Nothing is left to take exactly when the pool is at its
        maximum and the free list is empty, which the caller learns as None. */
    method Acquire(order: Order) returns (r: Option<nat>)
      requires Valid()
      modifies this, nodes
      ensures Valid() && (nodes == old(nodes) || fresh(nodes)) && old(nodes.Length) <= nodes.Length
      ensures r.Some? <==> old(HasRoom())
      ensures nodes.Length == old(nodes.Length)
                + if old(free) != [] then 0 else Min(ORDER_POOL_GROWTH_CHUNK, ORDER_POOL_MAX_CAP - old(nodes.Length))
      ensures r.None? ==> nodes == old(nodes) && nodes[..] == old(nodes[..]) && free == old(free)
      ensures r.Some? ==>
                && r.value < nodes.Length && nodes[r.value] == OrderNode(order, NIL, NIL)
                && (r.value in old(free) || old(nodes.Length) <= r.value)
                && (forall n: nat | n < old(nodes.Length) && n != r.value :: nodes[n] == old(nodes[..])[n])
                && (forall n: nat :: n in free <==>
                      (n in old(free) || old(nodes.Length) <= n < nodes.Length) && n != r.value)
    {
      if free_head == NIL {
        FreeHeadNil(nodes[..], free_head, free);
        if nodes.Length >= ORDER_POOL_MAX_CAP {
          return None;
        }
        var chunk := Min(ORDER_POOL_GROWTH_CHUNK, ORDER_POOL_MAX_CAP - nodes.Length);
        Grow(chunk);
      }
      FreeHeadNil(nodes[..], free_head, free);
      ghost var before := nodes[..];
      var idx := free_head;
      TakenFree(before, before[idx := OrderNode(order, NIL, NIL)], idx, free);
      free_head := nodes[idx].next;
      nodes[idx] := OrderNode(order, NIL, NIL);
      free := free[1..];
      assert nodes[..] == before[idx := nodes[idx]];
      r := Some(idx);
    }

    /** Whether an order can still be taken. */
    method Room() returns (room: bool)
      requires Valid()
      ensures room == HasRoom()
    {
      FreeHeadNil(nodes[..], free_head, free);
      room := free_head != NIL || nodes.Length < ORDER_POOL_MAX_CAP;
    }

    method Release(idx: nat)
      requires Valid() && idx < nodes.Length && idx !in free
      modifies this, nodes
      ensures Valid() && nodes == old(nodes) && free == [idx] + old(free)
      ensures nodes[..] == old(nodes[..])[idx := nodes[idx]] && nodes[idx].order == old(nodes[idx].order)
    {
      ghost var before := nodes[..];
      ReleasedFree(before, before[idx := before[idx].(next := free_head)], free_head, free, idx);
      nodes[idx] := nodes[idx].(next := free_head);
      assert nodes[..] == before[idx := nodes[idx]];
      free_head := idx;
      free := [idx] + free;
    }
  }

  // ---------- level queues ----------

  // Links an acquired node behind a level's tail
  method LinkAtTail(levels: array<PriceLevel>, k: nat, pool: OrderPool, i: nat, order: Order,
                    ghost chain: seq<nat>, ghost os: seq<Order>)
    requires pool.Valid() && k < levels.Length && LevelOk(pool.nodes[..], levels[k], chain, os)
    requires i < pool.nodes.Length && pool.nodes[i] == OrderNode(order, NIL, NIL) && i !in chain && i !in pool.free
    requires forall n | n in chain :: n !in pool.free
    modifies levels, pool.nodes
    ensures pool.Valid() && levels[..] == old(levels[..])[k := levels[k]]
    ensures LevelOk(pool.nodes[..], levels[k], chain + [i], os + [order])
    ensures forall n: nat | n < pool.nodes.Length && n != i && n !in chain :: pool.nodes[n] == old(pool.nodes[n])
  {
    ghost var before, lvl := pool.nodes[..], levels[k];
    PushedLevel(before, lvl, chain, os, i, order);
    FreeFrame(before, LinkedNodes(before, lvl, i), pool.free_head, pool.free);
    if levels[k].tail == NIL {
      levels[k] := levels[k].(head := i, tail := i);
    } else {
      var tail := levels[k].tail;
      pool.nodes[tail] := pool.nodes[tail].(next := i);
      pool.nodes[i] := pool.nodes[i].(prev := tail);
      levels[k] := levels[k].(tail := i);
    }
    levels[k] := levels[k].(count := levels[k].count + 1);
    assert pool.nodes[..] == LinkedNodes(before, lvl, i);
  }

  /** Appends an order to a level's queue. Only the new node and the old tail are written. */
  method LevelPushBack(levels: array<PriceLevel>, k: nat, pool: OrderPool, order: Order,
                       ghost chain: seq<nat>, ghost os: seq<Order>) returns (ghost idx: nat)
    requires pool.Valid() && pool.HasRoom() && k < levels.Length && LevelOk(pool.nodes[..], levels[k], chain, os)
    requires forall n | n in chain :: n !in pool.free
    modifies levels, pool, pool.nodes
    ensures pool.Valid() && (pool.nodes == old(pool.nodes) || fresh(pool.nodes))
    ensures levels[..] == old(levels[..])[k := levels[k]]
    ensures LevelOk(pool.nodes[..], levels[k], chain + [idx], os + [order])
    ensures PushEffect(old(pool.nodes[..]), old(pool.free), pool.nodes[..], pool.free, chain, idx)
  {
    ghost var before := pool.nodes[..];
    var r := pool.Acquire(order);
    idx := r.value;
    LevelFrame(before, pool.nodes[..], levels[k], chain, os);
    LinkAtTail(levels, k, pool, r.value, order, chain, os);
  }

  // Takes the head node out of a level's queue
  method UnlinkHead(levels: array<PriceLevel>, k: nat, pool: OrderPool, ghost chain: seq<nat>, ghost os: seq<Order>)
    returns (idx: nat)
    requires pool.Valid() && k < levels.Length && LevelOk(pool.nodes[..], levels[k], chain, os) && chain != []
    requires forall n | n in chain :: n !in pool.free
    modifies levels, pool.nodes
    ensures pool.Valid() && levels[..] == old(levels[..])[k := levels[k]]
    ensures idx == chain[0] && idx !in chain[1..] && idx < pool.nodes.Length
    ensures LevelOk(pool.nodes[..], levels[k], chain[1..], os[1..])
    ensures forall n: nat | n < pool.nodes.Length && n !in chain :: pool.nodes[n] == old(pool.nodes[n])
  {
    ghost var before, lvl := pool.nodes[..], levels[k];
    PoppedLevel(before, lvl, chain, os);
    idx := levels[k].head;
    var next := pool.nodes[idx].next;
    FreeFrame(before, UnlinkedNodes(before, next), pool.free_head, pool.free);
    levels[k] := levels[k].(head := next, count := levels[k].count - 1);
    if next != NIL {
      pool.nodes[next] := pool.nodes[next].(prev := NIL);
    } else {
      levels[k] := levels[k].(tail := NIL);
    }
    assert pool.nodes[..] == UnlinkedNodes(before, next);
  }

  /** Removes the front order of a level's queue and frees its node. */
  method LevelPopFront(levels: array<PriceLevel>, k: nat, pool: OrderPool, ghost chain: seq<nat>, ghost os: seq<Order>)
    requires pool.Valid() && k < levels.Length && LevelOk(pool.nodes[..], levels[k], chain, os) && chain != []
    requires forall n | n in chain :: n !in pool.free
    modifies levels, pool, pool.nodes
    ensures pool.Valid() && pool.nodes == old(pool.nodes) && pool.free == [chain[0]] + old(pool.free)
    ensures levels[..] == old(levels[..])[k := levels[k]]
    ensures LevelOk(pool.nodes[..], levels[k], chain[1..], os[1..])
    ensures forall n: nat | n < pool.nodes.Length && n !in chain :: pool.nodes[n] == old(pool.nodes[n])
  {
    var idx := UnlinkHead(levels, k, pool, chain, os);
    ghost var unlinked := pool.nodes[..];
    assert idx in chain;
    pool.Release(idx);
    LevelFrame(unlinked, pool.nodes[..], levels[k], chain[1..], os[1..]);
  }

  /** The front order of a level's queue. */
  method LevelFront(levels: array<PriceLevel>, k: nat, pool: OrderPool, ghost chain: seq<nat>, ghost os: seq<Order>)
    returns (o: Order)
    requires k < levels.Length && LevelOk(pool.nodes[..], levels[k], chain, os) && chain != []
    ensures o == os[0]
  {
    ChangedFront(pool.nodes[..], levels[k], chain, os, os[0]);
    o := pool.nodes[levels[k].head].order;
  }

  /** Writing to the front order in place. */
  method SetLevelFront(levels: array<PriceLevel>, k: nat, pool: OrderPool, o: Order, ghost chain: seq<nat>,
      ghost os: seq<Order>)
    requires pool.Valid() && k < levels.Length && LevelOk(pool.nodes[..], levels[k], chain, os) && chain != []
    requires forall n | n in chain :: n !in pool.free
    modifies pool.nodes
    ensures pool.Valid() && LevelOk(pool.nodes[..], levels[k], chain, os[0 := o])
    ensures forall n: nat | n < pool.nodes.Length && n !in chain :: pool.nodes[n] == old(pool.nodes[n])
  {
    ghost var before := pool.nodes[..];
    ChangedFront(before, levels[k], chain, os, o);
    var head := levels[k].head;
    FreeFrame(before, before[head := before[head].(order := o)], pool.free_head, pool.free);
    pool.nodes[head] := pool.nodes[head].(order := o);
    assert pool.nodes[..] == before[head := before[head].(order := o)];
  }
}

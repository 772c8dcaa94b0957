/** Taking the snapshot of a book: both sides slot by slot, each slot's queue from its head. */
module BookSnapshots {
  import opened Config
  import opened Wrappers
  import opened Orders
  import opened Levels
  import opened OrderPools
  import opened Flattening
  import opened Homes
  import opened BookSides
  import opened RestingBooks
  import opened LazyBooks
  import opened OrderBooks
  import opened Snapshots
  import opened KillFlags

  method IsKilled(killed_orders: KillFlagTable, o: Order) returns (dead: bool)
    requires killed_orders.Valid() && !Reserved(o.id)
    ensures dead == Killed(killed_orders.contents, o)
  {
    var flag := killed_orders.Find(o.id);
    dead := flag.Some? && killed_orders.slots[flag.value].value;
  }

  // The node at position p of a queue
  method NodeAt(pool: OrderPool, cur: nat, ghost lvl: PriceLevel, ghost chain: seq<nat>, ghost q: seq<Order>,
      ghost p: nat)
    returns (n: OrderNode)
    requires LevelOk(pool.nodes[..], lvl, chain, q) && cur == Link(chain, p) && cur != NIL
    ensures p < |chain| && n.order == q[p] && n.order in q && n.next == Link(chain, p + 1)
  {
    assert p < |chain| && QueueNode(pool.nodes[..], chain, q, p);
    n := pool.nodes[cur];
  }

  /** Adds the live orders of one level, in queue order, until the side is full. */
  method VisitLevel(levels: array<PriceLevel>, k: nat, pool: OrderPool, killed_orders: KillFlagTable,
                    before: seq<Order>, ghost chain: seq<nat>, ghost q: seq<Order>) returns (out: seq<Order>)
    requires k < levels.Length && LevelOk(pool.nodes[..], levels[k], chain, q) && killed_orders.Valid()
    requires (forall o | o in q :: !Reserved(o.id)) && |before| <= SNAPSHOT_LEN
    ensures out == FirstFew(before + LiveOf(q, killed_orders.contents))
  {
    out := before;
    var cur := levels[k].head;
    ghost var p, flags := 0, killed_orders.contents;
    assert before + LiveOf([], flags) == before;
    while cur != NIL && |out| < SNAPSHOT_LEN
      invariant p <= |chain| && cur == Link(chain, p) && |out| <= SNAPSHOT_LEN
      invariant out == before + LiveOf(q[..p], flags)
      decreases |chain| - p
    {
      var n := NodeAt(pool, cur, levels[k], chain, q, p);
      var dead := IsKilled(killed_orders, n.order);
      LevelStep(before, q, p, flags, out);
      if !dead {
        out := out + [n.order];
      }
      cur := n.next;
      p := p + 1;
    }
    if cur == NIL {
      QueueEnd(pool.nodes[..], levels[k], chain, q, p);
    }
    LevelDone(before, q, p, flags, out);
  }

  method VisitSlot(on: BookSide, k: nat, pool: OrderPool, killed_orders: KillFlagTable, before: seq<Order>,
      ghost owner: seq<Home>)
    returns (out: seq<Order>)
    requires on.Valid(pool.nodes[..], owner) && killed_orders.Valid() && k < |on.orders| && |before| <= SNAPSHOT_LEN
    ensures out == FirstFew(before + LiveOf(on.orders[k], killed_orders.contents))
  {
    assert SlotOk(pool.nodes[..], owner, Queue(on.side, k), on.levels[k], on.chains[k], on.orders[k]);
    out := VisitLevel(on.levels, k, pool, killed_orders, before, on.chains[k], on.orders[k]);
  }

  // The occupied slots in the order the snapshot visits them
  method VisitingOrder(on: BookSide, ghost nodes: seq<OrderNode>, ghost owner: seq<Home>) returns (visit: seq<nat>)
    requires on.Valid(nodes, owner)
    ensures Visits(on.side, on.orders, visit)
  {
    if on.side.Buy? {
      visit := on.bitmap.Descending();
    } else {
      visit := on.bitmap.Ascending();
    }
  }

  // What a walk over a side reads: a valid side holding the slots `os`, and a table holding `flags`; sealed
  ghost predicate Reading(on: BookSide, pool: OrderPool, killed_orders: KillFlagTable, owner: seq<Home>,
                          os: Slots, flags: map<int, bool>)
    reads on, on.levels, on.bitmap.l0, on.bitmap.l1, pool, pool.nodes, killed_orders, killed_orders.slots
  {
    forall key: bool {:trigger Unseal(key)} :: Unseal(key) ==>
      && on.Valid(pool.nodes[..], owner) && on.orders == os
      && killed_orders.Valid() && killed_orders.contents == flags
  }

  // One more slot of the visit
  method CollectSlot(on: BookSide, visit: seq<nat>, i: nat, pool: OrderPool, killed_orders: KillFlagTable,
                     before: seq<Order>, ghost owner: seq<Home>,
                     ghost os: Slots, ghost flags: map<int, bool>) returns (out: seq<Order>)
    requires Reading(on, pool, killed_orders, owner, os, flags) && i < |visit|
    requires Collected(on.side, os, visit, i, flags, before)
    ensures Collected(on.side, os, visit, i + 1, flags, out)
  {
    assert Unseal(true);
    CollectedNext(on.side, os, visit, i, flags, before);
    out := VisitSlot(on, visit[i], pool, killed_orders, before, owner);
    CollectedMore(on.side, os, visit, i, flags, before, out);
  }

  // The first live orders of a side, slot by slot in the visiting order of its bitmap
  method CollectVisited(on: BookSide, visit: seq<nat>, pool: OrderPool, killed_orders: KillFlagTable,
                        ghost owner: seq<Home>, ghost os: Slots, ghost flags: map<int, bool>) returns (out: seq<Order>)
    requires Reading(on, pool, killed_orders, owner, os, flags) && Visits(on.side, os, visit)
    ensures out == FirstFew(LiveOf(Flat(on.side, os), flags))
  {
    var i := 0;
    out := [];
    CollectedNone(on.side, os, visit, flags);
    while i < |visit| && |out| < SNAPSHOT_LEN
      invariant i <= |visit| && Collected(on.side, os, visit, i, flags, out)
    {
      out := CollectSlot(on, visit, i, pool, killed_orders, out, owner, os, flags);
      i := i + 1;
    }
    CollectedAll(on.side, os, visit, i, flags, out);
  }

  /** The first live orders of a side. */
  method Collect(on: BookSide, pool: OrderPool, killed_orders: KillFlagTable, ghost owner: seq<Home>)
      returns (out: seq<Order>)
    requires on.Valid(pool.nodes[..], owner) && killed_orders.Valid()
    ensures out == FirstFew(LiveOf(Flat(on.side, on.orders), killed_orders.contents))
  {
    assert Reading(on, pool, killed_orders, owner, on.orders, killed_orders.contents);
    var visit := VisitingOrder(on, pool.nodes[..], owner);
    out := CollectVisited(on, visit, pool, killed_orders, owner, on.orders, killed_orders.contents);
  }

  /** The snapshot of a book. */
  method CreateSnapshot(book: OrderBook) returns (snapshot: Snapshot)
    requires book.Valid()
    ensures snapshot == SnapshotOf(book.state)
  {
    assert Unseal(true);
    var resting := book.resting;
    var buySide := Collect(resting.bids, resting.pool, book.killed_orders, resting.owner);
    var sellSide := Collect(resting.asks, resting.pool, book.killed_orders, resting.owner);
    snapshot := Snapshot(Padded(buySide), Padded(sellSide));
  }
}

/** Lists threaded through the nodes of a slab: the free list, and the doubly linked queue of a
    price level. */
module Levels {
  import opened Orders

  const NIL: nat := 0xFFFF_FFFF
  const ORDER_POOL_INITIAL_CAP: nat := 16384
  const ORDER_POOL_GROWTH_CHUNK: nat := 16384
  const ORDER_POOL_MAX_CAP: nat := 0x100_0000

  datatype OrderNode = OrderNode(order: Order, prev: nat, next: nat)
  datatype PriceLevel = PriceLevel(head: nat, tail: nat, count: nat, levelPrice: int)

  const DEFAULT_ORDER := Order(0, 0, [0, 0, 0, 0], Sell, SendOrder, 0, 0, 0)
  const EMPTY_LEVEL := PriceLevel(NIL, NIL, 0, 0)

  ghost predicate NoDup(s: seq<nat>) {
    forall i, j | 0 <= i < j < |s| :: s[i] != s[j]
  }

  // Entry i of a chain, NIL past its end
  ghost function Link(chain: seq<nat>, i: int): nat {
    if 0 <= i < |chain| then chain[i] else NIL
  }

  lemma LinkMember(chain: seq<nat>, i: nat)
    ensures i < |chain| ==> Link(chain, i) in chain
  {}

  // Entry i of a free list points at the next one
  ghost predicate FreeNode(nodes: seq<OrderNode>, free: seq<nat>, i: nat)
    requires i < |free|
  {
    free[i] < |nodes| && nodes[free[i]].next == Link(free, i + 1)
  }

  /** `free` is the list that starts at the free head and follows the next links. */
  ghost predicate FreeList(nodes: seq<OrderNode>, freeHead: nat, free: seq<nat>) {
    && NoDup(free) && freeHead == Link(free, 0)
    && (forall n | n in free :: n < |nodes|)
    && forall i: nat | i < |free| :: FreeNode(nodes, free, i)
  }

  // Entry i of a queue holds its order and is linked both ways
  ghost predicate QueueNode(nodes: seq<OrderNode>, chain: seq<nat>, os: seq<Order>, i: nat)
    requires i < |chain| == |os|
  {
    chain[i] < |nodes| && nodes[chain[i]] == OrderNode(os[i], Link(chain, i - 1), Link(chain, i + 1))
  }

  /** `chain` is the doubly linked queue of a level, and holds the orders `os`. */
  ghost predicate LevelOk(nodes: seq<OrderNode>, lvl: PriceLevel, chain: seq<nat>, os: seq<Order>) {
    && lvl.count == |chain| == |os| && NoDup(chain)
    && lvl.head == Link(chain, 0) && lvl.tail == Link(chain, |chain| - 1)
    && (forall n | n in chain :: n < |nodes| < NIL)
    && forall i: nat | i < |chain| :: QueueNode(nodes, chain, os, i)
  }

  lemma SplicedFree(was: seq<OrderNode>, grown: seq<OrderNode>, freeHead: nat, free: seq<nat>, run: seq<nat>,
      oldSize: nat)
    requires FreeList(was, freeHead, free) && oldSize == |was| && 0 < |run| && |grown| == oldSize + |run|
    requires grown[..oldSize] == was
    requires forall j: nat | j < |run| :: run[j] == oldSize + j
    requires forall j: nat | oldSize <= j < |grown| - 1 :: grown[j].next == j + 1
    requires grown[|grown| - 1].next == freeHead
    ensures FreeList(grown, oldSize, run + free)
    ensures forall n: nat :: n in run + free <==> n in free || oldSize <= n < |grown|
  {
    forall n: nat | oldSize <= n < |grown| ensures n in run {
      assert run[n - oldSize] == n;
    }
    var all := run + free;
    forall i, j | 0 <= i < j < |all| ensures all[i] != all[j] {
      if j >= |run| {
        assert all[j] == free[j - |run|] && all[j] in free;
      }
    }
    forall i: nat | i < |all| ensures FreeNode(grown, all, i) {
      if i < |run| {
        assert all[i] == oldSize + i;
      } else {
        assert FreeNode(was, free, i - |run|);
        assert grown[all[i]] == was[all[i]];
      }
    }
  }

  lemma FreeHeadNil(nodes: seq<OrderNode>, freeHead: nat, free: seq<nat>)
    requires FreeList(nodes, freeHead, free) && |nodes| <= ORDER_POOL_MAX_CAP
    ensures freeHead == NIL <==> free == []
    ensures free != [] ==> freeHead in free && freeHead < |nodes|
  {
    assert free != [] ==> free[0] in free;
  }

  lemma TakenFree(before: seq<OrderNode>, after: seq<OrderNode>, freeHead: nat, free: seq<nat>)
    requires FreeList(before, freeHead, free) && free != [] && |after| == |before|
    requires freeHead < |before| && after == before[freeHead := after[freeHead]]
    ensures freeHead == free[0] < |before| && FreeList(after, before[freeHead].next, free[1..])
    ensures forall n: nat :: n in free[1..] <==> n in free && n != freeHead
  {
    assert free == [free[0]] + free[1..];
    assert forall n | n in free[1..] :: n in free;
    assert FreeNode(before, free, 0);
    forall i: nat | i < |free| - 1 ensures FreeNode(after, free[1..], i) {
      assert FreeNode(before, free, i + 1);
    }
  }

  lemma ReleasedFree(before: seq<OrderNode>, after: seq<OrderNode>, freeHead: nat, free: seq<nat>, idx: nat)
    requires FreeList(before, freeHead, free) && idx < |before| && idx !in free
    requires after == before[idx := before[idx].(next := freeHead)]
    ensures FreeList(after, idx, [idx] + free)
  {
    var all := [idx] + free;
    forall i: nat | i < |all| ensures FreeNode(after, all, i) {
      if i > 0 {
        assert all[i] == free[i - 1] && free[i - 1] in free && FreeNode(before, free, i - 1);
      }
    }
  }

  // Two node arrays agree on every node of a chain
  ghost predicate SameOn(before: seq<OrderNode>, after: seq<OrderNode>, chain: seq<nat>) {
    |before| <= |after| < NIL && forall n | n in chain :: n < |before| && after[n] == before[n]
  }

  lemma LevelFrame(before: seq<OrderNode>, after: seq<OrderNode>, lvl: PriceLevel, chain: seq<nat>, os: seq<Order>)
    requires LevelOk(before, lvl, chain, os) && SameOn(before, after, chain)
    ensures LevelOk(after, lvl, chain, os)
  {
    forall i: nat | i < |chain| ensures QueueNode(after, chain, os, i) {
      assert QueueNode(before, chain, os, i) && chain[i] in chain;
    }
  }

  // The nodes and the level after linking node idx behind the tail
  ghost function LinkedNodes(nodes: seq<OrderNode>, lvl: PriceLevel, idx: nat): seq<OrderNode>
    requires idx < |nodes| && (lvl.tail == NIL || lvl.tail < |nodes|)
  {
    if lvl.tail == NIL then nodes
    else nodes[lvl.tail := nodes[lvl.tail].(next := idx)][idx := nodes[idx].(prev := lvl.tail)]
  }

  ghost function LinkedLevel(lvl: PriceLevel, idx: nat): PriceLevel {
    lvl.(head := if lvl.tail == NIL then idx else lvl.head, tail := idx, count := lvl.count + 1)
  }

  lemma PushedLevel(nodes: seq<OrderNode>, lvl: PriceLevel, chain: seq<nat>, os: seq<Order>, idx: nat, order: Order)
    requires LevelOk(nodes, lvl, chain, os) && idx !in chain && idx < |nodes| < NIL
        && nodes[idx] == OrderNode(order, NIL, NIL)
    ensures lvl.tail == NIL || lvl.tail < |nodes|
    ensures LevelOk(LinkedNodes(nodes, lvl, idx), LinkedLevel(lvl, idx), chain + [idx], os + [order])
    ensures forall n: nat | n < |nodes| && n != idx && n !in chain :: LinkedNodes(nodes, lvl, idx)[n] == nodes[n]
  {
    var chain', os' := chain + [idx], os + [order];
    var last := |chain| - 1;
    assert chain != [] ==> lvl.tail == chain[last] && lvl.tail in chain;
    var nodes' := LinkedNodes(nodes, lvl, idx);
    forall i: nat | i < |chain'| ensures QueueNode(nodes', chain', os', i) {
      if i < |chain| {
        assert QueueNode(nodes, chain, os, i) && chain[i] in chain;
        assert i < last ==> chain[i] != chain[last];
      }
    }
  }

  // The nodes and the level after unlinking the head
  ghost function UnlinkedNodes(nodes: seq<OrderNode>, next: nat): seq<OrderNode>
    requires next == NIL || next < |nodes|
  {
    if next == NIL then nodes else nodes[next := nodes[next].(prev := NIL)]
  }

  ghost function UnlinkedLevel(lvl: PriceLevel, next: nat): PriceLevel
    requires lvl.count > 0
  {
    lvl.(head := next, tail := if next == NIL then NIL else lvl.tail, count := lvl.count - 1)
  }

  lemma PoppedLevel(nodes: seq<OrderNode>, lvl: PriceLevel, chain: seq<nat>, os: seq<Order>)
    requires LevelOk(nodes, lvl, chain, os) && chain != []
    ensures lvl.head < |nodes| && lvl.head == chain[0] && lvl.head !in chain[1..] && lvl.count > 0
    ensures var next := nodes[lvl.head].next;
            && (next == NIL || (next < |nodes| && next in chain && next != lvl.head))
            && LevelOk(UnlinkedNodes(nodes, next), UnlinkedLevel(lvl, next), chain[1..], os[1..])
  {
    var next, chain', os' := Link(chain, 1), chain[1..], os[1..];
    assert QueueNode(nodes, chain, os, 0);
    assert |chain| > 1 ==> chain[1] in chain;
    assert forall n | n in chain' :: n in chain;
    var nodes' := UnlinkedNodes(nodes, next);
    forall i: nat | i < |chain'| ensures QueueNode(nodes', chain', os', i) {
      assert QueueNode(nodes, chain, os, i + 1);
      assert i > 0 ==> chain[i + 1] != chain[1];
    }
  }

  lemma ChangedFront(nodes: seq<OrderNode>, lvl: PriceLevel, chain: seq<nat>, os: seq<Order>, o: Order)
    requires LevelOk(nodes, lvl, chain, os) && chain != []
    ensures lvl.head < |nodes| && lvl.head == chain[0] && nodes[lvl.head].order == os[0]
    ensures LevelOk(nodes[lvl.head := nodes[lvl.head].(order := o)], lvl, chain, os[0 := o])
  {
    assert QueueNode(nodes, chain, os, 0);
    var nodes', os' := nodes[lvl.head := nodes[lvl.head].(order := o)], os[0 := o];
    forall i: nat | i < |chain| ensures QueueNode(nodes', chain, os', i) {
      assert QueueNode(nodes, chain, os, i);
    }
  }

  lemma FreeFrame(before: seq<OrderNode>, after: seq<OrderNode>, freeHead: nat, free: seq<nat>)
    requires FreeList(before, freeHead, free) && |before| <= |after|
    requires forall n: nat | n in free :: after[n] == before[n]
    ensures FreeList(after, freeHead, free)
  {
    forall i: nat | i < |free| ensures FreeNode(after, free, i) {
      assert FreeNode(before, free, i) && free[i] in free;
    }
  }

  // What an append does to the slab: node i, free or newly grown, has joined the chain
  ghost predicate PushEffect(nodes: seq<OrderNode>, free: seq<nat>, nodes': seq<OrderNode>, free': seq<nat>,
                             chain: seq<nat>, i: nat) {
    && |nodes| <= |nodes'| && i < |nodes'| && (i in free || |nodes| <= i)
    && (forall n: nat | n < |nodes| && n != i && n !in chain :: nodes'[n] == nodes[n])
    && forall n: nat :: n in free' <==> (n in free || |nodes| <= n < |nodes'|) && n != i
  }
}

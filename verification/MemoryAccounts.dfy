/** Every node of the slab is accounted for: free, or one resting order. */
module MemoryAccounts {
  import opened Config
  import opened Wrappers
  import opened Orders
  import opened Levels
  import opened OrderPools
  import opened Flattening
  import opened BookSides
  import opened Homes
  import opened RestingBooks

  // How many of the nodes have this home
  ghost function CountAt(owner: seq<Home>, home: Home): nat {
    if owner == [] then 0 else CountAt(owner[..|owner| - 1], home) + if owner[|owner| - 1] == home then 1 else 0
  }

  // How many are at home in the first k slots of a side
  ghost function CountQueued(owner: seq<Home>, side: Side, k: nat): nat {
    if k == 0 then 0 else CountQueued(owner, side, k - 1) + CountAt(owner, Queue(side, k - 1))
  }

  ghost function HomeSet(owner: seq<Home>, home: Home): set<nat> {
    set n: nat | n < |owner| && owner[n] == home
  }

  ghost function ListSet(list: seq<nat>): set<nat> {
    set n | n in list
  }

  lemma {:induction false} CountedSet(owner: seq<Home>, home: Home)
    ensures |HomeSet(owner, home)| == CountAt(owner, home)
  {
    if owner == [] {
      assert HomeSet(owner, home) == {};
    } else {
      var last := |owner| - 1;
      CountedSet(owner[..last], home);
      assert HomeSet(owner, home) == HomeSet(owner[..last], home) + if owner[last] == home then {last} else {};
    }
  }

  lemma {:induction false} ListedSet(list: seq<nat>)
    requires NoDup(list)
    ensures |ListSet(list)| == |list|
  {
    if list == [] {
      assert ListSet(list) == {};
    } else {
      ListedSet(list[1..]);
      TailMembers(list);
      assert ListSet(list) == {list[0]} + ListSet(list[1..]);
    }
  }

  /** A list without repetition of exactly the nodes at home somewhere is as long as their number. */
  lemma ListLength(owner: seq<Home>, home: Home, list: seq<nat>)
    requires AtHome(owner, home, list) && NoDup(list)
    ensures |list| == CountAt(owner, home)
  {
    CountedSet(owner, home);
    ListedSet(list);
    assert ListSet(list) == HomeSet(owner, home);
  }

  lemma {:induction false} QueuedStep(owner: seq<Home>, side: Side, k: nat)
    requires owner != []
    ensures var last := owner[|owner| - 1];
            CountQueued(owner, side, k) == CountQueued(owner[..|owner| - 1], side, k)
              + if last.Queue? && last.side == side && last.slot < k then 1 else 0
  {
    if k > 0 {
      QueuedStep(owner, side, k - 1);
    }
  }

  lemma {:induction false} QueuedNone(side: Side, k: nat)
    ensures CountQueued([], side, k) == 0
  {
    if k > 0 {
      QueuedNone(side, k - 1);
    }
  }

  lemma {:induction false} EveryNodeCounted(owner: seq<Home>)
    requires forall n: nat | n < |owner| && owner[n].Queue? :: owner[n].slot < PRICE_WINDOW
    ensures CountAt(owner, Free) + CountQueued(owner, Buy, PRICE_WINDOW) + CountQueued(owner, Sell, PRICE_WINDOW)
        == |owner|
  {
    if owner == [] {
      QueuedNone(Buy, PRICE_WINDOW);
      QueuedNone(Sell, PRICE_WINDOW);
    } else {
      EveryNodeCounted(owner[..|owner| - 1]);
      QueuedStep(owner, Buy, PRICE_WINDOW);
      QueuedStep(owner, Sell, PRICE_WINDOW);
    }
  }

  lemma SlotLength(nodes: seq<OrderNode>, owner: seq<Home>, side: Side,
                   levels: seq<PriceLevel>, chains: seq<seq<nat>>, os: Slots, k: nat)
    requires Hosts(nodes, owner, side, levels, chains, os) && k < |os|
    ensures |os[k]| == CountAt(owner, Queue(side, k))
  {
    assert SlotOk(nodes, owner, Queue(side, k), levels[k], chains[k], os[k]);
    ListLength(owner, Queue(side, k), chains[k]);
  }

  lemma {:induction false} FlatLength(owner: seq<Home>, side: Side, os: Slots, k: nat)
    requires k <= |os| && forall j: nat | j < |os| :: |os[j]| == CountAt(owner, Queue(side, j))
    ensures |Flat(side, os[..k])| == CountQueued(owner, side, k)
  {
    if k == 0 {
      assert Flat(side, os[..0]) == [];
    } else {
      FlatLength(owner, side, os, k - 1);
      FlatLast(side, os, k);
    }
  }

  lemma FlatLast(side: Side, os: Slots, k: nat)
    requires 0 < k <= |os|
    ensures |Flat(side, os[..k])| == |Flat(side, os[..k - 1])| + |os[k - 1]|
  {
    assert os[..k][..k - 1] == os[..k - 1];
  }

  lemma SideLength(side: BookSide, nodes: seq<OrderNode>, owner: seq<Home>)
    requires side.Valid(nodes, owner)
    ensures |Flat(side.side, side.orders)| == CountQueued(owner, side.side, PRICE_WINDOW)
  {
    forall j: nat | j < |side.orders| ensures |side.orders[j]| == CountAt(owner, Queue(side.side, j)) {
      SlotLength(nodes, owner, side.side, side.levels[..], side.chains, side.orders, j);
    }
    FlatLength(owner, side.side, side.orders, PRICE_WINDOW);
    assert side.orders[..PRICE_WINDOW] == side.orders;
  }

  /** Free nodes and resting orders make up the slab. */
  lemma AllNodesAccounted(resting: RestingOrders)
    requires resting.Valid()
    ensures |resting.pool.free| + |resting.Of(Buy)| + |resting.Of(Sell)| == resting.pool.nodes.Length
  {
    assert Unseal(true);
    var owner, nodes := resting.owner, resting.pool.nodes[..];
    SideLength(resting.bids, nodes, owner);
    SideLength(resting.asks, nodes, owner);
    ListLength(owner, Free, resting.pool.free);
    EveryNodeCounted(owner);
    assert |owner| == |nodes| by {
      assert SlotOk(nodes, owner, Queue(Buy, 0), resting.bids.levels[0], resting.bids.chains[0],
          resting.bids.orders[0]);
    }
  }

  /** The pool has room exactly while fewer orders rest than it may have nodes. */
  lemma RoomWhileFew(resting: RestingOrders)
    requires resting.Valid()
    ensures resting.pool.HasRoom() <==> |resting.Of(Buy)| + |resting.Of(Sell)| < ORDER_POOL_MAX_CAP
  {
    AllNodesAccounted(resting);
    assert Unseal(true);
  }

  lemma AtMostCapacity(resting: RestingOrders)
    requires resting.Valid()
    ensures |resting.Of(Buy)| + |resting.Of(Sell)| <= ORDER_POOL_MAX_CAP
  {
    AllNodesAccounted(resting);
    assert Unseal(true);
  }

  // The node is in the queue of a side's slot
  ghost predicate Queued(resting: RestingOrders, side: Side, k: nat, n: nat)
    reads resting.bids, resting.asks
  {
    var chains := if side.Buy? then resting.bids.chains else resting.asks.chains;
    k < |chains| && n in chains[k]
  }

  lemma QueuedIsHome(resting: RestingOrders, side: Side, k: nat, n: nat)
    requires resting.Valid() && n < resting.pool.nodes.Length
    ensures |resting.owner| == resting.pool.nodes.Length
    ensures Queued(resting, side, k, n) <==> resting.owner[n] == Queue(side, k)
  {
    assert Unseal(true);
    var on, nodes := if side.Buy? then resting.bids else resting.asks, resting.pool.nodes[..];
    assert SlotOk(nodes, resting.owner, Queue(side, 0), on.levels[0], on.chains[0], on.orders[0]);
    if k < |on.chains| {
      assert SlotOk(nodes, resting.owner, Queue(side, k), on.levels[k], on.chains[k], on.orders[k]);
    }
  }

  /** Every node is in exactly one place: the free list, or the queue of one slot of one side. */
  lemma OnePlacePerNode(resting: RestingOrders, n: nat)
    requires resting.Valid() && n < resting.pool.nodes.Length
    ensures n in resting.pool.free <==> !exists side, k :: Queued(resting, side, k, n)
    ensures forall s1, k1, s2, k2 | Queued(resting, s1, k1, n) && Queued(resting, s2, k2, n) :: s1 == s2 && k1 == k2
  {
    QueuedIsHome(resting, Buy, 0, n);
    forall side, k: nat ensures Queued(resting, side, k, n) <==> resting.owner[n] == Queue(side, k) {
      QueuedIsHome(resting, side, k, n);
    }
    assert Unseal(true);
    if resting.owner[n].Queue? {
      assert Queued(resting, resting.owner[n].side, resting.owner[n].slot, n);
    }
  }
}

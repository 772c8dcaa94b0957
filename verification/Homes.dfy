/** Who owns each node of the shared slab, and what appending, removing and changing an order does
    to the queues of a side. */
module Homes {
  import opened Config
  import opened Orders
  import opened Levels
  import opened OrderPools
  import opened Flattening
  import KillFlags

  /** Where a node of the slab belongs. */
  datatype Home = Free | Queue(side: Side, slot: nat)

  // The nodes at home here are exactly those of the list
  ghost predicate AtHome(owner: seq<Home>, home: Home, list: seq<nat>) {
    && (forall n: nat | n in list :: n < |owner| && owner[n] == home)
    && (forall n: nat | n < |owner| && owner[n] == home :: n in list)
  }

  // The free list is the free nodes, and every other node is at home in some price slot
  ghost predicate FreeHomes(owner: seq<Home>, free: seq<nat>) {
    AtHome(owner, Free, free) && forall n: nat | n < |owner| && owner[n].Queue? :: owner[n].slot < PRICE_WINDOW
  }

  /** One slot: a well-formed queue holding the orders `q`, which are all the nodes at home there. */
  ghost predicate SlotOk(nodes: seq<OrderNode>, owner: seq<Home>, home: Home, lvl: PriceLevel, chain: seq<nat>,
      q: seq<Order>) {
    |owner| == |nodes| < NIL && LevelOk(nodes, lvl, chain, q) && AtHome(owner, home, chain)
  }

  /** The nodes at home in the side's slots are exactly its levels' queues, which hold `os`. */
  ghost predicate Hosts(nodes: seq<OrderNode>, owner: seq<Home>, side: Side,
                        levels: seq<PriceLevel>, chains: seq<seq<nat>>, os: Slots) {
    && |levels| == |chains| == |os|
    && forall k: nat | k < |levels| :: SlotOk(nodes, owner, Queue(side, k), levels[k], chains[k], os[k])
  }

  // A change of the slab that keeps the nodes of one home
  ghost predicate Keeps(nodes: seq<OrderNode>, owner: seq<Home>, nodes': seq<OrderNode>, owner': seq<Home>,
      home: Home) {
    && |nodes| == |owner| <= |nodes'| == |owner'| < NIL
    && (forall n: nat | n < |owner| && owner[n] == home :: owner'[n] == home && nodes'[n] == nodes[n])
    && (forall n: nat | n < |owner'| && owner'[n] == home :: n < |owner| && owner[n] == home)
  }

  // ... of every slot of a side
  ghost predicate KeepsSide(nodes: seq<OrderNode>, owner: seq<Home>, nodes': seq<OrderNode>, owner': seq<Home>,
      side: Side) {
    forall k: nat :: Keeps(nodes, owner, nodes', owner', Queue(side, k))
  }

  lemma SlotFrame(nodes: seq<OrderNode>, owner: seq<Home>, nodes': seq<OrderNode>, owner': seq<Home>, home: Home,
                  lvl: PriceLevel, chain: seq<nat>, q: seq<Order>)
    requires SlotOk(nodes, owner, home, lvl, chain, q) && Keeps(nodes, owner, nodes', owner', home)
    ensures SlotOk(nodes', owner', home, lvl, chain, q)
  {
    forall i: nat | i < |chain| ensures chain[i] < |nodes| && nodes'[chain[i]] == nodes[chain[i]] {
      assert chain[i] in chain;
    }
    LevelFrame(nodes, nodes', lvl, chain, q);
  }

  lemma HostsFrame(nodes: seq<OrderNode>, owner: seq<Home>, nodes': seq<OrderNode>, owner': seq<Home>, side: Side,
                   levels: seq<PriceLevel>, chains: seq<seq<nat>>, os: Slots)
    requires Hosts(nodes, owner, side, levels, chains, os) && KeepsSide(nodes, owner, nodes', owner', side)
    ensures Hosts(nodes', owner', side, levels, chains, os)
  {
    forall k: nat | k < |levels| ensures SlotOk(nodes', owner', Queue(side, k), levels[k], chains[k], os[k]) {
      assert Keeps(nodes, owner, nodes', owner', Queue(side, k));
      SlotFrame(nodes, owner, nodes', owner', Queue(side, k), levels[k], chains[k], os[k]);
    }
  }

  lemma HostsUpdate(nodes: seq<OrderNode>, owner: seq<Home>, nodes': seq<OrderNode>, owner': seq<Home>, side: Side,
                    levels: seq<PriceLevel>, chains: seq<seq<nat>>, os: Slots,
                    k: nat, lvl: PriceLevel, chain: seq<nat>, q: seq<Order>)
    requires Hosts(nodes, owner, side, levels, chains, os) && k < |levels|
    requires SlotOk(nodes', owner', Queue(side, k), lvl, chain, q)
    requires forall j: nat | j != k :: Keeps(nodes, owner, nodes', owner', Queue(side, j))
    ensures Hosts(nodes', owner', side, levels[k := lvl], chains[k := chain], os[k := q])
  {
    forall j: nat | j < |levels| && j != k ensures SlotOk(nodes', owner', Queue(side, j), levels[j], chains[j], os[j]) {
      assert Keeps(nodes, owner, nodes', owner', Queue(side, j));
      SlotFrame(nodes, owner, nodes', owner', Queue(side, j), levels[j], chains[j], os[j]);
    }
  }

  // ---------- the three changes of a slab ----------

  // The owners after an append: the grown nodes are free and node idx has moved in
  ghost function OwnersAfterPush(owner: seq<Home>, size: nat, idx: nat, home: Home): seq<Home>
    requires |owner| <= size && idx < size
  {
    (owner + seq(size - |owner|, _ => Free))[idx := home]
  }

  lemma OwnersAt(owner: seq<Home>, size: nat, idx: nat, home: Home)
    requires |owner| <= size && idx < size
    ensures var owner' := OwnersAfterPush(owner, size, idx, home);
            |owner'| == size && forall n: nat | n < size ::
              owner'[n] == if n == idx then home else if n < |owner| then owner[n] else Free
  {}

  lemma Pushed(nodes: seq<OrderNode>, owner: seq<Home>, nodes': seq<OrderNode>, owner': seq<Home>, home: Home,
               chain: seq<nat>, free: seq<nat>, free': seq<nat>, idx: nat)
    requires |nodes| == |owner| <= |nodes'| == |owner'| < NIL && idx < |nodes'|
    requires AtHome(owner, home, chain) && AtHome(owner, Free, free) && home != Free && (idx in free || |nodes| <= idx)
    requires forall n: nat | n < |owner'| :: owner'[n] == if n == idx then home else if n < |owner| then owner[n]
        else Free
    requires forall n: nat | n < |nodes| && n != idx && n !in chain :: nodes'[n] == nodes[n]
    requires forall n: nat :: n in free' <==> (n in free || |nodes| <= n < |nodes'|) && n != idx
    ensures AtHome(owner', home, chain + [idx]) && AtHome(owner', Free, free')
    ensures forall other | other != home && other != Free :: Keeps(nodes, owner, nodes', owner', other)
  {
    forall other | other != home && other != Free ensures Keeps(nodes, owner, nodes', owner', other) {
      forall n: nat | n < |owner| && owner[n] == other ensures owner'[n] == other && nodes'[n] == nodes[n] {}
    }
  }

  lemma TailMembers(chain: seq<nat>)
    requires chain != [] && NoDup(chain)
    ensures forall n :: n in chain <==> n == chain[0] || n in chain[1..]
    ensures chain[0] !in chain[1..]
  {
    assert chain == [chain[0]] + chain[1..];
  }

  lemma Popped(nodes: seq<OrderNode>, owner: seq<Home>, nodes': seq<OrderNode>, owner': seq<Home>, home: Home,
               chain: seq<nat>, free: seq<nat>)
    requires AtHome(owner, home, chain) && NoDup(chain) && chain != [] && home != Free && AtHome(owner, Free, free)
    requires |nodes'| == |nodes| == |owner| < NIL && chain[0] < |owner| && owner' == owner[chain[0] := Free]
    requires forall n: nat | n < |nodes| && n !in chain :: nodes'[n] == nodes[n]
    ensures AtHome(owner', home, chain[1..]) && AtHome(owner', Free, [chain[0]] + free)
    ensures forall other | other != home && other != Free :: Keeps(nodes, owner, nodes', owner', other)
  {
    TailMembers(chain);
    assert chain[0] in chain;
    forall n: nat ensures n in [chain[0]] + free <==> n == chain[0] || n in free {}
    forall other | other != home && other != Free ensures Keeps(nodes, owner, nodes', owner', other) {
      forall n: nat | n < |owner| && owner[n] == other ensures owner'[n] == other && nodes'[n] == nodes[n] {}
    }
  }

  lemma Changed(nodes: seq<OrderNode>, owner: seq<Home>, nodes': seq<OrderNode>, home: Home,
                lvl: PriceLevel, chain: seq<nat>, q: seq<Order>, q': seq<Order>)
    requires SlotOk(nodes, owner, home, lvl, chain, q)
    requires |nodes'| == |nodes| && LevelOk(nodes', lvl, chain, q')
    requires forall n: nat | n < |nodes| && n !in chain :: nodes'[n] == nodes[n]
    ensures SlotOk(nodes', owner, home, lvl, chain, q')
    ensures forall other | other != home :: Keeps(nodes, owner, nodes', owner, other)
  {}

  ghost function Occupied(os: Slots): set<nat> {
    set k: nat | k < |os| && os[k] != []
  }

  // Resting orders are coherent with their slots and carry ordinary ids
  ghost predicate OrdersOk(side: Side, os: Slots) {
    Coherent(side, os) && forall k: nat, o | k < |os| && o in os[k] :: !KillFlags.Reserved(o.id)
  }

  // Nodes outside a list are unchanged
  ghost predicate SameOff(nodes: seq<OrderNode>, nodes': seq<OrderNode>, list: seq<nat>) {
    |nodes'| == |nodes| && forall n: nat | n < |nodes| && n !in list :: nodes'[n] == nodes[n]
  }

  lemma OccupiedBest(side: Side, os: Slots, found: bool, idx: nat)
    requires found <==> Occupied(os) != {}
    requires found ==> idx in Occupied(os) && forall i | i in Occupied(os) :: if side.Buy? then i <= idx else idx <= i
    ensures found ==> Best(side, os, idx)
    ensures !found ==> forall k: nat | k < |os| :: os[k] == []
  {
    assert forall k: nat | k < |os| && os[k] != [] :: k in Occupied(os);
  }

  lemma HostsAfterPop(nodes: seq<OrderNode>, owner: seq<Home>, nodes': seq<OrderNode>, side: Side,
                      levels: seq<PriceLevel>, chains: seq<seq<nat>>, os: Slots, free: seq<nat>, k: nat,
                          lvl': PriceLevel)
    requires Hosts(nodes, owner, side, levels, chains, os) && FreeHomes(owner, free)
    requires k < |levels| && chains[k] != [] && os[k] != []
    requires SameOff(nodes, nodes', chains[k]) && LevelOk(nodes', lvl', chains[k][1..], os[k][1..])
    ensures |owner| == |nodes| && chains[k][0] < |owner|
    ensures var owner' := owner[chains[k][0] := Free];
            && Hosts(nodes', owner', side, levels[k := lvl'], chains[k := chains[k][1..]], os[k := os[k][1..]])
            && FreeHomes(owner', [chains[k][0]] + free) && KeepsSide(nodes, owner, nodes', owner', side.Other())
  {
    SlotIsQueue(nodes, owner, side, levels, chains, os, free, k);
    assert SlotOk(nodes, owner, Queue(side, k), levels[k], chains[k], os[k]);
    assert chains[k][0] in chains[k];
    var owner' := owner[chains[k][0] := Free];
    Popped(nodes, owner, nodes', owner', Queue(side, k), chains[k], free);
    HostsUpdate(nodes, owner, nodes', owner', side, levels, chains, os, k, lvl', chains[k][1..], os[k][1..]);
  }

  lemma HostsAfterChange(nodes: seq<OrderNode>, owner: seq<Home>, nodes': seq<OrderNode>, side: Side,
                         levels: seq<PriceLevel>, chains: seq<seq<nat>>, os: Slots, k: nat, q': seq<Order>)
    requires Hosts(nodes, owner, side, levels, chains, os) && k < |levels|
    requires SameOff(nodes, nodes', chains[k]) && LevelOk(nodes', levels[k], chains[k], q')
    ensures Hosts(nodes', owner, side, levels, chains, os[k := q'])
    ensures |owner| == |nodes| && KeepsSide(nodes, owner, nodes', owner, side.Other())
  {
    assert SlotOk(nodes, owner, Queue(side, k), levels[k], chains[k], os[k]);
    Changed(nodes, owner, nodes', Queue(side, k), levels[k], chains[k], os[k], q');
    HostsUpdate(nodes, owner, nodes', owner, side, levels, chains, os, k, levels[k], chains[k], q');
    assert levels[k := levels[k]] == levels && chains[k := chains[k]] == chains;
  }

  lemma OrdersAfterTail(side: Side, os: Slots, k: nat)
    requires OrdersOk(side, os) && k < |os| && os[k] != []
    ensures OrdersOk(side, os[k := os[k][1..]])
    ensures Occupied(os[k := os[k][1..]]) == Occupied(os) - if |os[k]| == 1 then {k} else {}
  {
    var os' := os[k := os[k][1..]];
    forall j: nat, x: Order | j < |os'| && x in os'[j] ensures x in os[j] {}
  }

  lemma OrdersAfterChange(side: Side, os: Slots, k: nat, o: Order)
    requires OrdersOk(side, os) && k < |os| && os[k] != [] && o == os[k][0].(qty := o.qty)
    ensures OrdersOk(side, os[k := os[k][0 := o]])
    ensures Occupied(os[k := os[k][0 := o]]) == Occupied(os)
  {
    var os' := os[k := os[k][0 := o]];
    assert os[k][0] in os[k];
    forall j: nat, x: Order | j < |os'| && x in os'[j] ensures x in os[j] || (j == k && x == o) {}
  }

  lemma SlotIsQueue(nodes: seq<OrderNode>, owner: seq<Home>, side: Side,
                    levels: seq<PriceLevel>, chains: seq<seq<nat>>, os: Slots, free: seq<nat>, k: nat)
    requires Hosts(nodes, owner, side, levels, chains, os) && AtHome(owner, Free, free) && k < |levels|
    ensures LevelOk(nodes, levels[k], chains[k], os[k]) && |nodes| == |owner|
    ensures forall n | n in chains[k] :: n !in free
  {
    assert SlotOk(nodes, owner, Queue(side, k), levels[k], chains[k], os[k]);
  }

  // The slots after an order joins the queue of its price
  function AppendAt(os: Slots, o: Order): Slots
    requires |os| == PRICE_WINDOW
  {
    os[IndexOf(o.price) := os[IndexOf(o.price)] + [o]]
  }

  lemma HostsAfterPush(nodes: seq<OrderNode>, owner: seq<Home>, nodes': seq<OrderNode>, side: Side,
                       levels: seq<PriceLevel>, chains: seq<seq<nat>>, os: Slots, free: seq<nat>, free': seq<nat>,
                       o: Order, i: nat, lvl': PriceLevel)
    requires Hosts(nodes, owner, side, levels, chains, os) && |os| == PRICE_WINDOW
    requires FreeHomes(owner, free) && |nodes'| < NIL
    requires PushEffect(nodes, free, nodes', free', chains[IndexOf(o.price)], i)
    requires LevelOk(nodes', lvl', chains[IndexOf(o.price)] + [i], os[IndexOf(o.price)] + [o])
    ensures |owner| == |nodes|
    ensures var k := IndexOf(o.price);
            var owner' := OwnersAfterPush(owner, |nodes'|, i, Queue(side, k));
            && Hosts(nodes', owner', side, levels[k := lvl'], chains[k := chains[k] + [i]], AppendAt(os, o))
            && FreeHomes(owner', free') && KeepsSide(nodes, owner, nodes', owner', side.Other())
  {
    var k := IndexOf(o.price);
    SlotIsQueue(nodes, owner, side, levels, chains, os, free, k);
    assert SlotOk(nodes, owner, Queue(side, k), levels[k], chains[k], os[k]);
    var owner' := OwnersAfterPush(owner, |nodes'|, i, Queue(side, k));
    OwnersAt(owner, |nodes'|, i, Queue(side, k));
    Pushed(nodes, owner, nodes', owner', Queue(side, k), chains[k], free, free', i);
    HostsUpdate(nodes, owner, nodes', owner', side, levels, chains, os, k, lvl', chains[k] + [i], os[k] + [o]);
  }

  lemma OrdersAfterPush(side: Side, os: Slots, o: Order)
    requires OrdersOk(side, os) && o.side == side && !KillFlags.Reserved(o.id)
    ensures OrdersOk(side, AppendAt(os, o)) && Occupied(AppendAt(os, o)) == Occupied(os) + {IndexOf(o.price)}
  {
    var os' := AppendAt(os, o);
    forall j: nat, x: Order | j < |os'| && x in os'[j] ensures x in os[j] || (j == IndexOf(o.price) && x == o) {}
  }
}

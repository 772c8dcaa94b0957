/** The depth snapshot: the first live orders of each side, in priority order. */
module Snapshots {
  import opened Config
  import opened Wrappers
  import opened Orders
  import opened Levels
  import opened OrderPools
  import opened PriceBitmaps
  import opened BookSides
  import opened Homes
  import opened Flattening
  import opened LazyBooks
  import opened KillFlags

  datatype Snapshot = Snapshot(buySide: seq<Order>, sellSide: seq<Order>)

  function FirstFew(s: seq<Order>): seq<Order> {
    if |s| <= SNAPSHOT_LEN then s else s[..SNAPSHOT_LEN]
  }

  // A side of the snapshot is an array of fixed length, filled up with default orders
  function Padded(s: seq<Order>): seq<Order>
    requires |s| <= SNAPSHOT_LEN
  {
    s + seq(SNAPSHOT_LEN - |s|, _ => DEFAULT_ORDER)
  }

  /** The first SNAPSHOT_LEN live orders of each side, then default orders. */
  function SnapshotOf(s: State): Snapshot {
    Snapshot(Padded(FirstFew(LiveOf(s.bids, s.flags))), Padded(FirstFew(LiveOf(s.asks, s.flags))))
  }

  lemma {:induction false} LiveAppend(a: seq<Order>, b: seq<Order>, flags: map<int, bool>)
    ensures LiveOf(a + b, flags) == LiveOf(a, flags) + LiveOf(b, flags)
  {
    if a == [] {
      assert a + b == b;
    } else {
      assert (a + b)[1..] == a[1..] + b;
      LiveAppend(a[1..], b, flags);
    }
  }

  lemma LevelStep(before: seq<Order>, q: seq<Order>, p: nat, flags: map<int, bool>, out: seq<Order>)
    requires p < |q| && out == before + LiveOf(q[..p], flags)
    ensures (if Killed(flags, q[p]) then out else out + [q[p]]) == before + LiveOf(q[..p + 1], flags)
  {
    assert q[..p + 1] == q[..p] + [q[p]];
    LiveAppend(q[..p], [q[p]], flags);
    assert [q[p]][1..] == [];
    if Killed(flags, q[p]) {
      assert LiveOf([q[p]], flags) == [];
    } else {
      assert LiveOf([q[p]], flags) == [q[p]];
      assert before + (LiveOf(q[..p], flags) + [q[p]]) == out + [q[p]];
    }
  }

  // What is already full stays what it is
  lemma FullStays(a: seq<Order>, b: seq<Order>)
    requires |FirstFew(a)| == SNAPSHOT_LEN
    ensures FirstFew(a + b) == FirstFew(a)
  {}

  lemma FewMore(a: seq<Order>, b: seq<Order>, flags: map<int, bool>)
    ensures FirstFew(FirstFew(LiveOf(a, flags)) + LiveOf(b, flags)) == FirstFew(LiveOf(a + b, flags))
  {
    LiveAppend(a, b, flags);
  }

  lemma QueueEnd(nodes: seq<OrderNode>, lvl: PriceLevel, chain: seq<nat>, q: seq<Order>, p: nat)
    requires LevelOk(nodes, lvl, chain, q) && p <= |chain| && Link(chain, p) == NIL
    ensures p == |q|
  {
    LinkMember(chain, p);
  }

  lemma LevelDone(before: seq<Order>, q: seq<Order>, p: nat, flags: map<int, bool>, out: seq<Order>)
    requires p <= |q| && out == before + LiveOf(q[..p], flags) && |out| <= SNAPSHOT_LEN
    requires p == |q| || |out| == SNAPSHOT_LEN
    ensures out == FirstFew(before + LiveOf(q, flags))
  {
    assert q == q[..p] + q[p..];
    LiveAppend(q[..p], q[p..], flags);
    if p == |q| {
      assert q[..p] == q;
    } else {
      assert before + LiveOf(q, flags) == out + LiveOf(q[p..], flags);
    }
  }

  // ---------- slots visited in order ----------

  // The orders in the slots at or above f (bids), or below f (asks)
  function Reached(side: Side, os: Slots, f: nat): seq<Order>
    requires f <= |os|
  {
    if side.Buy? then Flat(side, os[f..]) else Flat(side, os[..f])
  }

  // Moving the frontier over empty slots and then over slot k
  lemma ReachSlot(side: Side, os: Slots, f: nat, k: nat)
    requires f <= |os| && k < |os| && (if side.Buy? then k < f else f <= k)
    requires forall j: nat | j < |os| && (if side.Buy? then k < j < f else f <= j < k) :: os[j] == []
    ensures Reached(side, os, if side.Buy? then k else k + 1) == Reached(side, os, f) + os[k]
  {
    if side.Buy? {
      ReachDown(os, f, k);
    } else {
      ReachUp(os, f, k);
    }
  }

  lemma ReachDown(os: Slots, f: nat, k: nat)
    requires k < f <= |os| && forall j: nat | k < j < f :: os[j] == []
    ensures Flat(Buy, os[k..]) == Flat(Buy, os[f..]) + os[k]
  {
    var skipped, beyond := os[k + 1..f], os[f..];
    DropSplit(os, f, k);
    FlatSplit(Buy, [os[k]], skipped + beyond);
    FlatSplit(Buy, skipped, beyond);
    FlatEmpty(Buy, skipped);
    FlatOne(Buy, os[k]);
    assert Flat(Buy, beyond) + [] == Flat(Buy, beyond);
  }

  lemma DropSplit(os: Slots, f: nat, k: nat)
    requires k < f <= |os|
    ensures os[k..] == [os[k]] + (os[k + 1..f] + os[f..])
  {}

  lemma ReachUp(os: Slots, f: nat, k: nat)
    requires f <= k < |os| && forall j: nat | f <= j < k :: os[j] == []
    ensures Flat(Sell, os[..k + 1]) == Flat(Sell, os[..f]) + os[k]
  {
    var before, skipped := os[..f], os[f..k];
    assert os[..k + 1] == before + (skipped + [os[k]]);
    FlatSplit(Sell, before, skipped + [os[k]]);
    FlatSplit(Sell, skipped, [os[k]]);
    FlatEmpty(Sell, skipped);
    FlatOne(Sell, os[k]);
  }

  lemma ReachAll(side: Side, os: Slots, f: nat)
    requires f <= |os|
    ensures Reached(side, os, f) <= Flat(side, os)
    ensures (forall j: nat | j < |os| && (if side.Buy? then j < f else f <= j) :: os[j] == [])
        ==> Reached(side, os, f) == Flat(side, os)
  {
    assert os == os[..f] + os[f..];
    FlatSplit(side, os[..f], os[f..]);
    if forall j: nat | j < |os| && (if side.Buy? then j < f else f <= j) :: os[j] == [] {
      FlatEmpty(side, if side.Buy? then os[..f] else os[f..]);
    }
  }

  // The visiting order is the occupied slots, best first
  ghost predicate Visits(side: Side, os: Slots, visit: seq<nat>) {
    && |os| == PRICE_WINDOW
    && Visited(visit, Occupied(os), if side.Buy? then 0 else PRICE_WINDOW, side.Buy?)
  }

  // Where the first i visited slots end
  ghost function Frontier(side: Side, visit: seq<nat>, i: nat): nat
    requires i <= |visit|
  {
    if side.Buy? then if i == 0 then PRICE_WINDOW else visit[i - 1]
    else if i == 0 then 0 else visit[i - 1] + 1
  }

  lemma NextSlot(side: Side, os: Slots, visit: seq<nat>, i: nat)
    requires Visits(side, os, visit) && i < |visit|
    ensures visit[i] < |os| && Frontier(side, visit, i) <= |os| && Frontier(side, visit, i + 1) <= |os|
    ensures Reached(side, os, Frontier(side, visit, i + 1)) == Reached(side, os, Frontier(side, visit, i))
        + os[visit[i]]
  {
    var f, k := Frontier(side, visit, i), visit[i];
    assert visit[i] in visit;
    if i > 0 {
      assert visit[i - 1] in visit;
    }
    forall p | 0 <= p < |visit| ensures !(if side.Buy? then k < visit[p] < f else f <= visit[p] < k) {
      if p < i {
        assert p == i - 1 || if side.Buy? then visit[p] > visit[i - 1] else visit[p] < visit[i - 1];
      }
    }
    forall j: nat | j < |os| && (if side.Buy? then k < j < f else f <= j < k) ensures os[j] == [] {
      assert j !in visit;
      assert j !in Occupied(os);
    }
    ReachSlot(side, os, f, k);
  }

  lemma LastSlot(side: Side, os: Slots, visit: seq<nat>, i: nat, f: nat, flags: map<int, bool>)
    requires Visits(side, os, visit) && i <= |visit| && f == Frontier(side, visit, i) && f <= |os|
    requires i == |visit| || |FirstFew(LiveOf(Reached(side, os, f), flags))| == SNAPSHOT_LEN
    ensures FirstFew(LiveOf(Flat(side, os), flags)) == FirstFew(LiveOf(Reached(side, os, f), flags))
  {
    ReachAll(side, os, f);
    if i == |visit| {
      forall p | 0 <= p < |visit| ensures !(if side.Buy? then visit[p] < f else f <= visit[p]) {
        assert p == i - 1 || if side.Buy? then visit[p] > visit[i - 1] else visit[p] < visit[i - 1];
      }
      forall j: nat | j < |os| && (if side.Buy? then j < f else f <= j) ensures os[j] == [] {
        assert j !in visit;
        assert j !in Occupied(os);
      }
    } else {
      var a := Reached(side, os, f);
      var b := Flat(side, os)[|a|..];
      assert Flat(side, os) == a + b;
      LiveAppend(a, b, flags);
      FullStays(LiveOf(a, flags), LiveOf(b, flags));
    }
  }

  // What the first i visited slots contribute; sealed
  ghost predicate Collected(side: Side, os: Slots, visit: seq<nat>, i: nat, flags: map<int, bool>, out: seq<Order>) {
    forall key: bool {:trigger Unseal(key)} :: Unseal(key) ==>
      && Visits(side, os, visit) && i <= |visit| && Frontier(side, visit, i) <= |os|
      && out == FirstFew(LiveOf(Reached(side, os, Frontier(side, visit, i)), flags))
  }

  lemma CollectedNone(side: Side, os: Slots, visit: seq<nat>, flags: map<int, bool>)
    requires Visits(side, os, visit)
    ensures Collected(side, os, visit, 0, flags, [])
  {
    FlatEmpty(side, []);
  }

  lemma CollectedNext(side: Side, os: Slots, visit: seq<nat>, i: nat, flags: map<int, bool>, out: seq<Order>)
    requires Collected(side, os, visit, i, flags, out) && i < |visit|
    ensures visit[i] < |os| && |out| <= SNAPSHOT_LEN
  {
    assert Unseal(true);
    NextSlot(side, os, visit, i);
  }

  lemma CollectedMore(side: Side, os: Slots, visit: seq<nat>, i: nat, flags: map<int, bool>, before: seq<Order>,
      out: seq<Order>)
    requires Collected(side, os, visit, i, flags, before) && i < |visit| && visit[i] < |os|
    requires out == FirstFew(before + LiveOf(os[visit[i]], flags))
    ensures Collected(side, os, visit, i + 1, flags, out)
  {
    assert Unseal(true);
    NextSlot(side, os, visit, i);
    FewMore(Reached(side, os, Frontier(side, visit, i)), os[visit[i]], flags);
  }

  lemma CollectedAll(side: Side, os: Slots, visit: seq<nat>, i: nat, flags: map<int, bool>, out: seq<Order>)
    requires Collected(side, os, visit, i, flags, out) && (i == |visit| || |out| >= SNAPSHOT_LEN)
    ensures out == FirstFew(LiveOf(Flat(side, os), flags))
  {
    assert Unseal(true);
    LastSlot(side, os, visit, i, Frontier(side, visit, i), flags);
  }
}

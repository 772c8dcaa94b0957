/** The lazily cancelled, slot-ranked book behaves as the eagerly cancelled price-time book. */
module Refinement {
  import opened Orders
  import opened EagerBooks
  import opened LazyBooks
  import KillFlags

  /** What the book stands for: the reference book of its live orders. */
  function Abs(s: State): Book {
    Book(LiveOf(s.bids, s.flags), LiveOf(s.asks, s.flags), s.trades)
  }

  /** Distinct prices of the set fall into slots in the same order. */
  ghost predicate OrderPreserving(prices: iset<int>) {
    forall p, q | p in prices && q in prices && p < q :: IndexOf(p) < IndexOf(q)
  }

  ghost predicate SideInv(s: seq<Order>, side: Side, prices: iset<int>) {
    && OnSide(s, side) && Positive(s) && Sorted(BySlot, s) && DistinctIds(s)
    && forall o | o in s :: o.price in prices
  }

  /** What every request keeps. */
  ghost predicate Inv(s: State, prices: iset<int>) {
    && SideInv(s.bids, Buy, prices) && SideInv(s.asks, Sell, prices)
    && Ids(s.bids) !! Ids(s.asks) && Ids(s.bids) + Ids(s.asks) <= s.flags.Keys
    && forall id | id in s.flags :: !KillFlags.Reserved(id)
  }

  ghost predicate FrontAlive(s: seq<Order>, flags: map<int, bool>) {
    s != [] ==> !Killed(flags, s[0])
  }

  /** Between requests: no two front orders cross and none of them is cancelled. */
  ghost predicate AtRest(s: State) {
    Uncrossed(s.bids, s.asks) && FrontAlive(s.bids, s.flags) && FrontAlive(s.asks, s.flags)
  }

  // ---------- live orders under each change ----------

  lemma {:induction false} LiveSame(s: seq<Order>, f: map<int, bool>, g: map<int, bool>)
    requires forall id | id in Ids(s) :: (id in f && f[id]) == (id in g && g[id])
    ensures LiveOf(s, f) == LiveOf(s, g)
  {
    if s != [] {
      assert s[0].id in Ids(s);
      assert Ids(s[1..]) <= Ids(s);
      LiveSame(s[1..], f, g);
    }
  }

  lemma {:induction false} LiveSubset(s: seq<Order>, flags: map<int, bool>)
    ensures forall o | o in LiveOf(s, flags) :: o in s && !Killed(flags, o)
  {
    if s != [] {
      LiveSubset(s[1..], flags);
    }
  }

  // An order better than the front is better than the first live one
  lemma FirstLive(s: seq<Order>, flags: map<int, bool>, o: Order, prices: iset<int>)
    requires OrderPreserving(prices) && SideInv(s, o.side, prices) && o.price in prices
    requires s != [] && Rank(BySlot, o) < Rank(BySlot, s[0])
    ensures LiveOf(s, flags) != [] ==> Rank(ByPrice, o) < Rank(ByPrice, LiveOf(s, flags)[0])
  {
    LiveSubset(s, flags);
    var alive := LiveOf(s, flags);
    if alive != [] {
      assert alive[0] in alive;
      var i :| 0 <= i < |s| && s[i] == alive[0];
      assert i > 0 ==> Rank(BySlot, s[0]) <= Rank(BySlot, s[i]);
      RanksAgree(prices, o, s[i]);
    }
  }

  lemma {:induction false} LiveInsert(s: seq<Order>, flags: map<int, bool>, o: Order, prices: iset<int>)
    requires OrderPreserving(prices) && SideInv(s, o.side, prices) && o.price in prices && !Killed(flags, o)
    ensures LiveOf(Insert(BySlot, s, o), flags) == Insert(ByPrice, LiveOf(s, flags), o)
  {
    if s == [] {
    } else {
      assert s[0] in s;
      RanksAgree(prices, o, s[0]);
      if Rank(BySlot, o) < Rank(BySlot, s[0]) {
        FirstLive(s, flags, o, prices);
        assert LiveOf([o] + s, flags) == [o] + LiveOf(s, flags);
      } else {
        LiveInsert(s[1..], flags, o, prices);
        var tail := LiveOf(s[1..], flags);
        assert ([s[0]] + Insert(BySlot, s[1..], o))[1..] == Insert(BySlot, s[1..], o);
        assert ([s[0]] + tail)[1..] == tail;
      }
    }
  }

  lemma RanksAgree(prices: iset<int>, a: Order, b: Order)
    requires OrderPreserving(prices) && a.price in prices && b.price in prices && a.side == b.side
    ensures Rank(BySlot, a) < Rank(BySlot, b) <==> Rank(ByPrice, a) < Rank(ByPrice, b)
  {}

  lemma {:induction false} LiveKill(s: seq<Order>, flags: map<int, bool>, id: int)
    ensures LiveOf(s, flags[id := true]) == Without(LiveOf(s, flags), id)
  {
    if s != [] {
      LiveKill(s[1..], flags, id);
      assert ([s[0]] + LiveOf(s[1..], flags))[1..] == LiveOf(s[1..], flags);
    }
  }

  lemma {:induction false} WithoutAbsent(s: seq<Order>, id: int)
    requires forall o | o in s :: o.id != id
    ensures Without(s, id) == s
  {
    if s != [] {
      assert s[0] in s;
      WithoutAbsent(s[1..], id);
    }
  }

  lemma {:induction false} LiveSideOk(s: seq<Order>, flags: map<int, bool>, side: Side, prices: iset<int>)
    requires OrderPreserving(prices) && SideInv(s, side, prices)
    ensures SideOk(LiveOf(s, flags), side)
  {
    if s != [] {
      assert s[0] in s;
      LiveSideOk(s[1..], flags, side, prices);
      var alive, tail := LiveOf(s, flags), LiveOf(s[1..], flags);
      if !Killed(flags, s[0]) {
        LiveSubset(s[1..], flags);
        forall j: nat | 0 < j < |alive| ensures Rank(ByPrice, alive[0]) <= Rank(ByPrice, alive[j]) {
          assert alive[j] == tail[j - 1] && tail[j - 1] in tail;
          var i :| 0 <= i < |s[1..]| && s[1..][i] == tail[j - 1];
          assert s[i + 1] in s && Rank(BySlot, s[0]) <= Rank(BySlot, s[i + 1]);
          RanksAgree(prices, s[i + 1], s[0]);
        }
        assert forall j: nat | 0 < j < |alive| :: alive[j] == tail[j - 1];
      }
    }
  }

  // ---------- one step of the engine at a time ----------

  // Dropping the front of a side, or reducing it, keeps the side's invariant
  lemma SideInvTail(s: seq<Order>, side: Side, prices: iset<int>)
    requires s != [] && SideInv(s, side, prices)
    ensures SideInv(s[1..], side, prices) && Ids(s[1..]) == Ids(s) - {s[0].id}
  {
    assert s == [s[0]] + s[1..];
    forall id | id in Ids(s) && id != s[0].id ensures id in Ids(s[1..]) {
      var o :| o in s && o.id == id;
      assert o in s[1..];
    }
  }

  lemma IdsReplaced(s: seq<Order>, x: Order)
    requires s != [] && x.id == s[0].id
    ensures Ids(s[0 := x]) == Ids(s)
  {
    forall id | id in Ids(s) ensures id in Ids(s[0 := x]) {
      var i :| 0 <= i < |s| && s[i].id == id;
      assert s[0 := x][i] in s[0 := x];
    }
    forall id | id in Ids(s[0 := x]) ensures id in Ids(s) {
      var i :| 0 <= i < |s| && s[0 := x][i].id == id;
      assert s[i] in s;
    }
  }

  lemma SideInvReplaced(s: seq<Order>, side: Side, prices: iset<int>, x: Order)
    requires s != [] && SideInv(s, side, prices) && x == s[0].(qty := x.qty) && x.qty > 0
    ensures SideInv(s[0 := x], side, prices)
  {
    var s' := s[0 := x];
    assert s[0] in s;
    assert forall i: nat | i < |s| :: s'[i].id == s[i].id && Rank(BySlot, s'[i]) == Rank(BySlot, s[i]) && s'[i].qty > 0;
    assert forall o | o in s' :: o == x || o in s;
  }

  lemma AfterPartialFill(s: seq<Order>, q: int)
    requires s != [] && q != s[0].qty
    ensures AfterFill(s, q) == s[0 := s[0].(qty := s[0].qty - q)]
  {}

  lemma SideInvAfterFill(s: seq<Order>, side: Side, prices: iset<int>, q: int)
    requires s != [] && SideInv(s, side, prices) && 0 < q <= s[0].qty
    ensures SideInv(AfterFill(s, q), side, prices)
    ensures Ids(AfterFill(s, q)) == if q == s[0].qty then Ids(s) - {s[0].id} else Ids(s)
  {
    if q == s[0].qty {
      SideInvTail(s, side, prices);
    } else {
      var x := s[0].(qty := s[0].qty - q);
      AfterPartialFill(s, q);
      IdsReplaced(s, x);
      SideInvReplaced(s, side, prices, x);
    }
  }

  lemma EvictRefines(live: Sessions, s: State, side: Side, prices: iset<int>)
    requires Inv(s, prices) && s.Of(side) != [] && Killed(s.flags, s.Of(side)[0])
    ensures Abs(Evict(live, s, side)) == Abs(s) && Inv(Evict(live, s, side), prices)
    ensures FrontAlive(s.Of(side.Other()), s.flags) ==>
              FrontAlive(s.Of(side.Other()), Evict(live, s, side).flags)
  {
    var o := s.Of(side)[0];
    assert o.id in Ids(s.Of(side));
    SideInvTail(s.Of(side), side, prices);
    LiveSame(s.Of(side)[1..], s.flags, s.flags - {o.id});
    LiveSame(s.Of(side.Other()), s.flags, s.flags - {o.id});
  }

  lemma {:induction false} DrainRefines(live: Sessions, s: State, side: Side, prices: iset<int>)
    requires Inv(s, prices)
    ensures var s' := DrainDead(live, s, side);
            && Abs(s') == Abs(s) && Inv(s', prices) && FrontAlive(s'.Of(side), s'.flags)
            && s'.Of(side.Other()) == s.Of(side.Other())
            && (FrontAlive(s.Of(side.Other()), s.flags) ==> FrontAlive(s.Of(side.Other()), s'.flags))
    decreases |s.Of(side)|
  {
    if s.Of(side) != [] && Killed(s.flags, s.Of(side)[0]) {
      EvictRefines(live, s, side, prices);
      DrainRefines(live, Evict(live, s, side), side, prices);
    }
  }

  lemma DrainBothRefines(live: Sessions, s: State, prices: iset<int>)
    requires Inv(s, prices)
    ensures var s' := DrainBoth(live, s);
            && Abs(s') == Abs(s) && Inv(s', prices)
            && FrontAlive(s'.bids, s'.flags) && FrontAlive(s'.asks, s'.flags)
  {
    DrainRefines(live, s, Buy, prices);
    DrainRefines(live, DrainDead(live, s, Buy), Sell, prices);
  }

  // With live fronts the reference book has the same fronts
  lemma LiveFront(s: seq<Order>, flags: map<int, bool>)
    requires FrontAlive(s, flags)
    ensures s == [] <==> LiveOf(s, flags) == []
    ensures s != [] ==> LiveOf(s, flags) == [s[0]] + LiveOf(s[1..], flags)
  {}

  /** What a trade does: both fronts lose the same quantity, a filled one leaves, and at most the
      flags of filled orders go. */
  ghost predicate TradeEffect(s: State, t: State)
    requires s.bids != [] && s.asks != []
  {
    var b, a, q := s.bids[0], s.asks[0], Min(s.bids[0].qty, s.asks[0].qty);
    && t.bids == AfterFill(s.bids, q) && t.asks == AfterFill(s.asks, q)
    && t.trades == s.trades + [Fill(b.id, a.id, q, a.price)] && t.removals == s.removals
    && t.flags.Keys <= s.flags.Keys
    && (forall id | id in s.flags && !(id == b.id && q == b.qty) && !(id == a.id && q == a.qty) ::
          id in t.flags && t.flags[id] == s.flags[id])
  }

  lemma TradeDoes(live: Sessions, s: State)
    requires s.bids != [] && s.asks != []
    ensures TradeEffect(s, Trade(live, s))
  {}

  lemma TailIds(s: seq<Order>)
    requires s != [] && DistinctIds(s)
    ensures Ids(s[1..]) <= Ids(s) && s[0].id in Ids(s) && s[0].id !in Ids(s[1..])
  {
    assert forall o | o in s[1..] :: o in s;
  }

  // What follows the front of a side is as live as before
  lemma LiveAfterFill(s: seq<Order>, flags: map<int, bool>, flags': map<int, bool>, q: int)
    requires s != [] && DistinctIds(s) && FrontAlive(s, flags) && Ids(s) <= flags.Keys && 0 < q <= s[0].qty
    requires flags'.Keys <= flags.Keys
    requires forall id | id in Ids(s) && !(id == s[0].id && q == s[0].qty) :: id in flags' && flags'[id] == flags[id]
    ensures LiveOf(AfterFill(s, q), flags') == AfterFill(LiveOf(s, flags), q)
  {
    TailIds(s);
    LiveSame(s[1..], flags, flags');
    LiveFront(s, flags);
    FilledFront(s[0], s[1..], LiveOf(s[1..], flags), flags', q);
    assert s == [s[0]] + s[1..];
  }

  lemma FilledFront(x: Order, rest: seq<Order>, alive: seq<Order>, flags: map<int, bool>, q: int)
    requires alive == LiveOf(rest, flags) && (q != x.qty ==> !Killed(flags, x))
    ensures LiveOf(AfterFill([x] + rest, q), flags) == AfterFill([x] + alive, q)
  {
    assert ([x] + rest)[1..] == rest && ([x] + alive)[1..] == alive;
    LiveCons(x.(qty := x.qty - q), rest, flags);
  }

  lemma LiveCons(x: Order, s: seq<Order>, flags: map<int, bool>)
    ensures LiveOf([x] + s, flags) == if Killed(flags, x) then LiveOf(s, flags) else [x] + LiveOf(s, flags)
  {
    assert ([x] + s)[1..] == s;
  }

  lemma TradeEffectRefines(s: State, t: State, prices: iset<int>)
    requires Inv(s, prices) && s.bids != [] && s.asks != [] && TradeEffect(s, t)
    requires FrontAlive(s.bids, s.flags) && FrontAlive(s.asks, s.flags)
    ensures Abs(t) == TradeFronts(Abs(s)) && Inv(t, prices)
  {
    var b, a, q := s.bids[0], s.asks[0], Min(s.bids[0].qty, s.asks[0].qty);
    assert b.id in Ids(s.bids) && a.id in Ids(s.asks);
    SideInvAfterFill(s.bids, Buy, prices, q);
    SideInvAfterFill(s.asks, Sell, prices, q);
    LiveFront(s.bids, s.flags);
    LiveFront(s.asks, s.flags);
    LiveAfterFill(s.bids, s.flags, t.flags, q);
    LiveAfterFill(s.asks, s.flags, t.flags, q);
  }

  lemma TradeRefines(live: Sessions, s: State, prices: iset<int>)
    requires Inv(s, prices) && s.bids != [] && s.asks != []
    requires FrontAlive(s.bids, s.flags) && FrontAlive(s.asks, s.flags)
    ensures Abs(Trade(live, s)) == TradeFronts(Abs(s)) && Inv(Trade(live, s), prices)
  {
    TradeDoes(live, s);
    TradeEffectRefines(s, Trade(live, s), prices);
  }

  /** Draining and matching, with cancelled orders in the way, trades exactly as matching the
      live orders alone, and leaves the book at rest. */
  lemma {:induction false} UpdateRefines(live: Sessions, s: State, prices: iset<int>)
    requires Inv(s, prices)
    ensures var s' := UpdateBook(live, s);
            Abs(s') == Match(Abs(s)) && Inv(s', prices) && AtRest(s')
    decreases |s.bids| + |s.asks|
  {
    var d := DrainBoth(live, s);
    DrainBothRefines(live, s, prices);
    LiveFront(d.bids, d.flags);
    LiveFront(d.asks, d.flags);
    if d.bids == [] || d.asks == [] || d.bids[0].price < d.asks[0].price {
    } else {
      TradeRefines(live, d, prices);
      UpdateRefines(live, Trade(live, d), prices);
    }
  }

  // ---------- one request ----------

  // If no front orders cross, no live orders cross
  lemma LiveUncrossed(s: State, prices: iset<int>)
    requires OrderPreserving(prices) && Inv(s, prices) && Uncrossed(s.bids, s.asks)
    ensures WellFormed(Abs(s)) && Uncrossed(Abs(s).bids, Abs(s).asks)
  {
    LiveSideOk(s.bids, s.flags, Buy, prices);
    LiveSideOk(s.asks, s.flags, Sell, prices);
    FrontBounds(s.bids, s.flags, Buy, prices);
    FrontBounds(s.asks, s.flags, Sell, prices);
  }

  lemma FrontBounds(s: seq<Order>, flags: map<int, bool>, side: Side, prices: iset<int>)
    requires OrderPreserving(prices) && SideInv(s, side, prices)
    ensures LiveOf(s, flags) != [] ==>
              s != [] && if side.Buy? then LiveOf(s, flags)[0].price <= s[0].price
                  else s[0].price <= LiveOf(s, flags)[0].price
  {
    LiveSubset(s, flags);
    if LiveOf(s, flags) != [] {
      var x := LiveOf(s, flags)[0];
      assert x in s && s[0] in s;
      var i :| 0 <= i < |s| && s[i] == x;
      assert i > 0 ==> Rank(BySlot, s[0]) <= Rank(BySlot, s[i]);
      RanksAgree(prices, x, s[0]);
    }
  }

  lemma SideInvInsert(s: seq<Order>, o: Order, prices: iset<int>)
    requires SideInv(s, o.side, prices) && o.qty > 0 && o.price in prices && o.id !in Ids(s)
    ensures SideInv(Insert(BySlot, s, o), o.side, prices) && Ids(Insert(BySlot, s, o)) == Ids(s) + {o.id}
  {
    InsertKeepsSorted(BySlot, s, o);
    var k := InsertSplits(BySlot, s, o);
    var s' := Insert(BySlot, s, o);
    forall i: nat | i < |s'| ensures s'[i].qty > 0 && (i == k || s'[i] == s[if i < k then i else i - 1]) {}
    forall i, j | 0 <= i < j < |s'| ensures s'[i].id != s'[j].id {
      assert i != k ==> s'[i] in s;
      assert j != k ==> s'[j] in s;
    }
    assert o in s';
  }

  lemma PlaceKeepsInv(s: State, o: Order, prices: iset<int>)
    requires Inv(s, prices)
    requires o.qty > 0 && o.price in prices && o.id !in s.flags && !KillFlags.Reserved(o.id)
    ensures Inv(Place(s, o), prices)
  {
    SideInvInsert(s.Of(o.side), o, prices);
  }

  lemma PlaceRefines(s: State, o: Order, prices: iset<int>)
    requires OrderPreserving(prices) && Inv(s, prices) && o.price in prices && o.id !in s.flags
    ensures Abs(Place(s, o)) == Abs(s).Put(o.side, Insert(ByPrice, Abs(s).Of(o.side), o))
  {
    var flags' := s.flags[o.id := false];
    LiveSame(s.bids, s.flags, flags');
    LiveSame(s.asks, s.flags, flags');
    LiveInsert(s.Of(o.side), flags', o, prices);
  }

  lemma CancelRefines(live: Sessions, s: State, o: Order, hit: bool, prices: iset<int>)
    requires Inv(s, prices)
    ensures Abs(Cancel(live, s, o, hit)) == Kill(Abs(s), o.delId)
    ensures Inv(Cancel(live, s, o, hit), prices)
  {
    if o.delId in s.flags {
      LiveKill(s.bids, s.flags, o.delId);
      LiveKill(s.asks, s.flags, o.delId);
    } else {
      forall x | x in s.bids || x in s.asks ensures x.id != o.delId {
        assert x.id in Ids(s.bids) + Ids(s.asks);
      }
      LiveSubset(s.bids, s.flags);
      LiveSubset(s.asks, s.flags);
      WithoutAbsent(LiveOf(s.bids, s.flags), o.delId);
      WithoutAbsent(LiveOf(s.asks, s.flags), o.delId);
    }
  }

  /** A request that places an order gives it a positive quantity and an ordinary id. */
  ghost predicate Acceptable(o: Order, prices: iset<int>) {
    o.request == KillOrder || (o.qty > 0 && o.price in prices && !KillFlags.Reserved(o.id))
  }

  // Entering an order and matching is the reference book's send
  lemma EnterRefines(s: State, o: Order, prices: iset<int>)
    requires OrderPreserving(prices) && Inv(s, prices) && Uncrossed(s.bids, s.asks)
    requires o.qty > 0 && o.price in prices && o.id !in s.flags && !KillFlags.Reserved(o.id)
    ensures Match(Abs(Place(s, o))) == Send(Abs(s), o) && Inv(Place(s, o), prices)
  {
    PlaceKeepsInv(s, o, prices);
    PlaceRefines(s, o, prices);
    LiveUncrossed(s, prices);
    MatchIsSweep(Abs(s), o);
  }

  lemma ApplyKeepsInv(live: Sessions, s: State, i: Input, prices: iset<int>)
    requires Inv(s, prices)
    requires Acceptable(i.order, prices) && (i.order.request != KillOrder ==> i.order.id !in s.flags)
    ensures Inv(Apply(live, s, i), prices)
  {
    match i.order.request
    case SendOrder =>
      PlaceKeepsInv(s, i.order, prices);
    case ModifyOrder =>
      CancelRefines(live, s, i.order, i.hit, prices);
      PlaceKeepsInv(Cancel(live, s, i.order, i.hit), Renewed(i.order), prices);
    case KillOrder =>
      CancelRefines(live, s, i.order, i.hit, prices);
  }

  lemma ApplyRefines(live: Sessions, s: State, i: Input, prices: iset<int>)
    requires OrderPreserving(prices) && Inv(s, prices) && Uncrossed(s.bids, s.asks)
    requires Acceptable(i.order, prices) && (i.order.request != KillOrder ==> i.order.id !in s.flags)
    ensures Match(Abs(Apply(live, s, i))) == Execute(Abs(s), i.order)
  {
    match i.order.request
    case SendOrder =>
      EnterRefines(s, i.order, prices);
    case ModifyOrder =>
      CancelRefines(live, s, i.order, i.hit, prices);
      EnterRefines(Cancel(live, s, i.order, i.hit), Renewed(i.order), prices);
    case KillOrder =>
      CancelRefines(live, s, i.order, i.hit, prices);
      LiveUncrossed(Apply(live, s, i), prices);
  }

  /** Whatever the prices, each request keeps the invariant and leaves the book at rest. */
  lemma ProcessKeepsInv(live: Sessions, s: State, i: Input, prices: iset<int>)
    requires Inv(s, prices)
    requires Acceptable(i.order, prices) && (i.order.request != KillOrder ==> i.order.id !in s.flags)
    ensures Inv(Process(live, s, i), prices) && AtRest(Process(live, s, i))
  {
    ApplyKeepsInv(live, Count(s), i, prices);
    UpdateRefines(live, Apply(live, Count(s), i), prices);
  }

  /** Each request moves the live book, and reports trades, exactly as the reference book does. */
  lemma ProcessRefines(live: Sessions, s: State, i: Input, prices: iset<int>)
    requires OrderPreserving(prices) && Inv(s, prices) && Uncrossed(s.bids, s.asks)
    requires Acceptable(i.order, prices) && (i.order.request != KillOrder ==> i.order.id !in s.flags)
    ensures Abs(Process(live, s, i)) == Execute(Abs(s), i.order)
  {
    assert Abs(Count(s)) == Abs(s);
    ApplyRefines(live, Count(s), i, prices);
    ApplyKeepsInv(live, Count(s), i, prices);
    UpdateRefines(live, Apply(live, Count(s), i), prices);
  }
}

/** What draining takes out of a book: the cancelled orders at a front, and no others. */
module Draining {
  import opened Orders
  import opened LazyBooks
  import opened Refinement

  // The cancelled orders at the front of a side
  function DeadPrefix(s: seq<Order>, flags: map<int, bool>): (dead: seq<Order>)
    ensures |dead| <= |s|
  {
    if s == [] || !Killed(flags, s[0]) then [] else [s[0]] + DeadPrefix(s[1..], flags)
  }

  lemma {:induction false} DeadSame(s: seq<Order>, f: map<int, bool>, id: int)
    requires id !in Ids(s)
    ensures DeadPrefix(s, f - {id}) == DeadPrefix(s, f)
  {
    if s != [] {
      assert s[0].id in Ids(s);
      assert Ids(s[1..]) <= Ids(s);
      DeadSame(s[1..], f, id);
    }
  }

  // One removal takes one cancelled order off the front and leaves the others as cancelled as they were
  lemma EvictOne(live: Sessions, s: State, side: Side, prices: iset<int>)
    requires Inv(s, prices) && s.Of(side) != [] && Killed(s.flags, s.Of(side)[0])
    ensures var t := Evict(live, s, side);
            && Inv(t, prices) && t.Of(side) == s.Of(side)[1..] && t.Of(side.Other()) == s.Of(side.Other())
            && t.removals == s.removals + [s.Of(side)[0]]
            && DeadPrefix(t.Of(side), t.flags) == DeadPrefix(s.Of(side)[1..], s.flags)
            && DeadPrefix(t.Of(side.Other()), t.flags) == DeadPrefix(s.Of(side.Other()), s.flags)
  {
    var o := s.Of(side)[0];
    assert o.id in Ids(s.Of(side));
    EvictRefines(live, s, side, prices);
    TailIds(s.Of(side));
    DeadSame(s.Of(side)[1..], s.flags, o.id);
    DeadSame(s.Of(side.Other()), s.flags, o.id);
  }

  // Taking one and then some is taking them together
  lemma TakeTogether<T>(before: seq<T>, s: seq<T>, more: seq<T>)
    requires |more| < |s|
    ensures before + [s[0]] + more == before + ([s[0]] + more)
    ensures s[1..][|more|..] == s[|[s[0]] + more|..]
  {}

  /** Draining a side removes exactly the cancelled orders at its front, from the front on. */
  lemma {:induction false} DrainRemoves(live: Sessions, s: State, side: Side, prices: iset<int>)
    requires Inv(s, prices)
    ensures var t, dead := DrainDead(live, s, side), DeadPrefix(s.Of(side), s.flags);
            && Inv(t, prices) && t.removals == s.removals + dead && t.Of(side) == s.Of(side)[|dead|..]
            && t.Of(side.Other()) == s.Of(side.Other())
            && DeadPrefix(t.Of(side.Other()), t.flags) == DeadPrefix(s.Of(side.Other()), s.flags)
    decreases |s.Of(side)|
  {
    if s.Of(side) != [] && Killed(s.flags, s.Of(side)[0]) {
      EvictOne(live, s, side, prices);
      TakeTogether(s.removals, s.Of(side), DeadPrefix(s.Of(side)[1..], s.flags));
      DrainRemoves(live, Evict(live, s, side), side, prices);
    } else {
      assert s.removals + [] == s.removals;
    }
  }

  /** Before each look at the fronts the cancelled bids there leave first, then the cancelled asks. */
  lemma DrainBothRemoves(live: Sessions, s: State, prices: iset<int>)
    requires Inv(s, prices)
    ensures DrainBoth(live, s).removals == s.removals + DeadPrefix(s.bids, s.flags) + DeadPrefix(s.asks, s.flags)
  {
    DrainRemoves(live, s, Buy, prices);
    DrainRemoves(live, DrainDead(live, s, Buy), Sell, prices);
  }
}

/** A side of the book as price slots, and the same side as one sequence in priority order. */
module Flattening {
  import opened Config
  import opened Orders

  type Slots = seq<seq<Order>>

  /** All orders of a side, best slot first: bids from the highest slot down, asks from the lowest up. */
  function Flat(side: Side, os: Slots): seq<Order> {
    if os == [] then []
    else if side.Buy? then os[|os| - 1] + Flat(side, os[..|os| - 1])
    else Flat(side, os[..|os| - 1]) + os[|os| - 1]
  }

  // The orders that trade before slot k, and those that trade after it
  function Ahead(side: Side, os: Slots, k: nat): seq<Order>
    requires k < |os|
  {
    if side.Buy? then Flat(side, os[k + 1..]) else Flat(side, os[..k])
  }

  function Behind(side: Side, os: Slots, k: nat): seq<Order>
    requires k < |os|
  {
    if side.Buy? then Flat(side, os[..k]) else Flat(side, os[k + 1..])
  }

  /** The slot holding the orders that trade first. */
  ghost predicate Best(side: Side, os: Slots, k: nat) {
    && k < |os| && os[k] != []
    && forall j: nat | j < |os| && os[j] != [] :: if side.Buy? then j <= k else k <= j
  }

  /** Every order sits on its own side, in the slot of its price. */
  ghost predicate Coherent(side: Side, os: Slots) {
    && |os| == PRICE_WINDOW
    && forall k: nat, o | k < |os| && o in os[k] :: IndexOf(o.price) == k && o.side == side
  }

  lemma {:induction false} FlatSplit(side: Side, a: Slots, b: Slots)
    ensures Flat(side, a + b) == if side.Buy? then Flat(side, b) + Flat(side, a) else Flat(side, a) + Flat(side, b)
  {
    if b == [] {
      assert a + b == a;
    } else {
      var n := |b| - 1;
      FlatSplit(side, a, b[..n]);
      var fa, fb, last := Flat(side, a), Flat(side, b[..n]), b[n];
      assert (a + b)[..|a + b| - 1] == a + b[..n] && (a + b)[|a + b| - 1] == last;
      if side.Buy? {
        assert last + (fb + fa) == (last + fb) + fa;
      } else {
        assert (fa + fb) + last == fa + (fb + last);
      }
    }
  }

  lemma FlatOne(side: Side, x: seq<Order>)
    ensures Flat(side, [x]) == x
  {
    assert [x][..0] == [] && Flat(side, []) == [];
  }

  /** Slot k stands between what trades before it and what trades after it. */
  lemma FlatAt(side: Side, os: Slots, k: nat)
    requires k < |os|
    ensures Flat(side, os) == Ahead(side, os, k) + os[k] + Behind(side, os, k)
  {
    assert os == os[..k] + ([os[k]] + os[k + 1..]);
    FlatSplit(side, os[..k], [os[k]] + os[k + 1..]);
    FlatSplit(side, [os[k]], os[k + 1..]);
    FlatOne(side, os[k]);
  }

  lemma FlatUpdate(side: Side, os: Slots, k: nat, x: seq<Order>)
    requires k < |os|
    ensures Flat(side, os[k := x]) == Ahead(side, os, k) + x + Behind(side, os, k)
  {
    var os' := os[k := x];
    FlatAt(side, os', k);
    assert os'[..k] == os[..k] && os'[k + 1..] == os[k + 1..];
  }

  lemma {:induction false} FlatMembers(side: Side, os: Slots, x: Order)
    ensures x in Flat(side, os) <==> exists j: nat :: j < |os| && x in os[j]
  {
    if os != [] {
      var n := |os| - 1;
      FlatMembers(side, os[..n], x);
      if x in Flat(side, os[..n]) {
        var j: nat :| j < n && x in os[..n][j];
        assert x in os[j];
      }
      if j: nat :| j < n && x in os[j] {
        assert x in os[..n][j];
      }
    }
  }

  lemma {:induction false} FlatEmpty(side: Side, os: Slots)
    requires forall j: nat | j < |os| :: os[j] == []
    ensures Flat(side, os) == []
  {
    if os != [] {
      FlatEmpty(side, os[..|os| - 1]);
    }
  }

  lemma FlatNonEmpty(side: Side, os: Slots, k: nat)
    requires k < |os| && os[k] != []
    ensures Flat(side, os) != []
  {
    FlatAt(side, os, k);
  }

  lemma NothingAhead(side: Side, os: Slots, k: nat)
    requires Best(side, os, k)
    ensures Ahead(side, os, k) == []
  {
    FlatEmpty(side, if side.Buy? then os[k + 1..] else os[..k]);
  }

  /** The front of the best slot is the front of the side, and popping it is popping the side. */
  lemma FlatBest(side: Side, os: Slots, k: nat)
    requires Best(side, os, k)
    ensures Flat(side, os) != [] && Flat(side, os)[0] == os[k][0]
    ensures Flat(side, os[k := os[k][1..]]) == Flat(side, os)[1..]
  {
    var rest := Behind(side, os, k);
    assert os[k := os[k]] == os;
    BestWith(side, os, k, os[k]);
    BestWith(side, os, k, os[k][1..]);
    assert (os[k] + rest)[1..] == os[k][1..] + rest;
  }

  /** Changing it is changing the front of the side. */
  lemma FlatBestSet(side: Side, os: Slots, k: nat, o: Order)
    requires Best(side, os, k)
    ensures Flat(side, os) != [] && Flat(side, os[k := os[k][0 := o]]) == [o] + Flat(side, os)[1..]
  {
    var rest := Behind(side, os, k);
    FlatBest(side, os, k);
    BestWith(side, os, k, os[k][1..]);
    BestWith(side, os, k, os[k][0 := o]);
    assert os[k][0 := o] == [o] + os[k][1..];
    assert ([o] + os[k][1..]) + rest == [o] + (os[k][1..] + rest);
  }

  // Whatever the best slot is replaced by comes first
  lemma BestWith(side: Side, os: Slots, k: nat, x: seq<Order>)
    requires Best(side, os, k)
    ensures Flat(side, os[k := x]) == x + Behind(side, os, k)
  {
    NothingAhead(side, os, k);
    FlatUpdate(side, os, k, x);
    assert [] + x == x;
  }

  lemma SliceRanks(side: Side, os: Slots, from: nat, to: nat, x: Order)
    requires Coherent(side, os) && from <= to <= |os| && x in Flat(side, os[from..to])
    ensures from <= IndexOf(x.price) < to && x.side == side
  {
    FlatMembers(side, os[from..to], x);
    var j: nat :| j < to - from && x in os[from..to][j];
    assert x in os[from + j];
  }

  /** Appending to the queue of an order's slot is inserting it by slot rank. */
  lemma FlatInsert(side: Side, os: Slots, o: Order)
    requires Coherent(side, os) && o.side == side
    ensures var k := IndexOf(o.price);
            Flat(side, os[k := os[k] + [o]]) == Insert(BySlot, Flat(side, os), o)
  {
    var k := IndexOf(o.price);
    var ahead, behind := Ahead(side, os, k), Behind(side, os, k);
    FlatAt(side, os, k);
    FlatUpdate(side, os, k, os[k] + [o]);
    var front := ahead + os[k];
    forall i: nat | i < |front| ensures Rank(BySlot, front[i]) <= Rank(BySlot, o) {
      if i < |ahead| {
        assert front[i] in ahead;
        if side.Buy? {
          assert os[k + 1..] == os[k + 1..|os|];
          SliceRanks(side, os, k + 1, |os|, front[i]);
        } else {
          assert os[..k] == os[0..k];
          SliceRanks(side, os, 0, k, front[i]);
        }
      } else {
        assert front[i] in os[k];
      }
    }
    if behind != [] {
      assert behind[0] in behind;
      if side.Buy? {
        assert os[..k] == os[0..k];
        SliceRanks(side, os, 0, k, behind[0]);
      } else {
        assert os[k + 1..] == os[k + 1..|os|];
        SliceRanks(side, os, k + 1, |os|, behind[0]);
      }
    }
    InsertAt(BySlot, front, behind, o);
    assert front + [o] + behind == ahead + (os[k] + [o]) + behind;
  }
}

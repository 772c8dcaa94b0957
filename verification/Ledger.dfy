/** Where every order's quantity goes over whole runs, and at what prices it trades. */
module Ledger {
  import opened Orders
  import opened EagerBooks
  import opened LazyBooks
  import opened Refinement
  import opened Runs

  // ---------- conservation ----------

  function QtyOf(s: seq<Order>, id: int): int {
    if s == [] then 0 else (if s[0].id == id then s[0].qty else 0) + QtyOf(s[1..], id)
  }

  function FillQty(f: Fill, id: int): int {
    (if f.bid == id then f.qty else 0) + (if f.ask == id then f.qty else 0)
  }

  function FilledQty(trades: seq<Fill>, id: int): int {
    if trades == [] then 0 else FilledQty(trades[..|trades| - 1], id) + FillQty(trades[|trades| - 1], id)
  }

  function SentQty(inputs: seq<Input>, id: int): int {
    if inputs == [] then 0
    else
      var i := inputs[|inputs| - 1];
      SentQty(inputs[..|inputs| - 1], id) + if Places(i) && i.order.id == id then i.order.qty else 0
  }

  // Filled, resting or removed by a cancellation
  function Accounted(s: State, id: int): int {
    FilledQty(s.trades, id) + QtyOf(s.bids, id) + QtyOf(s.asks, id) + QtyOf(s.removals, id)
  }

  lemma {:induction false} QtyOfAppend(a: seq<Order>, b: seq<Order>, id: int)
    ensures QtyOf(a + b, id) == QtyOf(a, id) + QtyOf(b, id)
  {
    if a == [] {
      assert a + b == b;
    } else {
      assert (a + b)[1..] == a[1..] + b;
      QtyOfAppend(a[1..], b, id);
    }
  }

  lemma QtyOfInsert(s: seq<Order>, o: Order, id: int)
    ensures QtyOf(Insert(BySlot, s, o), id) == QtyOf(s, id) + if o.id == id then o.qty else 0
  {
    var k := InsertSplits(BySlot, s, o);
    QtyOfAppend(s[..k] + [o], s[k..], id);
    QtyOfAppend(s[..k], [o], id);
    QtyOfAppend(s[..k], s[k..], id);
    assert s == s[..k] + s[k..];
  }

  lemma QtyOfAfterFill(s: seq<Order>, q: int, id: int)
    requires s != []
    ensures QtyOf(AfterFill(s, q), id) == QtyOf(s, id) - if s[0].id == id then q else 0
  {
    if s[0].qty != q {
      assert AfterFill(s, q)[1..] == s[1..];
    }
  }

  lemma EvictConserves(live: Sessions, s: State, side: Side, id: int)
    requires s.Of(side) != []
    ensures Accounted(Evict(live, s, side), id) == Accounted(s, id)
  {
    QtyOfAppend(s.removals, [s.Of(side)[0]], id);
  }

  lemma TradeConserves(s: State, t: State, id: int)
    requires s.bids != [] && s.asks != [] && TradeEffect(s, t)
    ensures Accounted(t, id) == Accounted(s, id)
  {
    var q := Min(s.bids[0].qty, s.asks[0].qty);
    QtyOfAfterFill(s.bids, q, id);
    QtyOfAfterFill(s.asks, q, id);
    var f := Fill(s.bids[0].id, s.asks[0].id, q, s.asks[0].price);
    assert (s.trades + [f])[..|s.trades|] == s.trades;
  }

  lemma UpdateConserves(live: Sessions, s: State, id: int)
    ensures Accounted(UpdateBook(live, s), id) == Accounted(s, id)
  {
    var kept := iset t: State | Accounted(t, id) == Accounted(s, id);
    forall t: State, side: Side | t in kept && t.Of(side) != [] && Killed(t.flags, t.Of(side)[0])
      ensures Evict(live, t, side) in kept
    {
      EvictConserves(live, t, side, id);
    }
    forall t: State | t in kept && Crossing(t) ensures Trade(live, t) in kept {
      TradeDoes(live, t);
      TradeConserves(t, Trade(live, t), id);
    }
    UpdateKeeps(live, s, kept);
  }

  lemma PlaceConserves(s: State, o: Order, id: int)
    ensures Accounted(Place(s, o), id) == Accounted(s, id) + if o.id == id then o.qty else 0
  {
    QtyOfInsert(s.Of(o.side), o, id);
  }

  lemma ApplyConserves(live: Sessions, s: State, i: Input, id: int)
    ensures Accounted(Apply(live, s, i), id)
         == Accounted(s, id) + if Places(i) && i.order.id == id then i.order.qty else 0
  {
    var cancelled := Cancel(live, s, i.order, i.hit);
    assert Accounted(cancelled, id) == Accounted(s, id);
    PlaceConserves(s, i.order, id);
    PlaceConserves(cancelled, Renewed(i.order), id);
  }

  /** After any run whatever, each id's sent quantity is its filled quantity plus what rests plus
      what cancellations removed. */
  lemma {:induction false} Conservation(live: Sessions, inputs: seq<Input>, id: int)
    ensures var s := Run(live, inputs);
            SentQty(inputs, id) == FilledQty(s.trades, id) + QtyOf(s.bids, id) + QtyOf(s.asks, id)
                + QtyOf(s.removals, id)
  {
    if inputs != [] {
      var s := Run(live, inputs[..|inputs| - 1]);
      var i := inputs[|inputs| - 1];
      Conservation(live, inputs[..|inputs| - 1], id);
      ApplyConserves(live, Count(s), i, id);
      UpdateConserves(live, Apply(live, Count(s), i), id);
    }
  }

  // ---------- every trade is fair ----------

  ghost predicate WasSent(inputs: seq<Input>, id: int, side: Side, price: int) {
    exists i :: i in inputs && Places(i) && i.order.id == id && i.order.side == side && i.order.price == price
  }

  /** A trade between a bid and an ask that were sent, at the ask's price and within the bid's. */
  ghost predicate Fair(inputs: seq<Input>, f: Fill) {
    && f.qty > 0 && WasSent(inputs, f.ask, Sell, f.price)
    && exists limit :: f.price <= limit && WasSent(inputs, f.bid, Buy, limit)
  }

  ghost predicate AllFair(inputs: seq<Input>, s: State) {
    && (forall f | f in s.trades :: Fair(inputs, f))
    && (forall o | o in s.bids :: o.qty > 0 && WasSent(inputs, o.id, Buy, o.price))
    && (forall o | o in s.asks :: o.qty > 0 && WasSent(inputs, o.id, Sell, o.price))
  }

  lemma AfterFillFrom(s: seq<Order>, q: int, o: Order)
    requires s != [] && o in AfterFill(s, q) && q <= s[0].qty
    ensures o in s || (o == s[0].(qty := s[0].qty - q) && o.qty > 0)
  {}

  lemma TradeFair(s: State, t: State, inputs: seq<Input>)
    requires s.bids != [] && s.asks != [] && s.bids[0].price >= s.asks[0].price && AllFair(inputs, s)
        && TradeEffect(s, t)
    ensures AllFair(inputs, t)
  {
    var b, a, q := s.bids[0], s.asks[0], Min(s.bids[0].qty, s.asks[0].qty);
    assert b in s.bids && a in s.asks;
    assert Fair(inputs, Fill(b.id, a.id, q, a.price));
    forall o | o in t.bids ensures o.qty > 0 && WasSent(inputs, o.id, Buy, o.price) {
      AfterFillFrom(s.bids, q, o);
    }
    forall o | o in t.asks ensures o.qty > 0 && WasSent(inputs, o.id, Sell, o.price) {
      AfterFillFrom(s.asks, q, o);
    }
  }

  lemma UpdateFair(live: Sessions, s: State, inputs: seq<Input>)
    requires AllFair(inputs, s)
    ensures AllFair(inputs, UpdateBook(live, s))
  {
    var kept := iset t: State | AllFair(inputs, t);
    forall t: State, side: Side | t in kept && t.Of(side) != [] && Killed(t.flags, t.Of(side)[0])
      ensures Evict(live, t, side) in kept {}
    forall t: State | t in kept && Crossing(t) ensures Trade(live, t) in kept {
      TradeDoes(live, t);
      TradeFair(t, Trade(live, t), inputs);
    }
    UpdateKeeps(live, s, kept);
  }

  lemma SentGrows(inputs: seq<Input>, i: Input)
    ensures forall id, side, price | WasSent(inputs, id, side, price) :: WasSent(inputs + [i], id, side, price)
    ensures Places(i) ==> WasSent(inputs + [i], i.order.id, i.order.side, i.order.price)
  {
    forall id, side, price | WasSent(inputs, id, side, price) ensures WasSent(inputs + [i], id, side, price) {
      var j :| j in inputs && Places(j) && j.order.id == id && j.order.side == side && j.order.price == price;
      assert j in inputs + [i];
    }
    assert i in inputs + [i];
  }

  lemma FairGrows(inputs: seq<Input>, i: Input, s: State)
    requires AllFair(inputs, s)
    ensures AllFair(inputs + [i], s)
  {
    SentGrows(inputs, i);
  }

  lemma PlaceFair(s: State, o: Order, inputs: seq<Input>)
    requires AllFair(inputs, s) && o.qty > 0 && WasSent(inputs, o.id, o.side, o.price)
    ensures AllFair(inputs, Place(s, o))
  {
    var k := InsertSplits(BySlot, s.Of(o.side), o);
  }

  lemma ApplyFair(live: Sessions, s: State, i: Input, inputs: seq<Input>)
    requires AllFair(inputs, s) && (Places(i) ==> i.order.qty > 0)
    ensures AllFair(inputs + [i], Apply(live, s, i))
  {
    FairGrows(inputs, i, s);
    SentGrows(inputs, i);
    match i.order.request
    case SendOrder => PlaceFair(s, i.order, inputs + [i]);
    case ModifyOrder => PlaceFair(Cancel(live, s, i.order, i.hit), Renewed(i.order), inputs + [i]);
    case KillOrder =>
  }

  /** In every run each trade has a positive quantity and is struck at its ask's price, which its
      bid's limit reaches; and every resting quantity is positive. */
  lemma {:induction false} TradesAreFair(live: Sessions, inputs: seq<Input>)
    requires forall i | i in inputs && Places(i) :: i.order.qty > 0
    ensures AllFair(inputs, Run(live, inputs))
  {
    if inputs != [] {
      var before, i := inputs[..|inputs| - 1], inputs[|inputs| - 1];
      assert inputs == before + [i] && i in inputs && forall j | j in before :: j in inputs;
      TradesAreFair(live, before);
      ApplyFair(live, Count(Run(live, before)), i, before);
      UpdateFair(live, Apply(live, Count(Run(live, before)), i), inputs);
    }
  }
}

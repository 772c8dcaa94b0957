/** The reference book: price-time priority with immediate cancellation. An incoming order
    sweeps the opposite side from the front, and what is left of it rests. */
module EagerBooks {
  import opened Orders

  datatype Book = Book(bids: seq<Order>, asks: seq<Order>, trades: seq<Fill>) {
    function Of(side: Side): seq<Order> {
      if side.Buy? then bids else asks
    }

    function Put(side: Side, orders: seq<Order>): Book {
      if side.Buy? then this.(bids := orders) else this.(asks := orders)
    }
  }

  const EMPTY_BOOK := Book([], [], [])

  datatype Swept = Swept(rest: Order, book: seq<Order>, fills: seq<Fill>)

  /** Trades an incoming order against the opposite side, best resting order first. */
  function Sweep(o: Order, opposite: seq<Order>): Swept
    decreases |opposite|
  {
    if opposite == [] || o.qty == 0 || !Crosses(o, opposite[0]) then
      Swept(o, opposite, [])
    else
      var q := Min(o.qty, opposite[0].qty);
      var fill, rest := FillOf(o, opposite[0], q), o.(qty := o.qty - q);
      if q == opposite[0].qty then
        var more := Sweep(rest, opposite[1..]);
        Swept(more.rest, more.book, [fill] + more.fills)
      else
        Swept(rest, [opposite[0].(qty := opposite[0].qty - q)] + opposite[1..], [fill])
  }

  function Send(e: Book, o: Order): Book {
    var w := Sweep(o, e.Of(o.side.Other()));
    var e' := e.Put(o.side.Other(), w.book).(trades := e.trades + w.fills);
    if w.rest.qty == 0 then e' else e'.Put(o.side, Insert(ByPrice, e.Of(o.side), w.rest))
  }

  function Without(s: seq<Order>, id: int): seq<Order> {
    if s == [] then [] else if s[0].id == id then Without(s[1..], id) else [s[0]] + Without(s[1..], id)
  }

  function Kill(e: Book, id: int): Book {
    e.(bids := Without(e.bids, id), asks := Without(e.asks, id))
  }

  function Execute(e: Book, o: Order): Book {
    match o.request
    case SendOrder => Send(e, o)
    case ModifyOrder => Send(Kill(e, o.delId), Renewed(o))
    case KillOrder => Kill(e, o.delId)
  }

  // ---------- closed form of a sweep ----------

  function TotalQty(s: seq<Order>): int {
    if s == [] then 0 else s[0].qty + TotalQty(s[1..])
  }

  function TotalFilled(fills: seq<Fill>): int {
    if fills == [] then 0 else fills[0].qty + TotalFilled(fills[1..])
  }

  // The quantity resting at prices the order would trade at
  function CrossingQty(o: Order, s: seq<Order>): int {
    if s == [] then 0 else (if Crosses(o, s[0]) then s[0].qty else 0) + CrossingQty(o, s[1..])
  }

  ghost predicate Positive(s: seq<Order>) {
    forall i: nat | i < |s| :: s[i].qty > 0
  }

  lemma {:induction false} NothingCrossesBehind(o: Order, s: seq<Order>)
    requires Sorted(ByPrice, s) && OnSide(s, o.side.Other())
    requires s == [] || !Crosses(o, s[0])
    ensures CrossingQty(o, s) == 0
  {
    if s != [] {
      assert s[0] in s;
      if |s| > 1 {
        assert s[1] in s;
      }
      NothingCrossesBehind(o, s[1..]);
    }
  }

  // The i-th fill trades the new order with the i-th resting one, all but the last of them whole
  ghost predicate PrefixFilled(o: Order, opposite: seq<Order>, fills: seq<Fill>) {
    && |fills| <= |opposite|
    && forall i: nat | i < |fills| ::
         && Crosses(o, opposite[i]) && fills[i] == FillOf(o, opposite[i], fills[i].qty)
         && 0 < fills[i].qty <= opposite[i].qty && (i + 1 < |fills| ==> fills[i].qty == opposite[i].qty)
  }

  // What is left of the opposite side after those fills
  function Remainder(opposite: seq<Order>, fills: seq<Fill>): seq<Order>
    requires |fills| <= |opposite|
  {
    if fills == [] then opposite
    else
      var last := |fills| - 1;
      if fills[last].qty == opposite[last].qty then opposite[last + 1..]
      else [opposite[last].(qty := opposite[last].qty - fills[last].qty)] + opposite[last + 1..]
  }

  lemma PrefixFilledStep(o: Order, rest: Order, opposite: seq<Order>, fill: Fill, more: seq<Fill>)
    requires opposite != [] && rest.(qty := o.qty) == o && Crosses(o, opposite[0])
    requires fill == FillOf(o, opposite[0], opposite[0].qty) && fill.qty > 0
    requires PrefixFilled(rest, opposite[1..], more)
    ensures PrefixFilled(o, opposite, [fill] + more)
    ensures Remainder(opposite, [fill] + more) == Remainder(opposite[1..], more)
  {
    var fills := [fill] + more;
    forall i: nat | i < |fills|
      ensures Crosses(o, opposite[i]) && fills[i] == FillOf(o, opposite[i], fills[i].qty)
      ensures 0 < fills[i].qty <= opposite[i].qty && (i + 1 < |fills| ==> fills[i].qty == opposite[i].qty)
    {
      if i > 0 {
        assert fills[i] == more[i - 1] && opposite[i] == opposite[1..][i - 1];
      }
    }
    if more != [] {
      assert opposite[1..][|more|..] == opposite[|more| + 1..];
    }
  }

  /** A sweep consumes a prefix of the opposite side in price-time order, taking each order but
      the last whole. */
  lemma {:induction false} SweepConsumesPrefix(o: Order, opposite: seq<Order>)
    requires o.qty >= 0 && Positive(opposite)
    ensures PrefixFilled(o, opposite, Sweep(o, opposite).fills)
    ensures Sweep(o, opposite).book == Remainder(opposite, Sweep(o, opposite).fills)
    decreases |opposite|
  {
    if opposite == [] || o.qty == 0 || !Crosses(o, opposite[0]) {
    } else {
      var q := Min(o.qty, opposite[0].qty);
      var fill, rest := FillOf(o, opposite[0], q), o.(qty := o.qty - q);
      if q == opposite[0].qty {
        var more := Sweep(rest, opposite[1..]);
        SweepConsumesPrefix(rest, opposite[1..]);
        assert Sweep(o, opposite) == Swept(more.rest, more.book, [fill] + more.fills);
        PrefixFilledStep(o, rest, opposite, fill, more.fills);
      } else {
        assert Sweep(o, opposite) == Swept(rest, [opposite[0].(qty := opposite[0].qty - q)] + opposite[1..], [fill]);
      }
    }
  }

  /** It fills as much as both sides allow, and stops short of its own quantity only when
      nothing that crosses is left. */
  lemma {:induction false} SweepTotal(o: Order, opposite: seq<Order>)
    requires o.qty >= 0 && Positive(opposite) && Sorted(ByPrice, opposite) && OnSide(opposite, o.side.Other())
    ensures var w := Sweep(o, opposite);
            && TotalFilled(w.fills) == Min(o.qty, CrossingQty(o, opposite))
            && w.rest == o.(qty := o.qty - TotalFilled(w.fills))
            && (w.rest.qty > 0 ==> w.book == [] || !Crosses(o, w.book[0]))
    decreases |opposite|
  {
    CrossingQtyNonNegative(o, opposite);
    if opposite == [] || !Crosses(o, opposite[0]) {
      NothingCrossesBehind(o, opposite);
    } else if o.qty > 0 {
      CrossingQtyNonNegative(o, opposite[1..]);
      if opposite[0].qty <= o.qty {
        var rest := o.(qty := o.qty - opposite[0].qty);
        SweepTotal(rest, opposite[1..]);
        SameCrossing(o, rest, opposite[1..]);
        assert Sweep(o, opposite).fills[1..] == Sweep(rest, opposite[1..]).fills;
      } else {
        assert Sweep(o, opposite).fills[1..] == [];
      }
    }
  }

  lemma {:induction false} CrossingQtyNonNegative(o: Order, s: seq<Order>)
    requires Positive(s)
    ensures CrossingQty(o, s) >= 0
  {
    if s != [] {
      CrossingQtyNonNegative(o, s[1..]);
    }
  }

  lemma {:induction false} SameCrossing(o: Order, o': Order, s: seq<Order>)
    requires o.side == o'.side && o.price == o'.price
    ensures CrossingQty(o, s) == CrossingQty(o', s)
  {
    if s != [] {
      SameCrossing(o, o', s[1..]);
    }
  }

  // ---------- matching front against front ----------

  ghost predicate Uncrossed(bids: seq<Order>, asks: seq<Order>) {
    bids == [] || asks == [] || bids[0].price < asks[0].price
  }

  // One trade between the two best orders
  function TradeFronts(e: Book): Book
    requires e.bids != [] && e.asks != []
  {
    var b, a := e.bids[0], e.asks[0];
    var q := Min(b.qty, a.qty);
    Book(AfterFill(e.bids, q), AfterFill(e.asks, q), e.trades + [Fill(b.id, a.id, q, a.price)])
  }

  // The front order has lost q; it leaves when nothing remains
  function AfterFill(s: seq<Order>, q: int): seq<Order>
    requires s != []
  {
    if s[0].qty == q then s[1..] else [s[0].(qty := s[0].qty - q)] + s[1..]
  }

  /** Trades the best bid with the best ask for as long as they cross. */
  function Match(e: Book): Book
    decreases |e.bids| + |e.asks|
  {
    if e.bids == [] || e.asks == [] || e.bids[0].price < e.asks[0].price then e else Match(TradeFronts(e))
  }

  ghost predicate WellFormed(e: Book) {
    SideOk(e.bids, Buy) && SideOk(e.asks, Sell)
  }

  ghost predicate SideOk(s: seq<Order>, side: Side) {
    OnSide(s, side) && Sorted(ByPrice, s) && Positive(s)
  }

  lemma AfterFillOk(s: seq<Order>, side: Side, q: int)
    requires s != [] && SideOk(s, side) && q <= s[0].qty
    ensures SideOk(AfterFill(s, q), side)
    ensures AfterFill(s, q) != [] ==> Rank(ByPrice, s[0]) <= Rank(ByPrice, AfterFill(s, q)[0])
    ensures AfterFill(s, q) != [] ==> AfterFill(s, q)[0].side == side
  {
    var s' := AfterFill(s, q);
    forall i: nat | i < |s'|
      ensures s'[i].price == s[i + |s| - |s'|].price && s'[i].side == s[i + |s| - |s'|].side == side && s'[i].qty > 0
    {
      assert s[i + |s| - |s'|] in s;
    }
  }

  // Reducing the best order of a side keeps an uncrossed book well-formed and uncrossed
  lemma ReduceFront(e: Book, side: Side, q: int, fill: Fill)
    requires WellFormed(e) && Uncrossed(e.bids, e.asks) && e.Of(side) != [] && q <= e.Of(side)[0].qty
    ensures var e' := e.Put(side, AfterFill(e.Of(side), q)).(trades := e.trades + [fill]);
            WellFormed(e') && Uncrossed(e'.bids, e'.asks)
  {
    assert e.Of(side)[0] in e.Of(side);
    AfterFillOk(e.Of(side), side, q);
  }

  // An order that crosses is better than every order on its own side
  lemma CrossingGoesFirst(e: Book, o: Order)
    requires WellFormed(e) && Uncrossed(e.bids, e.asks)
    requires e.Of(o.side.Other()) != [] && Crosses(o, e.Of(o.side.Other())[0])
    ensures e.Of(o.side) == [] || Rank(ByPrice, o) < Rank(ByPrice, e.Of(o.side)[0])
  {
    var own, opposite := e.Of(o.side), e.Of(o.side.Other());
    assert own != [] ==> own[0] in own;
    assert opposite[0] in opposite;
  }

  // The first trade of a matching run is the first fill of the sweep
  lemma FirstTrade(e: Book, o: Order, q: int)
    requires WellFormed(e) && Uncrossed(e.bids, e.asks) && o.qty > 0
    requires e.Of(o.side.Other()) != [] && Crosses(o, e.Of(o.side.Other())[0])
    requires q == Min(o.qty, e.Of(o.side.Other())[0].qty)
    ensures var opposite := e.Of(o.side.Other());
            var e' := e.Put(o.side.Other(), AfterFill(opposite, q)).(trades := e.trades + [FillOf(o, opposite[0], q)]);
            Match(e.Put(o.side, [o] + e.Of(o.side))) == Match(e'.Put(o.side, AfterFill([o] + e.Of(o.side), q)))
  {
    var entered := e.Put(o.side, [o] + e.Of(o.side));
    assert Match(entered) == Match(TradeFronts(entered));
  }

  /** Adding an order to an uncrossed book and then matching front against front is the same as
      sweeping the opposite side with it and resting what is left. */
  lemma {:induction false} MatchIsSweep(e: Book, o: Order)
    requires WellFormed(e) && Uncrossed(e.bids, e.asks) && o.qty > 0
    ensures Match(e.Put(o.side, Insert(ByPrice, e.Of(o.side), o))) == Send(e, o)
    decreases |e.Of(o.side.Other())|
  {
    var own, opposite := e.Of(o.side), e.Of(o.side.Other());
    if opposite == [] || !Crosses(o, opposite[0]) {
      NoTrade(e, o);
    } else {
      var q := Min(o.qty, opposite[0].qty);
      var fill, rest := FillOf(o, opposite[0], q), o.(qty := o.qty - q);
      var left := AfterFill(opposite, q);
      var e' := e.Put(o.side.Other(), left).(trades := e.trades + [fill]);
      CrossingGoesFirst(e, o);
      FirstTrade(e, o, q);
      ReduceFront(e, o.side.Other(), q, fill);
      if rest.qty == 0 {
        SweepFirst(o, opposite);
        assert AfterFill([o] + own, q) == own;
        assert e'.Put(o.side, own) == e' == Send(e, o);
      } else {
        MatchIsSweep(e', rest);
        assert Rank(ByPrice, rest) == Rank(ByPrice, o);
        assert AfterFill([o] + own, q) == [rest] + own;
        SendContinues(e, e', o, rest, fill);
      }
    }
  }

  // How the first fill shows in the sweep
  lemma SweepFirst(o: Order, opposite: seq<Order>)
    requires opposite != [] && Crosses(o, opposite[0]) && o.qty > 0 && Positive(opposite)
    ensures var q := Min(o.qty, opposite[0].qty);
            var fill, rest, left := FillOf(o, opposite[0], q), o.(qty := o.qty - q), AfterFill(opposite, q);
            var more := Sweep(rest, left);
            && Sweep(o, opposite) == Swept(more.rest, more.book, [fill] + more.fills)
            && (rest.qty == 0 ==> more == Swept(rest, left, []))
  {}

  lemma SendContinues(e: Book, e': Book, o: Order, rest: Order, fill: Fill)
    requires e.Of(o.side.Other()) != [] && Crosses(o, e.Of(o.side.Other())[0]) && o.qty > 0
        && Positive(e.Of(o.side.Other()))
    requires var opposite := e.Of(o.side.Other());
             var q := Min(o.qty, opposite[0].qty);
             && fill == FillOf(o, opposite[0], q) && rest == o.(qty := o.qty - q)
             && e' == e.Put(o.side.Other(), AfterFill(opposite, q)).(trades := e.trades + [fill])
    ensures Send(e, o) == Send(e', rest)
  {
    SweepFirst(o, e.Of(o.side.Other()));
    var more := Sweep(rest, e'.Of(o.side.Other()));
    assert e.trades + ([fill] + more.fills) == e'.trades + more.fills;
  }

  lemma NoTrade(e: Book, o: Order)
    requires WellFormed(e) && Uncrossed(e.bids, e.asks) && o.qty > 0
    requires e.Of(o.side.Other()) == [] || !Crosses(o, e.Of(o.side.Other())[0])
    ensures Match(e.Put(o.side, Insert(ByPrice, e.Of(o.side), o))) == Send(e, o)
  {
    var own, opposite := e.Of(o.side), e.Of(o.side.Other());
    assert opposite != [] ==> opposite[0] in opposite;
    assert Sweep(o, opposite) == Swept(o, opposite, []);
    assert Insert(ByPrice, own, o)[0] == o || (own != [] && Insert(ByPrice, own, o)[0] == own[0]);
    assert e.trades + [] == e.trades;
  }
}

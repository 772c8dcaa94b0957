/** Orders, requests, trades and the messages a book sends to sessions. */
module Orders {
  import opened Config

  type Byte = b: int | 0 <= b < 256
  type Symbol = s: seq<Byte> | |s| == SYMBOL_BYTES witness [0, 0, 0, 0]

  datatype Side = Sell | Buy {
    function Other(): Side {
      if Buy? then Sell else Buy
    }
  }

  datatype RequestType = SendOrder | ModifyOrder | KillOrder

  datatype Order = Order(
    price: int, qty: int, symbol: Symbol, side: Side, request: RequestType,
    id: int, delId: int, session: int)

  // The order a modification places no longer names the order it replaces
  function Renewed(o: Order): Order {
    o.(delId := 0)
  }

  /** The price slot of an order: the low 16 bits of its price. */
  function IndexOf(price: int): nat {
    price % PRICE_WINDOW
  }

  datatype Fill = Fill(bid: int, ask: int, qty: int, price: int)

  datatype Message =
    | FullFill(order: Order, fillQty: int, fillPrice: int)
    | PartialFill(order: Order, fillQty: int, remaining: int, fillPrice: int)
    | KillConfirm(order: Order)
    | Error(code: int)

  datatype Sent = Sent(session: int, message: Message)

  function Min(a: int, b: int): int {
    if a < b then a else b
  }

  /** A buy and a sell can trade when the bid reaches the ask. */
  predicate Crosses(o: Order, resting: Order) {
    if o.side.Buy? then o.price >= resting.price else o.price <= resting.price
  }

  /** The trade between two opposing orders; it is struck at the ask's price. */
  function FillOf(o: Order, resting: Order, qty: int): Fill {
    if o.side.Buy? then Fill(o.id, resting.id, qty, resting.price)
    else Fill(resting.id, o.id, qty, o.price)
  }

  // ---------- price-time order ----------

  /** The matching engine ranks by price slot; the reference book ranks by price. */
  datatype Ranking = BySlot | ByPrice

  // Smaller ranks trade first
  function Rank(r: Ranking, o: Order): int {
    var p := if r.BySlot? then IndexOf(o.price) else o.price;
    if o.side.Buy? then -p else p
  }

  /** Puts an order behind every order of the same or a better rank. */
  function Insert(r: Ranking, s: seq<Order>, o: Order): seq<Order> {
    if s == [] || Rank(r, o) < Rank(r, s[0]) then [o] + s else [s[0]] + Insert(r, s[1..], o)
  }

  ghost predicate Sorted(r: Ranking, s: seq<Order>) {
    forall i, j | 0 <= i < j < |s| :: Rank(r, s[i]) <= Rank(r, s[j])
  }

  ghost predicate OnSide(s: seq<Order>, side: Side) {
    forall o | o in s :: o.side == side
  }

  ghost function Ids(s: seq<Order>): set<int> {
    set o | o in s :: o.id
  }

  ghost predicate DistinctIds(s: seq<Order>) {
    forall i, j | 0 <= i < j < |s| :: s[i].id != s[j].id
  }

  lemma {:induction false} InsertAt(r: Ranking, a: seq<Order>, b: seq<Order>, o: Order)
    requires forall i: nat | i < |a| :: Rank(r, a[i]) <= Rank(r, o)
    requires b != [] ==> Rank(r, o) < Rank(r, b[0])
    ensures Insert(r, a + b, o) == a + [o] + b
  {
    if a == [] {
      assert a + b == b;
      assert a + [o] == [o];
    } else {
      InsertAt(r, a[1..], b, o);
      assert (a + b)[1..] == a[1..] + b;
      assert [a[0]] + (a[1..] + [o] + b) == a + [o] + b;
    }
  }

  /** Where an insertion lands: some split of the list, no other element moved. */
  lemma {:induction false} InsertSplits(r: Ranking, s: seq<Order>, o: Order) returns (k: nat)
    ensures k <= |s| && Insert(r, s, o) == s[..k] + [o] + s[k..]
    ensures forall i: nat | i < k :: Rank(r, s[i]) <= Rank(r, o)
    ensures k < |s| ==> Rank(r, o) < Rank(r, s[k])
  {
    if s == [] || Rank(r, o) < Rank(r, s[0]) {
      k := 0;
    } else {
      k := InsertSplits(r, s[1..], o);
      k := k + 1;
    }
  }

  lemma InsertKeepsSorted(r: Ranking, s: seq<Order>, o: Order)
    requires Sorted(r, s)
    ensures Sorted(r, Insert(r, s, o))
    ensures forall x :: x in Insert(r, s, o) <==> x in s || x == o
    ensures |Insert(r, s, o)| == |s| + 1
  {
    var k := InsertSplits(r, s, o);
    assert s == s[..k] + s[k..];
  }
}

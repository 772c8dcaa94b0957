/** Snapshots on the wire: symbol, sequence number, and id, price and quantity of every order shown. */
module SnapshotCodec {
  import opened Config
  import opened Orders
  import opened Words
  import opened Bytes
  import opened Fields
  import opened Snapshots

  const SEQ_BYTES: nat := 8
  const ORDER_BYTES: nat := ID_BYTES + PRICE_BYTES + QTY_BYTES

  datatype ClientOrder = ClientOrder(id: int, price: int, qty: int)
  datatype ClientSnapshot = ClientSnapshot(symbol: seq<Byte>, seqLen: int, buySide: seq<ClientOrder>,
      sellSide: seq<ClientOrder>)

  /** What a subscriber is told of an order. */
  function Told(o: Order): ClientOrder {
    ClientOrder(o.id, o.price, o.qty)
  }

  function ToldAll(os: seq<Order>): (told: seq<ClientOrder>)
    ensures |told| == |os|
  {
    if os == [] then [] else ToldAll(os[..|os| - 1]) + [Told(os[|os| - 1])]
  }

  function OrderNumbers(o: ClientOrder): seq<int> {
    [o.id, o.price, o.qty]
  }

  function SideNumbers(os: seq<ClientOrder>): (ns: seq<int>)
    ensures |ns| == 3 * |os|
  {
    if os == [] then [] else SideNumbers(os[..|os| - 1]) + OrderNumbers(os[|os| - 1])
  }

  // ---------- the server ----------

  method OrderToBytes(order: Order) returns (msg: seq<Byte>)
    ensures msg == WriteAll(OrderNumbers(Told(order)))
    ensures msg == Written(order.id, ID_BYTES) + Written(order.price, PRICE_BYTES) + Written(order.qty, QTY_BYTES)
  {
    var id := NumberToBytes(order.id, ID_BYTES);
    var price := NumberToBytes(order.price, PRICE_BYTES);
    var qty := NumberToBytes(order.qty, QTY_BYTES);
    WriteRow(order.id, order.price, order.qty, 0);
    msg := [];
    msg := msg + id;
    msg := msg + price;
    msg := msg + qty;
  }

  lemma {:induction false} WriteBoth(a: seq<int>, b: seq<int>)
    ensures WriteAll(a + b) == WriteAll(a) + WriteAll(b)
  {
    if a == [] {
      assert a + b == b;
    } else {
      assert (a + b)[1..] == a[1..] + b;
      WriteBoth(a[1..], b);
      Regroup(Written(a[0], FIELD_BYTES), WriteAll(a[1..]), WriteAll(b));
    }
  }

  /** The bytes of one side of a snapshot. */
  function SideBytes(side: seq<Order>): seq<Byte> {
    WriteAll(SideNumbers(ToldAll(side)))
  }

  // Writes one side of the snapshot behind the bytes so far
  method AppendSide(message: seq<Byte>, side: seq<Order>) returns (longer: seq<Byte>)
    requires |side| == SNAPSHOT_LEN
    ensures longer == message + SideBytes(side)
  {
    longer := message;
    var i := 0;
    while i < SNAPSHOT_LEN
      invariant i <= SNAPSHOT_LEN && longer == message + SideBytes(side[..i])
    {
      var bytes := OrderToBytes(side[i]);
      OneMoreTold(side, i);
      WriteBoth(SideNumbers(ToldAll(side[..i])), OrderNumbers(Told(side[i])));
      Regroup(message, SideBytes(side[..i]), bytes);
      longer := longer + bytes;
      i := i + 1;
    }
    assert side[..i] == side;
  }

  lemma OneMoreTold(side: seq<Order>, i: nat)
    requires i < |side|
    ensures SideNumbers(ToldAll(side[..i + 1])) == SideNumbers(ToldAll(side[..i])) + OrderNumbers(Told(side[i]))
  {
    assert side[..i + 1][..i] == side[..i];
    assert ToldAll(side[..i + 1])[..i] == ToldAll(side[..i]);
  }

  function SnapshotBytes(symbol: seq<Byte>, seqLen: int, shown: Snapshot): seq<Byte> {
    symbol + Written(seqLen, SEQ_BYTES) + SideBytes(shown.buySide) + SideBytes(shown.sellSide)
  }

  method SnapshotToBytes(snapshot: Snapshot, symbol: seq<Byte>, seqLen: int) returns (message: seq<Byte>)
    requires |snapshot.buySide| == |snapshot.sellSide| == SNAPSHOT_LEN
    ensures message == SnapshotBytes(symbol, seqLen, snapshot)
  {
    var seqBytes := NumberToBytes(seqLen, SEQ_BYTES);
    message := AppendSide(symbol + seqBytes, snapshot.buySide);
    message := AppendSide(message, snapshot.sellSide);
  }

  // ---------- the subscriber ----------

  // Orders from a row of numbers
  function OrdersIn(ns: seq<int>, k: nat): (os: seq<ClientOrder>)
    requires |ns| >= 3 * k
    ensures |os| == k
  {
    if k == 0 then [] else OrdersIn(ns, k - 1) + [ClientOrder(ns[3 * k - 3], ns[3 * k - 2], ns[3 * k - 1])]
  }

  lemma {:induction false} OrdersAgain(os: seq<ClientOrder>, k: nat)
    requires k <= |os|
    ensures OrdersIn(SideNumbers(os), k) == os[..k]
  {
    if k > 0 {
      OrdersAgain(os, k - 1);
      NumbersAt(os, k - 1);
    }
  }

  lemma {:induction false} NumbersAt(os: seq<ClientOrder>, i: nat)
    requires i < |os|
    ensures SideNumbers(os)[3 * i..3 * i + 3] == OrderNumbers(os[i])
    decreases |os|
  {
    var last := |os| - 1;
    if i < last {
      NumbersAt(os[..last], i);
      assert SideNumbers(os)[3 * i..3 * i + 3] == SideNumbers(os[..last])[3 * i..3 * i + 3];
    }
  }

  const SIDE_BYTES: nat := SNAPSHOT_LEN * ORDER_BYTES
  const MESSAGE_BYTES: nat := SYMBOL_BYTES + SEQ_BYTES + 2 * SIDE_BYTES

  function SideIn(message: seq<Byte>, at: nat): seq<ClientOrder>
    requires at + SIDE_BYTES <= |message|
  {
    OrdersIn(ReadAll(AsUnsigned, message[at..], 3 * SNAPSHOT_LEN), SNAPSHOT_LEN)
  }

  /** What a subscriber reads from a message. */
  function SnapshotIn(message: seq<Byte>): ClientSnapshot
    requires |message| >= MESSAGE_BYTES
  {
    ClientSnapshot(message[..SYMBOL_BYTES], Signed64(Value(message[4..12])), SideIn(message, 12),
        SideIn(message, 12 + SIDE_BYTES))
  }

  lemma {:induction false} ReadAt(f: seq<Byte>, at: nat, k: nat, j: nat, offset: nat)
    requires at + FIELD_BYTES * k <= |f| && j < k && offset == at + FIELD_BYTES * j
    ensures ReadAll(AsUnsigned, f[at..], k)[j] == Value(f[offset..offset + FIELD_BYTES])
    decreases k
  {
    assert f[at..][..FIELD_BYTES] == f[at..at + FIELD_BYTES];
    if j > 0 {
      ReadAt(f, at + FIELD_BYTES, k - 1, j - 1, offset);
      assert f[at..][FIELD_BYTES..] == f[at + FIELD_BYTES..];
    }
  }

  method ReadUnsigned(message: seq<Byte>, at: nat) returns (n: int)
    requires at + FIELD_BYTES <= |message|
    ensures n == Value(message[at..at + FIELD_BYTES])
  {
    n := ReadBigEndian(message, at, at + FIELD_BYTES);
    BigEndianOfValue(message[at..at + FIELD_BYTES]);
    Powers();
  }

  function OrderAt(message: seq<Byte>, at: nat): ClientOrder
    requires at + ORDER_BYTES <= |message|
  {
    ClientOrder(Value(message[at..at + 4]), Value(message[at + 4..at + 8]), Value(message[at + 8..at + 12]))
  }

  method ReadOrder(message: seq<Byte>, at: nat) returns (o: ClientOrder, offset: nat)
    requires at + ORDER_BYTES <= |message|
    ensures o == OrderAt(message, at) && offset == at + ORDER_BYTES
  {
    offset := at;
    var id := ReadUnsigned(message, offset);
    offset := offset + ID_BYTES;
    var price := ReadUnsigned(message, offset);
    offset := offset + PRICE_BYTES;
    var qty := ReadUnsigned(message, offset);
    offset := offset + QTY_BYTES;
    o := ClientOrder(id, price, qty);
  }

  lemma OneMoreOrder(message: seq<Byte>, at: nat, i: nat, row: seq<int>)
    requires at + FIELD_BYTES * |row| <= |message| && 3 * i + 3 <= |row|
        && row == ReadAll(AsUnsigned, message[at..], |row|)
    ensures at + ORDER_BYTES * i + ORDER_BYTES <= |message|
    ensures OrdersIn(row, i + 1) == OrdersIn(row, i) + [OrderAt(message, at + ORDER_BYTES * i)]
  {
    var offset := at + ORDER_BYTES * i;
    ReadAt(message, at, |row|, 3 * i, offset);
    ReadAt(message, at, |row|, 3 * i + 1, offset + 4);
    ReadAt(message, at, |row|, 3 * i + 2, offset + 8);
    LastOrder(row, i);
  }

  lemma LastOrder(row: seq<int>, i: nat)
    requires 3 * i + 3 <= |row|
    ensures OrdersIn(row, i + 1) == OrdersIn(row, i) + [ClientOrder(row[3 * i], row[3 * i + 1], row[3 * i + 2])]
  {}

  // Reads one side of the snapshot, order after order
  method ReadSide(message: seq<Byte>, at: nat) returns (side: seq<ClientOrder>, offset: nat)
    requires at + SIDE_BYTES <= |message|
    ensures side == SideIn(message, at) && offset == at + SIDE_BYTES
  {
    ghost var row := ReadAll(AsUnsigned, message[at..], 3 * SNAPSHOT_LEN);
    side, offset := [], at;
    var i := 0;
    while i < SNAPSHOT_LEN
      invariant i <= SNAPSHOT_LEN && offset == at + ORDER_BYTES * i && side == OrdersIn(row, i)
    {
      OneMoreOrder(message, at, i, row);
      var o;
      o, offset := ReadOrder(message, offset);
      side := side + [o];
      i := i + 1;
    }
  }

  method GetSnapshot(message: seq<Byte>) returns (snapshot: ClientSnapshot)
    requires |message| >= MESSAGE_BYTES
    ensures snapshot == SnapshotIn(message)
  {
    var offset: nat := SYMBOL_BYTES;
    var seqLen := ReadBigEndian(message, offset, offset + 8);
    offset := offset + 8;
    var buySide, sellSide;
    buySide, offset := ReadSide(message, offset);
    sellSide, offset := ReadSide(message, offset);
    snapshot := ClientSnapshot(message[..SYMBOL_BYTES], seqLen, buySide, sellSide);
  }

  // ---------- round trip ----------

  lemma {:induction false} NumbersAgain(ns: seq<int>, k: nat)
    requires |ns| == 3 * k
    ensures SideNumbers(OrdersIn(ns, k)) == ns
  {
    if k > 0 {
      SameOrders(ns, ns[..3 * k - 3], k - 1);
      NumbersAgain(ns[..3 * k - 3], k - 1);
      assert OrdersIn(ns, k)[..k - 1] == OrdersIn(ns, k - 1);
      assert ns == ns[..3 * k - 3] + [ns[3 * k - 3], ns[3 * k - 2], ns[3 * k - 1]];
    }
  }

  lemma {:induction false} SameOrders(a: seq<int>, b: seq<int>, k: nat)
    requires |a| >= 3 * k && |b| >= 3 * k && forall j: nat | j < 3 * k :: a[j] == b[j]
    ensures OrdersIn(a, k) == OrdersIn(b, k)
  {
    if k > 0 {
      SameOrders(a, b, k - 1);
    }
  }

  predicate Fits(os: seq<ClientOrder>) {
    AllBelow(SideNumbers(os), Limit(AsUnsigned))
  }

  // A side is read back exactly when all its numbers fit
  lemma SideExact(os: seq<ClientOrder>, rest: seq<Byte>)
    requires |os| == SNAPSHOT_LEN
    ensures var b := WriteAll(SideNumbers(os)) + rest;
            && |WriteAll(SideNumbers(os))| >= SIDE_BYTES
            && (SideIn(b, 0) == os <==> Fits(os)) && (Fits(os) ==> |WriteAll(SideNumbers(os))| == SIDE_BYTES)
  {
    var ns := SideNumbers(os);
    var b := WriteAll(ns) + rest;
    FieldsExact(AsUnsigned, ns, rest);
    assert b[0..] == b;
    NumbersAgain(ReadAll(AsUnsigned, b, 3 * SNAPSHOT_LEN), SNAPSHOT_LEN);
    OrdersAgain(os, SNAPSHOT_LEN);
    assert os[..SNAPSHOT_LEN] == os;
  }

  // The sequence number is read back exactly when it is a non-negative 64-bit integer
  lemma SeqExact(seqLen: int, rest: seq<Byte>)
    ensures var w := Written(seqLen, SEQ_BYTES);
            && |w| >= SEQ_BYTES && (Signed64(Value((w + rest)[..SEQ_BYTES])) == seqLen
               <==> 0 <= seqLen < WORD_LIMIT / 2)
            && (0 <= seqLen < WORD_LIMIT / 2 ==> |w| == SEQ_BYTES)
  {
    var w := Written(seqLen, SEQ_BYTES);
    var n: nat := if seqLen > 0 then seqLen else 0;
    var b := (w + rest)[..SEQ_BYTES];
    Powers8();
    DigitsFit(n, SEQ_BYTES);
    BigEndianOfValue(b);
    if n < WORD_LIMIT {
      ValueOfBigEndian(n, SEQ_BYTES);
      assert b == w;
    }
  }

  lemma Powers8()
    ensures Pow256(SEQ_BYTES) == WORD_LIMIT
  {
    Powers();
    assert Pow256(8) == 256 * Pow256(7) && Pow256(7) == 256 * Pow256(6);
    assert Pow256(6) == 256 * Pow256(5) && Pow256(5) == 256 * Pow256(4);
  }

  lemma SideElsewhere(message: seq<Byte>, at: nat)
    requires at + SIDE_BYTES <= |message|
    ensures SideIn(message, at) == SideIn(message[at..], 0)
  {
    assert message[at..][0..] == message[at..];
  }

  // The parts of a message: where each begins once those before it fit
  lemma MessageParts(symbol: seq<Byte>, w: seq<Byte>, buys: seq<Byte>, sells: seq<Byte>)
    requires |symbol| == SYMBOL_BYTES && |w| >= SEQ_BYTES
    ensures var m := symbol + w + buys + sells;
            && m[..SYMBOL_BYTES] == symbol && m[4..12] == (w + (buys + sells))[..SEQ_BYTES]
            && (|w| == SEQ_BYTES ==> m[12..] == buys + sells)
            && (|w| == SEQ_BYTES && |buys| == SIDE_BYTES ==> m[12 + SIDE_BYTES..] == sells)
  {}

  /** What was read shows, entry by entry, the ids, prices and quantities of the orders shown. */
  predicate Shows(read: seq<ClientOrder>, shown: seq<Order>) {
    && |read| == |shown|
    && forall k: nat | k < |shown| ::
         read[k].id == shown[k].id && read[k].price == shown[k].price && read[k].qty == shown[k].qty
  }

  predicate InField(n: int) {
    0 <= n < 0x1_0000_0000
  }

  predicate AllInFields(shown: seq<Order>) {
    forall k: nat | k < |shown| :: InField(shown[k].id) && InField(shown[k].price) && InField(shown[k].qty)
  }

  lemma {:induction false} ToldAt(shown: seq<Order>, k: nat)
    requires k < |shown|
    ensures ToldAll(shown)[k] == ClientOrder(shown[k].id, shown[k].price, shown[k].qty)
  {
    if k < |shown| - 1 {
      ToldAt(shown[..|shown| - 1], k);
    }
  }

  lemma ToldShows(read: seq<ClientOrder>, shown: seq<Order>)
    ensures read == ToldAll(shown) <==> Shows(read, shown)
  {
    forall k: nat | k < |shown|
      ensures ToldAll(shown)[k] == ClientOrder(shown[k].id, shown[k].price, shown[k].qty)
    {
      ToldAt(shown, k);
    }
  }

  lemma {:induction false} ToldFits(shown: seq<Order>)
    ensures Fits(ToldAll(shown)) <==> AllInFields(shown)
  {
    if shown != [] {
      var last := |shown| - 1;
      var o := shown[last];
      var before, row := SideNumbers(ToldAll(shown[..last])), OrderNumbers(Told(o));
      ToldFits(shown[..last]);
      assert ToldAll(shown)[..last] == ToldAll(shown[..last]);
      assert SideNumbers(ToldAll(shown)) == before + row;
      RowInFields(o.id, o.price, o.qty);
      BelowBoth(before, row, Limit(AsUnsigned));
      InFieldsLast(shown);
    }
  }

  lemma RowInFields(a: int, b: int, c: int)
    ensures AllBelow([a, b, c], Limit(AsUnsigned)) <==> InField(a) && InField(b) && InField(c)
  {
    assert a in [a, b, c] && b in [a, b, c] && c in [a, b, c];
  }

  lemma BelowBoth(a: seq<int>, b: seq<int>, limit: nat)
    ensures AllBelow(a + b, limit) <==> AllBelow(a, limit) && AllBelow(b, limit)
  {
    assert forall n :: n in a + b <==> n in a || n in b;
  }

  lemma InFieldsLast(shown: seq<Order>)
    requires shown != []
    ensures var o := shown[|shown| - 1];
            AllInFields(shown) <==>
              AllInFields(shown[..|shown| - 1]) && InField(o.id) && InField(o.price) && InField(o.qty)
  {
    var last := |shown| - 1;
    assert forall k: nat | k < last :: shown[..last][k] == shown[k];
  }

  /** A subscriber reads from a snapshot's bytes the same symbol and, exactly when every id, price and
      quantity is non-negative and below 2^32 and the sequence number is a non-negative 64-bit integer,
      the same sequence number and the id, price and quantity of every order shown. */
  lemma SnapshotRoundTrip(symbol: seq<Byte>, seqLen: int, shown: Snapshot)
    requires |symbol| == SYMBOL_BYTES && |shown.buySide| == |shown.sellSide| == SNAPSHOT_LEN
    ensures var m := SnapshotBytes(symbol, seqLen, shown);
            && |m| >= MESSAGE_BYTES
            && var read := SnapshotIn(m);
            && read.symbol == symbol
            && (read.seqLen == seqLen && Shows(read.buySide, shown.buySide) && Shows(read.sellSide, shown.sellSide) <==>
                0 <= seqLen < WORD_LIMIT / 2 && AllInFields(shown.buySide) && AllInFields(shown.sellSide))
  {
    RowsRoundTrip(symbol, seqLen, shown);
    var read := SnapshotIn(SnapshotBytes(symbol, seqLen, shown));
    ToldShows(read.buySide, shown.buySide);
    ToldShows(read.sellSide, shown.sellSide);
    ToldFits(shown.buySide);
    ToldFits(shown.sellSide);
  }

  lemma RowsRoundTrip(symbol: seq<Byte>, seqLen: int, shown: Snapshot)
    requires |symbol| == SYMBOL_BYTES && |shown.buySide| == |shown.sellSide| == SNAPSHOT_LEN
    ensures var m, buys, sells := SnapshotBytes(symbol, seqLen, shown), ToldAll(shown.buySide), ToldAll(shown.sellSide);
            && |m| >= MESSAGE_BYTES && SnapshotIn(m).symbol == symbol
            && (SnapshotIn(m) == ClientSnapshot(symbol, seqLen, buys, sells) <==>
                0 <= seqLen < WORD_LIMIT / 2 && Fits(buys) && Fits(sells))
  {
    var buys, sells := ToldAll(shown.buySide), ToldAll(shown.sellSide);
    var w, b, s := Written(seqLen, SEQ_BYTES), WriteAll(SideNumbers(buys)), WriteAll(SideNumbers(sells));
    SeqExact(seqLen, b + s);
    SideExact(buys, s);
    SideExact(sells, []);
    MessageParts(symbol, w, b, s);
    var m := symbol + w + b + s;
    SideElsewhere(m, 12);
    SideElsewhere(m, 12 + SIDE_BYTES);
    assert s + [] == s;
  }
}

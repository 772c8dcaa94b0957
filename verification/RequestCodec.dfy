/** Requests on the wire: the frames a client builds, and what the server reads from them. */
module RequestCodec {
  import opened Config
  import opened Orders
  import opened Bytes
  import opened Fields

  const FRAME_BYTES: nat := 2 + SYMBOL_BYTES + QTY_BYTES + PRICE_BYTES + ID_BYTES

  const LETTER_ORDER: Byte := 'O' as int
  const LETTER_MODIFY: Byte := 'U' as int
  const LETTER_KILL: Byte := 'X' as int
  const LETTER_BUY: Byte := 'B' as int
  const LETTER_SELL: Byte := 'S' as int
  const SPACE: Byte := ' ' as int

  // ---------- the client's side ----------

  /** Spaces up to the length of a frame. */
  function Padded(s: seq<Byte>): seq<Byte> {
    if |s| < FRAME_BYTES then s + seq(FRAME_BYTES - |s|, _ => SPACE) else s
  }

  function SendFrame(letter: Byte, symbol: Symbol, price: int, qty: int): seq<Byte> {
    Padded([LETTER_ORDER, letter] + symbol + WriteAll([qty, price]))
  }

  function ModifyFrame(letter: Byte, symbol: Symbol, id: int, price: int, qty: int): seq<Byte> {
    Padded([LETTER_MODIFY, letter] + symbol + WriteAll([qty, price, id]))
  }

  function KillFrame(symbol: Symbol, id: int): seq<Byte> {
    Padded([LETTER_KILL] + symbol + WriteAll([id]))
  }

  method PadMessage(str: seq<Byte>) returns (padded: seq<Byte>)
    ensures padded == Padded(str)
  {
    padded := str;
    while |padded| < FRAME_BYTES
      invariant |padded| == |str| || |str| < |padded| <= FRAME_BYTES
      invariant padded == str + seq(|padded| - |str|, _ => SPACE)
    {
      padded := padded + [SPACE];
    }
  }

  method SendOrder(letter: Byte, symbol: Symbol, price: int, qty: int) returns (frame: seq<Byte>)
    ensures frame == SendFrame(letter, symbol, price, qty)
  {
    var qtyBytes := NumberToBytes(qty, QTY_BYTES);
    var priceBytes := NumberToBytes(price, PRICE_BYTES);
    WriteRow(qty, price, 0, 0);
    assert [LETTER_ORDER, letter] + symbol + WriteAll([qty, price]) == [LETTER_ORDER, letter] + symbol + qtyBytes
        + priceBytes;
    frame := PadMessage([LETTER_ORDER, letter] + symbol + qtyBytes + priceBytes);
  }

  method SendModify(letter: Byte, symbol: Symbol, id: int, price: int, qty: int) returns (frame: seq<Byte>)
    ensures frame == ModifyFrame(letter, symbol, id, price, qty)
  {
    var qtyBytes := NumberToBytes(qty, QTY_BYTES);
    var priceBytes := NumberToBytes(price, PRICE_BYTES);
    var idBytes := NumberToBytes(id, ID_BYTES);
    WriteRow(qty, price, id, 0);
    assert [LETTER_MODIFY, letter] + symbol + WriteAll([qty, price, id])
        == [LETTER_MODIFY, letter] + symbol + qtyBytes + priceBytes + idBytes;
    frame := PadMessage([LETTER_MODIFY, letter] + symbol + qtyBytes + priceBytes + idBytes);
  }

  method SendKill(symbol: Symbol, id: int) returns (frame: seq<Byte>)
    ensures frame == KillFrame(symbol, id)
  {
    var idBytes := NumberToBytes(id, ID_BYTES);
    WriteRow(id, 0, 0, 0);
    frame := PadMessage([LETTER_KILL] + symbol + idBytes);
  }

  // ---------- the server's side ----------

  function SideOf(letter: Byte): Side {
    if letter == LETTER_BUY then Buy else Sell
  }

  // The four-byte field at an offset
  function FieldAt(message: seq<Byte>, at: nat): int
    requires at + FIELD_BYTES <= |message|
  {
    Field(AsInt, message[at..at + FIELD_BYTES])
  }

  method ReadField(message: seq<Byte>, at: nat) returns (n: int)
    requires at + FIELD_BYTES <= |message|
    ensures n == FieldAt(message, at)
  {
    n := ByteConversion(message, at, at + FIELD_BYTES - 1);
  }

  method CopySymbol(message: seq<Byte>, at: nat) returns (symbol: Symbol)
    requires at + SYMBOL_BYTES <= |message|
    ensures symbol == message[at..at + SYMBOL_BYTES]
  {
    var copied: seq<Byte> := [];
    var i := 0;
    while i < SYMBOL_BYTES
      invariant i <= SYMBOL_BYTES && copied == message[at..at + i]
    {
      copied := copied + [message[at + i]];
      i := i + 1;
    }
    symbol := copied;
  }

  function SendDecoded(message: seq<Byte>): Order
    requires |message| >= FRAME_BYTES
  {
    Order(FieldAt(message, 10), FieldAt(message, 6), message[2..6], SideOf(message[1]), RequestType.SendOrder, 0, 0, 0)
  }

  function ModifyDecoded(message: seq<Byte>): Order
    requires |message| >= FRAME_BYTES
  {
    Order(FieldAt(message, 10), FieldAt(message, 6), message[2..6], SideOf(message[1]), RequestType.ModifyOrder, 0,
        FieldAt(message, 14), 0)
  }

  // The side of a decoded cancellation is never set; `unset` is whatever was there
  function KillDecoded(message: seq<Byte>, unset: Side): Order
    requires |message| >= FRAME_BYTES
  {
    Order(0, 0, message[1..5], unset, RequestType.KillOrder, 0, FieldAt(message, 5), 0)
  }

  method DecodeSendOrder(message: seq<Byte>) returns (order: Order)
    requires |message| >= FRAME_BYTES
    ensures order == SendDecoded(message)
  {
    var symbol := CopySymbol(message, 2);
    var qty := ReadField(message, SYMBOL_BYTES + 2);
    var price := ReadField(message, SYMBOL_BYTES + QTY_BYTES + 2);
    order := Order(price, qty, symbol, SideOf(message[1]), RequestType.SendOrder, 0, 0, 0);
  }

  method DecodeModifyOrder(message: seq<Byte>) returns (order: Order)
    requires |message| >= FRAME_BYTES
    ensures order == ModifyDecoded(message)
  {
    var symbol := CopySymbol(message, 2);
    var qty := ReadField(message, SYMBOL_BYTES + 2);
    var price := ReadField(message, SYMBOL_BYTES + QTY_BYTES + 2);
    var delId := ReadField(message, SYMBOL_BYTES + QTY_BYTES + PRICE_BYTES + 2);
    order := Order(price, qty, symbol, SideOf(message[1]), RequestType.ModifyOrder, 0, delId, 0);
  }

  method DecodeKillOrder(message: seq<Byte>, unset: Side) returns (order: Order)
    requires |message| >= FRAME_BYTES
    ensures order == KillDecoded(message, unset)
  {
    var symbol := CopySymbol(message, 1);
    var delId := ReadField(message, SYMBOL_BYTES + 1);
    order := Order(0, 0, symbol, unset, RequestType.KillOrder, 0, delId, 0);
  }

  // The fields at the offsets of a row
  lemma {:induction false} FieldsAt(f: seq<Byte>, at: nat, k: nat, j: nat)
    requires at + FIELD_BYTES * k <= |f| && j < k
    ensures ReadAll(AsInt, f[at..], k)[j] == FieldAt(f, at + FIELD_BYTES * j)
    decreases k
  {
    assert f[at..][..FIELD_BYTES] == f[at..at + FIELD_BYTES];
    if j > 0 {
      FieldsAt(f, at + FIELD_BYTES, k - 1, j - 1);
      assert f[at..][FIELD_BYTES..] == f[at + FIELD_BYTES..];
    }
  }

  // ---------- round trips ----------

  // A padded frame is its head, its numbers and the padding
  lemma FrameParts(head: seq<Byte>, written: seq<Byte>) returns (pad: seq<Byte>)
    ensures var f := Padded(head + written);
            && f[..|head|] == head && f[|head|..] == written + pad && |f| >= FRAME_BYTES
            && |f| == |head| + |written| + |pad| && (|head| + |written| <= FRAME_BYTES ==> |f| == FRAME_BYTES)
  {
    pad := if |head + written| < FRAME_BYTES then seq(FRAME_BYTES - |head + written|, _ => SPACE) else [];
    assert Padded(head + written) == head + (written + pad);
  }

  // The row of fields behind the head, in the bytes the server reads of a frame
  function NumbersIn(frame: seq<Byte>, head: nat, k: nat): seq<int>
    requires head + FIELD_BYTES * k <= FRAME_BYTES <= |frame|
  {
    ReadAll(AsInt, frame[..FRAME_BYTES][head..], k)
  }

  /** The server reads from a frame the head it was built with, and its numbers exactly when they
      are all non-negative and below 2^31; the frame then has its fixed length. */
  lemma FrameExact(head: seq<Byte>, ns: seq<int>)
    requires |head| + FIELD_BYTES * |ns| <= FRAME_BYTES
    ensures var f := Padded(head + WriteAll(ns));
            && |f| >= FRAME_BYTES && f[..|head|] == head
            && (NumbersIn(f, |head|, |ns|) == ns <==> AllBelow(ns, Limit(AsInt)))
            && (AllBelow(ns, Limit(AsInt)) ==> |f| == FRAME_BYTES)
  {
    var f := Padded(head + WriteAll(ns));
    var pad := FrameParts(head, WriteAll(ns));
    FieldsExact(AsInt, ns, pad);
    ReadPrefix(AsInt, f[..FRAME_BYTES][|head|..], f[|head|..], |ns|);
  }

  /** The layout of each frame whose numbers fit. */
  lemma FrameLayouts(letter: Byte, symbol: Symbol, id: int, price: int, qty: int)
    requires 0 <= id < 0x1_0000_0000 && 0 <= price < 0x1_0000_0000 && 0 <= qty < 0x1_0000_0000
    ensures var field := (n: nat) => BigEndian(n, 4);
            && SendFrame(letter, symbol, price, qty)
                 == ['O' as int, letter] + symbol + field(qty) + field(price) + seq(4, _ => ' ' as int)
            && ModifyFrame(letter, symbol, id, price, qty)
                 == ['U' as int, letter] + symbol + field(qty) + field(price) + field(id)
            && KillFrame(symbol, id) == ['X' as int] + symbol + field(id) + seq(9, _ => ' ' as int)
  {
    WrittenFits(id);
    WrittenFits(price);
    WrittenFits(qty);
    WriteRow(qty, price, id, 0);
    WriteRow(id, 0, 0, 0);
  }

  /** A new order arrives as it was sent exactly when its quantity and price fit. */
  lemma SendRoundTrip(letter: Byte, symbol: Symbol, price: int, qty: int)
    ensures var f := SendFrame(letter, symbol, price, qty);
            && |f| >= FRAME_BYTES && f[0] == LETTER_ORDER
            && var o := SendDecoded(f[..FRAME_BYTES]);
            && o.symbol == symbol && o.side == SideOf(letter)
            && (o.qty == qty && o.price == price <==> AllBelow([qty, price], Limit(AsInt)))
            && (AllBelow([qty, price], Limit(AsInt)) ==> |f| == FRAME_BYTES)
  {
    var head, ns := [LETTER_ORDER, letter] + symbol, [qty, price];
    FrameExact(head, ns);
    var f := Padded(head + WriteAll(ns));
    assert f[..6][2..] == f[..FRAME_BYTES][2..6] && head[2..] == symbol && f[..6][0] == head[0] && f[..6][1] == head[1];
    FieldsAt(f[..FRAME_BYTES], 6, 2, 0);
    FieldsAt(f[..FRAME_BYTES], 6, 2, 1);
  }

  /** So does a modification, with the id of the order it replaces. */
  lemma ModifyRoundTrip(letter: Byte, symbol: Symbol, id: int, price: int, qty: int)
    ensures var f := ModifyFrame(letter, symbol, id, price, qty);
            && |f| >= FRAME_BYTES && f[0] == LETTER_MODIFY
            && var o := ModifyDecoded(f[..FRAME_BYTES]);
            && o.symbol == symbol && o.side == SideOf(letter)
            && (o.qty == qty && o.price == price && o.delId == id <==> AllBelow([qty, price, id], Limit(AsInt)))
            && (AllBelow([qty, price, id], Limit(AsInt)) ==> |f| == FRAME_BYTES)
  {
    var head, ns := [LETTER_MODIFY, letter] + symbol, [qty, price, id];
    FrameExact(head, ns);
    var f := Padded(head + WriteAll(ns));
    assert f[..6][2..] == f[..FRAME_BYTES][2..6] && head[2..] == symbol && f[..6][0] == head[0] && f[..6][1] == head[1];
    FieldsAt(f[..FRAME_BYTES], 6, 3, 0);
    FieldsAt(f[..FRAME_BYTES], 6, 3, 1);
    FieldsAt(f[..FRAME_BYTES], 6, 3, 2);
  }

  /** And a cancellation, except for the side, which it does not carry. */
  lemma KillRoundTrip(symbol: Symbol, id: int, unset: Side)
    ensures var f := KillFrame(symbol, id);
            && |f| >= FRAME_BYTES && f[0] == LETTER_KILL
            && var o := KillDecoded(f[..FRAME_BYTES], unset);
            && o.symbol == symbol && (o.delId == id <==> AllBelow([id], Limit(AsInt)))
            && (AllBelow([id], Limit(AsInt)) ==> |f| == FRAME_BYTES)
  {
    var head, ns := [LETTER_KILL] + symbol, [id];
    FrameExact(head, ns);
    var f := Padded(head + WriteAll(ns));
    assert f[..5][1..] == f[..FRAME_BYTES][1..5] && head[1..] == symbol && f[..5][0] == head[0];
    FieldsAt(f[..FRAME_BYTES], 5, 1, 0);
  }
}

/** Responses on the wire: what the server writes to a session, and how the client cuts the byte
    stream back into responses. */
module ResponseCodec {
  import opened Config
  import opened Orders
  import opened Bytes
  import opened Fields
  import opened RequestCodec

  const LETTER_ACK: Byte := 'A' as int
  const LETTER_FULL: Byte := 'F' as int
  const LETTER_PARTIAL: Byte := 'P' as int
  const LETTER_CONFIRM: Byte := 'K' as int
  const LETTER_ERROR: Byte := 'J' as int

  const MAX_RESPONSE_BODY_BYTES: nat := 2 + SYMBOL_BYTES + QTY_BYTES + PRICE_BYTES + 2 * ID_BYTES

  /** A response as the client decodes it. */
  datatype Response =
    | Acknowledged(request: Byte, side: Byte, symbol: Symbol, qty: int, price: int, id: int, delId: int)
    | Filled(side: Byte, symbol: Symbol, id: int, qty: int, price: int)
    | PartlyFilled(side: Byte, symbol: Symbol, id: int, qty: int, remaining: int, price: int)
    | Removed(symbol: Symbol, id: int, qty: int)
    | Failed(code: int)

  function TypeLetter(r: Response): Byte {
    match r
    case Acknowledged(_, _, _, _, _, _, _) => LETTER_ACK
    case Filled(_, _, _, _, _) => LETTER_FULL
    case PartlyFilled(_, _, _, _, _, _) => LETTER_PARTIAL
    case Removed(_, _, _) => LETTER_CONFIRM
    case Failed(_) => LETTER_ERROR
  }

  // The letters and the symbol in front of the numbers
  function Head(r: Response): seq<Byte> {
    match r
    case Acknowledged(request, side, symbol, _, _, _, _) => [request, side] + symbol
    case Filled(side, symbol, _, _, _) => [side] + symbol
    case PartlyFilled(side, symbol, _, _, _, _) => [side] + symbol
    case Removed(symbol, _, _) => symbol
    case Failed(_) => []
  }

  function Numbers(r: Response): seq<int> {
    match r
    case Acknowledged(_, _, _, qty, price, id, delId) => [qty, price, id, delId]
    case Filled(_, _, id, qty, price) => [id, qty, price]
    case PartlyFilled(_, _, id, qty, remaining, price) => [id, qty, remaining, price]
    case Removed(_, id, qty) => [id, qty]
    case Failed(code) => [code]
  }

  function Encoded(r: Response): seq<Byte> {
    [TypeLetter(r)] + Head(r) + WriteAll(Numbers(r))
  }

  // ---------- the server's encoders ----------

  function SideLetter(side: Side): Byte {
    if side.Buy? then LETTER_BUY else LETTER_SELL
  }

  /** What a message of the book says to its session. */
  function ResponseOf(m: Message): Response {
    match m
    case FullFill(o, fillQty, fillPrice) => Filled(SideLetter(o.side), o.symbol, o.id, fillQty, fillPrice)
    case PartialFill(o, fillQty, remaining, fillPrice) =>
      PartlyFilled(SideLetter(o.side), o.symbol, o.id, fillQty, remaining, fillPrice)
    case KillConfirm(o) => Removed(o.symbol, o.id, o.qty)
    case Error(code) => Failed(code)
  }

  function AckOf(o: Order, request: Byte): Response {
    Acknowledged(request, SideLetter(o.side), o.symbol, o.qty, o.price, o.id, o.delId)
  }

  method AppendSymbol(msg: seq<Byte>, symbol: Symbol) returns (longer: seq<Byte>)
    ensures longer == msg + symbol
  {
    longer := msg;
    var i := 0;
    while i < SYMBOL_BYTES
      invariant i <= SYMBOL_BYTES && longer == msg + symbol[..i]
    {
      longer := longer + [symbol[i]];
      i := i + 1;
    }
    assert symbol[..i] == symbol;
  }

  method EncodeAck(order: Order, request: Byte) returns (msg: seq<Byte>)
    ensures msg == Encoded(AckOf(order, request))
  {
    msg := AppendSymbol([LETTER_ACK] + [request] + [SideLetter(order.side)], order.symbol);
    var qty := NumberToBytes(order.qty, QTY_BYTES);
    var price := NumberToBytes(order.price, PRICE_BYTES);
    var id := NumberToBytes(order.id, ID_BYTES);
    var delId := NumberToBytes(order.delId, ID_BYTES);
    WriteRow(order.qty, order.price, order.id, order.delId);
    msg := msg + qty + price + id + delId;
  }

  method EncodeFullFill(order: Order, fillQty: int, fillPrice: int) returns (msg: seq<Byte>)
    ensures msg == Encoded(ResponseOf(FullFill(order, fillQty, fillPrice)))
  {
    msg := AppendSymbol([LETTER_FULL] + [SideLetter(order.side)], order.symbol);
    var id := NumberToBytes(order.id, ID_BYTES);
    var qty := NumberToBytes(fillQty, QTY_BYTES);
    var price := NumberToBytes(fillPrice, PRICE_BYTES);
    WriteRow(order.id, fillQty, fillPrice, 0);
    msg := msg + id + qty + price;
  }

  method EncodePartialFill(order: Order, fillQty: int, remaining: int, fillPrice: int) returns (msg: seq<Byte>)
    ensures msg == Encoded(ResponseOf(PartialFill(order, fillQty, remaining, fillPrice)))
  {
    msg := AppendSymbol([LETTER_PARTIAL] + [SideLetter(order.side)], order.symbol);
    var id := NumberToBytes(order.id, ID_BYTES);
    var qty := NumberToBytes(fillQty, QTY_BYTES);
    var left := NumberToBytes(remaining, QTY_BYTES);
    var price := NumberToBytes(fillPrice, PRICE_BYTES);
    WriteRow(order.id, fillQty, remaining, fillPrice);
    msg := msg + id + qty + left + price;
  }

  method EncodeKillConfirm(order: Order) returns (msg: seq<Byte>)
    ensures msg == Encoded(ResponseOf(KillConfirm(order)))
  {
    msg := AppendSymbol([LETTER_CONFIRM], order.symbol);
    var id := NumberToBytes(order.id, ID_BYTES);
    var qty := NumberToBytes(order.qty, QTY_BYTES);
    WriteRow(order.id, order.qty, 0, 0);
    msg := msg + id + qty;
  }

  method EncodeError(code: int) returns (msg: seq<Byte>)
    ensures msg == Encoded(ResponseOf(Error(code)))
  {
    var number := NumberToBytes(code, 4);
    WriteRow(code, 0, 0, 0);
    msg := [LETTER_ERROR] + number;
  }

  // ---------- the client's decoders ----------

  /** How many bytes follow a type byte; none after an unknown one. */
  function ResponseBodyLength(letter: Byte): nat {
    if letter == LETTER_ACK then 2 + SYMBOL_BYTES + QTY_BYTES + PRICE_BYTES + 2 * ID_BYTES
    else if letter == LETTER_FULL then 1 + SYMBOL_BYTES + ID_BYTES + QTY_BYTES + PRICE_BYTES
    else if letter == LETTER_PARTIAL then 1 + SYMBOL_BYTES + ID_BYTES + 2 * QTY_BYTES + PRICE_BYTES
    else if letter == LETTER_CONFIRM then SYMBOL_BYTES + ID_BYTES + QTY_BYTES
    else if letter == LETTER_ERROR then 4
    else 0
  }

  /** What the client makes of a body. */
  function Decoded(letter: Byte, body: seq<Byte>): Response
    requires 0 < ResponseBodyLength(letter) == |body|
  {
    if letter == LETTER_ACK then
      Acknowledged(body[0], body[1], body[2..6], FieldAt(body, 6), FieldAt(body, 10), FieldAt(body, 14),
          FieldAt(body, 18))
    else if letter == LETTER_FULL then
      Filled(body[0], body[1..5], FieldAt(body, 5), FieldAt(body, 9), FieldAt(body, 13))
    else if letter == LETTER_PARTIAL then
      PartlyFilled(body[0], body[1..5], FieldAt(body, 5), FieldAt(body, 9), FieldAt(body, 13), FieldAt(body, 17))
    else if letter == LETTER_CONFIRM then
      Removed(body[0..4], FieldAt(body, 4), FieldAt(body, 8))
    else
      Failed(FieldAt(body, 0))
  }

  method DecodeAck(body: seq<Byte>) returns (r: Response)
    requires |body| == ResponseBodyLength(LETTER_ACK)
    ensures r == Decoded(LETTER_ACK, body)
  {
    var off := 2 + SYMBOL_BYTES;
    var qty := ReadField(body, off);
    off := off + QTY_BYTES;
    var price := ReadField(body, off);
    off := off + PRICE_BYTES;
    var id := ReadField(body, off);
    off := off + ID_BYTES;
    var delId := ReadField(body, off);
    r := Acknowledged(body[0], body[1], body[2..2 + SYMBOL_BYTES], qty, price, id, delId);
  }

  method DecodeFullFill(body: seq<Byte>) returns (r: Response)
    requires |body| == ResponseBodyLength(LETTER_FULL)
    ensures r == Decoded(LETTER_FULL, body)
  {
    var off := 1 + SYMBOL_BYTES;
    var id := ReadField(body, off);
    off := off + ID_BYTES;
    var qty := ReadField(body, off);
    off := off + QTY_BYTES;
    var price := ReadField(body, off);
    r := Filled(body[0], body[1..1 + SYMBOL_BYTES], id, qty, price);
  }

  method DecodePartialFill(body: seq<Byte>) returns (r: Response)
    requires |body| == ResponseBodyLength(LETTER_PARTIAL)
    ensures r == Decoded(LETTER_PARTIAL, body)
  {
    var off := 1 + SYMBOL_BYTES;
    var id := ReadField(body, off);
    off := off + ID_BYTES;
    var qty := ReadField(body, off);
    off := off + QTY_BYTES;
    var remaining := ReadField(body, off);
    off := off + QTY_BYTES;
    var price := ReadField(body, off);
    r := PartlyFilled(body[0], body[1..1 + SYMBOL_BYTES], id, qty, remaining, price);
  }

  method DecodeKillConfirm(body: seq<Byte>) returns (r: Response)
    requires |body| == ResponseBodyLength(LETTER_CONFIRM)
    ensures r == Decoded(LETTER_CONFIRM, body)
  {
    var off := SYMBOL_BYTES;
    var id := ReadField(body, off);
    off := off + ID_BYTES;
    var qty := ReadField(body, off);
    r := Removed(body[0..SYMBOL_BYTES], id, qty);
  }

  method DecodeError(body: seq<Byte>) returns (r: Response)
    requires |body| == ResponseBodyLength(LETTER_ERROR)
    ensures r == Decoded(LETTER_ERROR, body)
  {
    var code := ReadField(body, 0);
    r := Failed(code);
  }

  method DecodeBody(letter: Byte, body: seq<Byte>) returns (r: Response)
    requires 0 < ResponseBodyLength(letter) == |body|
    ensures r == Decoded(letter, body)
  {
    if letter == LETTER_ACK {
      r := DecodeAck(body);
    } else if letter == LETTER_FULL {
      r := DecodeFullFill(body);
    } else if letter == LETTER_PARTIAL {
      r := DecodePartialFill(body);
    } else if letter == LETTER_CONFIRM {
      r := DecodeKillConfirm(body);
    } else {
      r := DecodeError(body);
    }
  }

  // ---------- cutting the stream ----------

  datatype Heard = Heard(responses: seq<Response>, rest: seq<Byte>)

  /** The responses in a stream, and what is left waiting for more bytes: type byte, then as many
      bytes as its body has; an unknown type byte is passed over. */
  function Hear(stream: seq<Byte>): Heard
    decreases |stream|
  {
    if stream == [] then Heard([], [])
    else
      var n := ResponseBodyLength(stream[0]);
      if n == 0 then Hear(stream[1..])
      else if |stream| < 1 + n then Heard([], stream)
      else
        var more := Hear(stream[1 + n..]);
        Heard([Decoded(stream[0], stream[1..1 + n])] + more.responses, more.rest)
  }

  lemma HearOne(done: seq<Response>, rest: seq<Byte>, n: nat, r: Response)
    requires rest != [] && n == ResponseBodyLength(rest[0]) > 0 && 1 + n <= |rest|
        && r == Decoded(rest[0], rest[1..1 + n])
    ensures done + Hear(rest).responses == (done + [r]) + Hear(rest[1 + n..]).responses
    ensures Hear(rest).rest == Hear(rest[1 + n..]).rest
  {
    assert Hear(rest).responses == [r] + Hear(rest[1 + n..]).responses;
  }

  /** The client's reading loop over the bytes that arrive. */
  method ClientTCPListener(stream: seq<Byte>) returns (responses: seq<Response>, rest: seq<Byte>)
    ensures Heard(responses, rest) == Hear(stream)
  {
    responses, rest := [], stream;
    while rest != []
      invariant Hear(stream) == Heard(responses + Hear(rest).responses, Hear(rest).rest)
      decreases |rest|
    {
      var letter := rest[0];
      var bodyLen := ResponseBodyLength(letter);
      if bodyLen == 0 || bodyLen > MAX_RESPONSE_BODY_BYTES {
        rest := rest[1..];
      } else if |rest| < 1 + bodyLen {
        return;
      } else {
        var r := DecodeBody(letter, rest[1..1 + bodyLen]);
        HearOne(responses, rest, bodyLen, r);
        responses := responses + [r];
        rest := rest[1 + bodyLen..];
      }
    }
  }

  // ---------- framing ----------

  /** Every number of the response is non-negative and below 2^31. */
  predicate Fits(r: Response) {
    AllBelow(Numbers(r), Limit(AsInt))
  }

  function EncodedAll(rs: seq<Response>): seq<Byte> {
    if rs == [] then [] else Encoded(rs[0]) + EncodedAll(rs[1..])
  }

  lemma BodyLength(r: Response)
    ensures ResponseBodyLength(TypeLetter(r)) == |Head(r)| + FIELD_BYTES * |Numbers(r)| > 0
  {}

  // The numbers of a decoded body are the row of its fields
  lemma DecodedNumbers(letter: Byte, body: seq<Byte>)
    requires 0 < ResponseBodyLength(letter) == |body|
    ensures var d := Decoded(letter, body);
            && TypeLetter(d) == letter && |Head(d)| + FIELD_BYTES * |Numbers(d)| == |body|
               && Head(d) == body[..|Head(d)|]
            && Numbers(d) == ReadAll(AsInt, body[|Head(d)|..], |Numbers(d)|)
  {
    var d := Decoded(letter, body);
    BodyLength(d);
    var read := ReadAll(AsInt, body[|Head(d)|..], |Numbers(d)|);
    forall j: nat | j < |read| ensures read[j] == Numbers(d)[j] {
      FieldsAt(body, |Head(d)|, |Numbers(d)|, j);
    }
  }

  // A response from its type, its head and its numbers
  function Rebuilt(letter: Byte, head: seq<Byte>, ns: seq<int>): Response
    requires |ns| <= 4 && |head| <= 6 && ResponseBodyLength(letter) == |head| + FIELD_BYTES * |ns| > 0
    requires |head| == (if letter == LETTER_ACK then 6 else if letter == LETTER_CONFIRM then 4
        else if letter == LETTER_ERROR then 0 else 5)
  {
    if letter == LETTER_ACK then Acknowledged(head[0], head[1], head[2..], ns[0], ns[1], ns[2], ns[3])
    else if letter == LETTER_FULL then Filled(head[0], head[1..], ns[0], ns[1], ns[2])
    else if letter == LETTER_PARTIAL then PartlyFilled(head[0], head[1..], ns[0], ns[1], ns[2], ns[3])
    else if letter == LETTER_CONFIRM then Removed(head, ns[0], ns[1])
    else Failed(ns[0])
  }

  lemma RebuiltSame(r: Response)
    ensures Rebuilt(TypeLetter(r), Head(r), Numbers(r)) == r
  {
    match r
    case Acknowledged(request, side, symbol, _, _, _, _) => assert ([request, side] + symbol)[2..] == symbol;
    case Filled(side, symbol, _, _, _) => assert ([side] + symbol)[1..] == symbol;
    case PartlyFilled(side, symbol, _, _, _, _) => assert ([side] + symbol)[1..] == symbol;
    case Removed(_, _, _) =>
    case Failed(_) =>
  }

  lemma SameParts(a: Response, b: Response)
    requires TypeLetter(a) == TypeLetter(b) && Head(a) == Head(b) && Numbers(a) == Numbers(b)
    ensures a == b
  {
    RebuiltSame(a);
    RebuiltSame(b);
  }

  lemma SameShape(a: Response, b: Response)
    requires TypeLetter(a) == TypeLetter(b)
    ensures |Head(a)| == |Head(b)| && |Numbers(a)| == |Numbers(b)|
  {}

  lemma DecodedEquals(r: Response, body: seq<Byte>)
    requires |body| == ResponseBodyLength(TypeLetter(r)) == |Head(r)| + FIELD_BYTES * |Numbers(r)| > 0
    ensures Decoded(TypeLetter(r), body) == r <==>
            body[..|Head(r)|] == Head(r) && ReadAll(AsInt, body[|Head(r)|..], |Numbers(r)|) == Numbers(r)
  {
    var d := Decoded(TypeLetter(r), body);
    DecodedNumbers(TypeLetter(r), body);
    SameShape(d, r);
    if Head(d) == Head(r) && Numbers(d) == Numbers(r) {
      SameParts(d, r);
    }
  }

  // The bytes after the first of a type byte, a head and whatever follows
  lemma Middle(letter: Byte, head: seq<Byte>, more: seq<Byte>, n: nat)
    requires |head| <= n <= |head| + |more|
    ensures var body := ([letter] + head + more)[1..1 + n];
            body[..|head|] == head && body[|head|..] == more[..n - |head|]
  {
    var whole := [letter] + head + more;
    assert whole[1..1 + n][..|head|] == whole[1..1 + |head|];
    assert whole[1..1 + n][|head|..] == whole[1 + |head|..1 + n];
  }

  /** The client decodes a response from the bytes that start with its encoding exactly when its
      numbers fit, and then its encoding is what it reads. */
  lemma DecodedExact(r: Response, rest: seq<Byte>)
    ensures var b, n := Encoded(r) + rest, ResponseBodyLength(TypeLetter(r));
            && |Encoded(r)| >= 1 + n > 1
            && b[0] == TypeLetter(r) && (Decoded(b[0], b[1..1 + n]) == r <==> Fits(r))
            && (Fits(r) ==> |Encoded(r)| == 1 + n)
  {
    BodyLength(r);
    FieldsExact(AsInt, Numbers(r), rest);
    var b, n := Encoded(r) + rest, ResponseBodyLength(TypeLetter(r));
    var more := WriteAll(Numbers(r)) + rest;
    Regroup([TypeLetter(r)] + Head(r), WriteAll(Numbers(r)), rest);
    Middle(TypeLetter(r), Head(r), more, n);
    ReadPrefix(AsInt, more[..n - |Head(r)|], more, |Numbers(r)|);
    DecodedEquals(r, b[1..1 + n]);
  }

  // The first response heard in bytes that start with an encoding
  lemma HearFirst(r: Response, rest: seq<Byte>)
    ensures var heard := Hear(Encoded(r) + rest);
            && heard.responses != [] && (heard.responses[0] == r <==> Fits(r))
            && (Fits(r) ==> heard == Heard([r] + Hear(rest).responses, Hear(rest).rest))
  {
    var b, n := Encoded(r) + rest, ResponseBodyLength(TypeLetter(r));
    DecodedExact(r, rest);
    assert Hear(b).responses == [Decoded(b[0], b[1..1 + n])] + Hear(b[1 + n..]).responses;
    if Fits(r) {
      assert b[1 + n..] == rest;
    }
  }

  predicate AllFit(rs: seq<Response>) {
    forall r | r in rs :: Fits(r)
  }

  lemma AllFitNext(rs: seq<Response>)
    requires rs != []
    ensures AllFit(rs) <==> Fits(rs[0]) && AllFit(rs[1..])
  {
    assert rs[0] in rs && (forall r | r in rs[1..] :: r in rs) && forall r | r in rs :: r == rs[0] || r in rs[1..];
  }

  lemma SameFirst(a: seq<Response>, b: seq<Response>)
    requires a != [] && b != []
    ensures a == b <==> a[0] == b[0] && a[1..] == b[1..]
  {
    assert a == [a[0]] + a[1..] && b == [b[0]] + b[1..];
  }

  /** The client recovers a whole sequence of responses from their concatenated encodings exactly
      when all their numbers fit. */
  lemma {:induction false} FramingExact(rs: seq<Response>)
    ensures Hear(EncodedAll(rs)).responses == rs <==> AllFit(rs)
  {
    if rs != [] {
      FramingExact(rs[1..]);
      HearFirst(rs[0], EncodedAll(rs[1..]));
      AllFitNext(rs);
      SameFirst(Hear(EncodedAll(rs)).responses, rs);
    }
  }

  // Responses in front of what is heard later
  function Before(rs: seq<Response>, later: Heard): Heard {
    Heard(rs + later.responses, later.rest)
  }

  lemma BeforeOneMore(rs: seq<Response>, later: Heard)
    requires rs != []
    ensures Before([rs[0]], Before(rs[1..], later)) == Before(rs, later)
  {
    assert [rs[0]] + (rs[1..] + later.responses) == rs + later.responses;
  }

  lemma HearFitting(r: Response, rest: seq<Byte>)
    requires Fits(r)
    ensures Hear(Encoded(r) + rest) == Before([r], Hear(rest))
  {
    HearFirst(r, rest);
  }

  /** And whatever follows them is heard as if it came first. */
  lemma {:induction false} FramingContinues(rs: seq<Response>, later: seq<Byte>)
    requires AllFit(rs)
    ensures Hear(EncodedAll(rs) + later) == Before(rs, Hear(later))
  {
    if rs == [] {
      assert [] + later == later;
    } else {
      var more := EncodedAll(rs[1..]) + later;
      AllFitNext(rs);
      FramingContinues(rs[1..], later);
      HearFitting(rs[0], more);
      Regroup(Encoded(rs[0]), EncodedAll(rs[1..]), later);
      BeforeOneMore(rs, Hear(later));
    }
  }

  // ---------- streams in general ----------

  function Joined(first: Heard, later: Heard): Heard {
    Heard(first.responses + later.responses, later.rest)
  }

  lemma BeforeJoined(r: Response, first: Heard, later: Heard)
    ensures Before([r], Joined(first, later)) == Joined(Before([r], first), later)
  {
    assert [r] + (first.responses + later.responses) == ([r] + first.responses) + later.responses;
  }

  // A complete body at the front of a stream
  lemma HearCut(stream: seq<Byte>, n: nat)
    requires stream != [] && n == ResponseBodyLength(stream[0]) > 0 && 1 + n <= |stream|
    ensures Hear(stream) == Before([Decoded(stream[0], stream[1..1 + n])], Hear(stream[1 + n..]))
  {}

  lemma SliceBoth(a: seq<Byte>, b: seq<Byte>, n: nat)
    requires a != [] && 1 + n <= |a|
    ensures (a + b)[0] == a[0] && (a + b)[1..1 + n] == a[1..1 + n] && (a + b)[1 + n..] == a[1 + n..] + b
  {}

  /** Hearing a stream in two parts, keeping what the first part leaves incomplete, is hearing it whole. */
  lemma {:induction false} HearInParts(a: seq<Byte>, b: seq<Byte>)
    ensures Hear(a + b) == Joined(Hear(a), Hear(Hear(a).rest + b))
    decreases |a|
  {
    if a == [] {
      assert [] + b == b && [] + Hear(b).responses == Hear(b).responses;
    } else {
      var n := ResponseBodyLength(a[0]);
      if n == 0 {
        SliceBoth(a, b, 0);
        HearInParts(a[1..], b);
      } else if |a| < 1 + n {
        assert [] + Hear(a + b).responses == Hear(a + b).responses;
      } else {
        HearInParts(a[1 + n..], b);
        HearWhole(a, b, n, Hear(a[1 + n..]), Hear(Hear(a[1 + n..]).rest + b));
      }
    }
  }

  // A body that is complete in the first part
  lemma HearWhole(a: seq<Byte>, b: seq<Byte>, n: nat, more: Heard, later: Heard)
    requires a != [] && n == ResponseBodyLength(a[0]) > 0 && 1 + n <= |a|
    requires more == Hear(a[1 + n..]) && later == Hear(more.rest + b) && Hear(a[1 + n..] + b) == Joined(more, later)
    ensures Hear(a + b) == Joined(Hear(a), later) && Hear(a).rest == more.rest
  {
    var r := Decoded(a[0], a[1..1 + n]);
    SliceBoth(a, b, n);
    HearCut(a, n);
    HearCut(a + b, n);
    BeforeJoined(r, more, later);
  }

  /** Bytes that are no type byte are passed over. */
  lemma {:induction false} HearPastUnknown(junk: seq<Byte>, stream: seq<Byte>)
    requires forall b | b in junk :: b !in {LETTER_ACK, LETTER_FULL, LETTER_PARTIAL, LETTER_CONFIRM, LETTER_ERROR}
    ensures Hear(junk + stream) == Hear(stream)
  {
    if junk == [] {
      assert junk + stream == stream;
    } else {
      assert (junk + stream)[1..] == junk[1..] + stream && junk[0] in junk && forall b | b in junk[1..] :: b in junk;
      HearPastUnknown(junk[1..], stream);
    }
  }

  /** Nothing is heard of a body before its last byte has come. */
  lemma HearWaits(stream: seq<Byte>)
    requires stream != [] && 0 < ResponseBodyLength(stream[0]) && |stream| <= ResponseBodyLength(stream[0])
    ensures Hear(stream) == Heard([], stream)
  {}
}

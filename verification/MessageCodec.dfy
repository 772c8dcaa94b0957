/** From the book to the client: what a client hears of the messages a book sends it. */
module MessageCodec {
  import opened Orders
  import Bytes
  import opened Fields
  import opened RequestCodec
  import opened ResponseCodec
  import opened Reports

  /** The response carries the message: which order, on which side, how much, at what price. */
  predicate Carries(r: Response, m: Message) {
    match m
    case FullFill(o, q, p) =>
      && r.Filled? && r.side == (if o.side.Buy? then LETTER_BUY else LETTER_SELL) && r.symbol == o.symbol
      && r.id == o.id && r.qty == q && r.price == p
    case PartialFill(o, q, remaining, p) =>
      && r.PartlyFilled? && r.side == (if o.side.Buy? then LETTER_BUY else LETTER_SELL) && r.symbol == o.symbol
      && r.id == o.id && r.qty == q && r.remaining == remaining && r.price == p
    case KillConfirm(o) =>
      r.Removed? && r.symbol == o.symbol && r.id == o.id && r.qty == o.qty
    case Error(code) =>
      r.Failed? && r.code == code
  }

  predicate InField(n: int) {
    0 <= n < 0x8000_0000
  }

  /** Every number of the message fits its field. */
  predicate MessageFits(m: Message) {
    match m
    case FullFill(o, q, p) => InField(o.id) && InField(q) && InField(p)
    case PartialFill(o, q, remaining, p) => InField(o.id) && InField(q) && InField(remaining) && InField(p)
    case KillConfirm(o) => InField(o.id) && InField(o.qty)
    case Error(code) => InField(code)
  }

  lemma RowFits(a: int, b: int, c: int, d: int)
    ensures AllBelow([a], Limit(AsInt)) <==> InField(a)
    ensures AllBelow([a, b], Limit(AsInt)) <==> InField(a) && InField(b)
    ensures AllBelow([a, b, c], Limit(AsInt)) <==> InField(a) && InField(b) && InField(c)
    ensures AllBelow([a, b, c, d], Limit(AsInt)) <==> InField(a) && InField(b) && InField(c) && InField(d)
  {
    assert a in [a] && a in [a, b] && b in [a, b] && a in [a, b, c] && b in [a, b, c] && c in [a, b, c];
    assert a in [a, b, c, d] && b in [a, b, c, d] && c in [a, b, c, d] && d in [a, b, c, d];
  }

  // There is one response that carries a message
  lemma CarriesOne(m: Message, r: Response)
    ensures Carries(r, m) <==> r == ResponseOf(m)
    ensures Fits(ResponseOf(m)) <==> MessageFits(m)
  {
    match m
    case FullFill(o, q, p) => RowFits(o.id, q, p, 0);
    case PartialFill(o, q, remaining, p) => RowFits(o.id, q, remaining, p);
    case KillConfirm(o) => RowFits(o.id, o.qty, 0, 0);
    case Error(code) => RowFits(code, 0, 0, 0);
  }

  /** The bytes of a message, by its own encoder. */
  method WriteMessage(m: Message) returns (bytes: seq<Byte>)
    ensures bytes == Encoded(ResponseOf(m))
  {
    match m {
      case FullFill(o, q, p) => bytes := EncodeFullFill(o, q, p);
      case PartialFill(o, q, remaining, p) => bytes := EncodePartialFill(o, q, remaining, p);
      case KillConfirm(o) => bytes := EncodeKillConfirm(o);
      case Error(code) => bytes := EncodeError(code);
    }
  }

  // Four bytes for a number that fits
  function Field4(n: int): seq<Byte> {
    Bytes.Written(n, FIELD_BYTES)
  }

  // A type byte, a side byte and a symbol before some fields
  lemma Regroup(letter: Byte, side: Byte, symbol: seq<Byte>, fields: seq<Byte>)
    ensures [letter] + ([side] + symbol) + fields == [letter, side] + symbol + fields
  {
    assert [letter] + ([side] + symbol) == [letter, side] + symbol;
  }

  function SideByte(o: Order): Byte {
    if o.side.Buy? then 'B' as int else 'S' as int
  }

  /** The layout of the fill messages on the wire. */
  lemma FullFillLayout(o: Order, q: int, p: int)
    ensures Encoded(ResponseOf(FullFill(o, q, p)))
         == ['F' as int, SideByte(o)] + o.symbol + (Field4(o.id) + Field4(q) + Field4(p))
  {
    WriteRow(o.id, q, p, 0);
    Regroup('F' as int, SideByte(o), o.symbol, WriteAll([o.id, q, p]));
  }

  lemma PartialFillLayout(o: Order, q: int, remaining: int, p: int)
    ensures Encoded(ResponseOf(PartialFill(o, q, remaining, p)))
         == ['P' as int, SideByte(o)] + o.symbol + (Field4(o.id) + Field4(q) + Field4(remaining) + Field4(p))
  {
    WriteRow(o.id, q, remaining, p);
    Regroup('P' as int, SideByte(o), o.symbol, WriteAll([o.id, q, remaining, p]));
  }

  /** The layout of confirmations and errors on the wire. */
  lemma ConfirmLayout(o: Order)
    ensures Encoded(ResponseOf(KillConfirm(o))) == ['K' as int] + o.symbol + (Field4(o.id) + Field4(o.qty))
  {
    WriteRow(o.id, o.qty, 0, 0);
  }

  lemma ErrorLayout(code: int)
    ensures Encoded(ResponseOf(Error(code))) == ['J' as int] + Field4(code)
  {
    WriteRow(code, 0, 0, 0);
    assert ['J' as int] + [] == ['J' as int];
  }

  lemma AckLayout(o: Order, request: Byte)
    ensures Encoded(AckOf(o, request))
         == ['A' as int, request, SideByte(o)] + o.symbol
            + (Field4(o.qty) + Field4(o.price) + Field4(o.id) + Field4(o.delId))
  {
    WriteRow(o.qty, o.price, o.id, o.delId);
    assert ['A' as int] + ([request, SideByte(o)] + o.symbol) == ['A' as int, request, SideByte(o)] + o.symbol;
  }

  /** From the bytes of a message the client hears exactly one response, and that carries the message,
      exactly when its numbers fit. */
  lemma MessageHeard(m: Message)
    ensures MessageFits(m) <==> exists r :: Carries(r, m) && Hear(Encoded(ResponseOf(m))).responses == [r]
    ensures MessageFits(m) ==> Hear(Encoded(ResponseOf(m))).rest == []
  {
    var r := ResponseOf(m);
    CarriesOne(m, r);
    assert EncodedAll([r]) == Encoded(r) by {
      assert EncodedAll([r]) == Encoded(r) + EncodedAll([r][1..]) && [r][1..] == [];
    }
    FramingExact([r]);
    assert AllFit([r]) <==> Fits(r) by {
      assert r in [r];
    }
    forall t | Carries(t, m) ensures t == r {
      CarriesOne(m, t);
    }
    if Fits(r) {
      HearFitting(r, []);
      assert Encoded(r) + [] == Encoded(r);
    }
  }

  /** A fill is heard as it is reported: the order's own id, the quantity filled and the price. */
  lemma FillHeard(m: Message, r: Response)
    requires Carries(r, m)
    ensures ReportOf(m) == if r.Filled? || r.PartlyFilled? then [Report(r.id, r.qty, r.price)] else []
  {}

  function Written(ms: seq<Message>): seq<Response> {
    if ms == [] then [] else [ResponseOf(ms[0])] + Written(ms[1..])
  }

  /** From the messages written to it one after the other a client hears one response each, in order,
      that carries the message, whatever follows. */
  lemma {:induction false} MessagesHeard(ms: seq<Message>, later: seq<Byte>) returns (rs: seq<Response>)
    requires forall m | m in ms :: MessageFits(m)
    ensures |rs| == |ms| && forall k: nat | k < |ms| :: Carries(rs[k], ms[k])
    ensures Hear(EncodedAll(Written(ms)) + later) == Heard(rs + Hear(later).responses, Hear(later).rest)
  {
    rs := Written(ms);
    WrittenCarries(ms);
    FramingContinues(rs, later);
  }

  lemma {:induction false} WrittenCarries(ms: seq<Message>)
    requires forall m | m in ms :: MessageFits(m)
    ensures |Written(ms)| == |ms| && AllFit(Written(ms)) && forall k: nat | k < |ms| :: Carries(Written(ms)[k], ms[k])
  {
    if ms != [] {
      assert ms[0] in ms && forall m | m in ms[1..] :: m in ms;
      CarriesOne(ms[0], ResponseOf(ms[0]));
      WrittenCarries(ms[1..]);
    }
  }
}

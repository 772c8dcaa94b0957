/** What the server lets in: each frame is decoded, checked, numbered, acknowledged and submitted. */
module Intake {
  import opened Config
  import opened Wrappers
  import opened Orders
  import opened Fields
  import opened RequestCodec
  import opened ResponseCodec
  import opened LazyBooks
  import opened Refinement
  import opened Runs
  import Bytes
  import PriceWindows

  type Frame = f: seq<Byte> | |f| == FRAME_BYTES witness Padded([])

  /** A whole frame, the session it came from, and the side left in an undecoded field. */
  datatype Arrival = Arrival(frame: Frame, session: int, unset: Side)

  datatype Outcome = Refused(code: int) | Accepted(order: Order)

  // Price first, then quantity
  function Checked(o: Order): Outcome {
    if o.price <= 0 then Refused(INVALID_PRICE) else if o.qty <= 0 then Refused(INVALID_QUANTITY) else Accepted(o)
  }

  function Numbered(o: Order, id: int, session: int): Order {
    Order(o.price, o.qty, o.symbol, o.side, o.request, id, o.delId, session)
  }

  /** What becomes of an arrival when `id` is the next order id. */
  function Admit(a: Arrival, id: int): Outcome {
    var decoded :=
      if a.frame[0] == LETTER_ORDER then Checked(SendDecoded(a.frame))
      else if a.frame[0] == LETTER_MODIFY then Checked(ModifyDecoded(a.frame))
      else if a.frame[0] == LETTER_KILL then Accepted(KillDecoded(a.frame, a.unset))
      else Refused(MALFORMED_REQUEST);
    if decoded.Accepted? then Accepted(Numbered(decoded.order, id, a.session)) else decoded
  }

  /** The answer the session gets at once. */
  function Reply(a: Arrival, o: Outcome): Response {
    if o.Accepted? then AckOf(o.order, a.frame[0]) else Failed(o.code)
  }

  method SimpleReject(order: Order) returns (code: Option<int>)
    ensures code.None? <==> order.price > 0 && order.qty > 0
    ensures code.Some? ==> code.value == INVALID_PRICE || (code.value == INVALID_QUANTITY && order.price > 0)
    ensures code == Some(INVALID_QUANTITY) ==> order.qty <= 0
    ensures code == Some(INVALID_PRICE) ==> order.price <= 0
  {
    if order.price <= 0 {
      return Some(INVALID_PRICE);
    }
    if order.qty <= 0 {
      return Some(INVALID_QUANTITY);
    }
    return None;
  }

  method ReadOne(a: Arrival, nextId: int) returns (submitted: Option<Order>, reply: seq<Byte>)
    ensures var o := Admit(a, nextId);
            reply == Encoded(Reply(a, o)) && submitted == if o.Accepted? then Some(o.order) else None
  {
    var order: Order, code: Option<int>;
    if a.frame[0] == LETTER_ORDER {
      order := DecodeSendOrder(a.frame);
      code := SimpleReject(order);
    } else if a.frame[0] == LETTER_MODIFY {
      order := DecodeModifyOrder(a.frame);
      code := SimpleReject(order);
    } else if a.frame[0] == LETTER_KILL {
      order := DecodeKillOrder(a.frame, a.unset);
      code := None;
    } else {
      reply := EncodeError(MALFORMED_REQUEST);
      return None, reply;
    }
    assert a.frame[0] != LETTER_KILL ==>
        Checked(order) == if code.Some? then Refused(code.value) else Accepted(order);
    if code.Some? {
      reply := EncodeError(code.value);
      return None, reply;
    }
    order := Numbered(order, nextId, a.session);
    reply := EncodeAck(order, a.frame[0]);
    submitted := Some(order);
  }

  /** The orders submitted for some arrivals; ids count from 1. */
  function Admitted(arrivals: seq<Arrival>): seq<Order> {
    if arrivals == [] then []
    else
      var before := Admitted(arrivals[..|arrivals| - 1]);
      var o := Admit(arrivals[|arrivals| - 1], 1 + |before|);
      if o.Accepted? then before + [o.order] else before
  }

  /** The reading loop over all arrivals. */
  method ReadListener(arrivals: seq<Arrival>) returns (submitted: seq<Order>)
    ensures submitted == Admitted(arrivals)
  {
    submitted := [];
    var currentId, i := 1, 0;
    while i < |arrivals|
      invariant i <= |arrivals| && submitted == Admitted(arrivals[..i]) && currentId == 1 + |submitted|
    {
      assert arrivals[..i + 1][..i] == arrivals[..i];
      var order, reply := ReadOne(arrivals[i], currentId);
      if order.Some? {
        submitted := submitted + [order.value];
        currentId := currentId + 1;
      }
      i := i + 1;
    }
    assert arrivals[..i] == arrivals;
  }

  // ---------- what gets in ----------

  /** A client's new order is accepted as it was sent exactly when its price and quantity are
      positive and below 2^31. */
  lemma SendAccepted(letter: Byte, symbol: Symbol, price: int, qty: int, id: int, session: int, unset: Side)
    ensures var f := SendFrame(letter, symbol, price, qty);
            && |f| >= FRAME_BYTES
            && (Admit(Arrival(f[..FRAME_BYTES], session, unset), id)
                  == Accepted(Order(price, qty, symbol, if letter == LETTER_BUY then Buy else Sell,
                                    RequestType.SendOrder, id, 0, session)) <==>
                0 < price < 0x8000_0000 && 0 < qty < 0x8000_0000)
  {
    SendRoundTrip(letter, symbol, price, qty);
    var f := SendFrame(letter, symbol, price, qty);
    assert f[..FRAME_BYTES][0] == f[0];
    assert qty in [qty, price] && price in [qty, price];
  }

  // What the server answers to a new order
  function AnswerTo(letter: Byte, symbol: Symbol, price: int, qty: int, id: int): Response {
    if price == 0 then Failed(INVALID_PRICE)
    else if qty == 0 then Failed(INVALID_QUANTITY)
    else Acknowledged(LETTER_ORDER, if letter == LETTER_BUY then LETTER_BUY else LETTER_SELL, symbol, qty, price, id, 0)
  }

  lemma SendReplied(letter: Byte, symbol: Symbol, price: int, qty: int, id: int, session: int, unset: Side)
    requires 0 <= price < 0x8000_0000 && 0 <= qty < 0x8000_0000
    ensures var f := SendFrame(letter, symbol, price, qty);
            && |f| == FRAME_BYTES
            && var a := Arrival(f, session, unset);
            Reply(a, Admit(a, id)) == AnswerTo(letter, symbol, price, qty, id)
  {
    SendRoundTrip(letter, symbol, price, qty);
    var f := SendFrame(letter, symbol, price, qty);
    assert f[..FRAME_BYTES] == f;
  }

  lemma AnswerHeard(r: Response)
    requires Fits(r)
    ensures Hear(Encoded(r)) == Heard([r], [])
  {
    HearFitting(r, []);
    assert Encoded(r) + [] == Encoded(r);
  }

  /** What a client hears back for a new order whose numbers fit their fields: its own data and the id
      when price and quantity are positive, else the code for the first of them that is not. */
  lemma SendAnswered(letter: Byte, symbol: Symbol, price: int, qty: int, id: int, session: int, unset: Side)
    requires 0 <= price < 0x8000_0000 && 0 <= qty < 0x8000_0000 && 0 <= id < 0x8000_0000
    ensures var f := SendFrame(letter, symbol, price, qty);
            && |f| == FRAME_BYTES
            && var a := Arrival(f, session, unset);
            Hear(Encoded(Reply(a, Admit(a, id)))) == Heard([AnswerTo(letter, symbol, price, qty, id)], [])
  {
    SendReplied(letter, symbol, price, qty, id, session, unset);
    AnswerHeard(AnswerTo(letter, symbol, price, qty, id));
  }

  /** A modification is accepted as it was sent, under the new id and naming the old one, exactly when
      price and quantity are positive and all three numbers are below 2^31. */
  lemma ModifyAccepted(letter: Byte, symbol: Symbol, id: int, price: int, qty: int, newId: int, session: int,
      unset: Side)
    ensures var f := ModifyFrame(letter, symbol, id, price, qty);
            && |f| >= FRAME_BYTES
            && (Admit(Arrival(f[..FRAME_BYTES], session, unset), newId)
                  == Accepted(Order(price, qty, symbol, if letter == LETTER_BUY then Buy else Sell,
                                    RequestType.ModifyOrder, newId, id, session)) <==>
                0 < price < 0x8000_0000 && 0 < qty < 0x8000_0000 && 0 <= id < 0x8000_0000)
  {
    ModifyRoundTrip(letter, symbol, id, price, qty);
    var f := ModifyFrame(letter, symbol, id, price, qty);
    assert f[..FRAME_BYTES][0] == f[0];
    assert qty in [qty, price, id] && price in [qty, price, id] && id in [qty, price, id];
  }

  /** A cancellation is always accepted as one, and names the order it was sent for exactly when that id
      fits. */
  lemma KillAccepted(symbol: Symbol, id: int, newId: int, session: int, unset: Side)
    ensures var f := KillFrame(symbol, id);
            && |f| >= FRAME_BYTES
            && var o := Admit(Arrival(f[..FRAME_BYTES], session, unset), newId);
            && o.Accepted? && o.order.request == RequestType.KillOrder
            && (o == Accepted(Order(0, 0, symbol, unset, RequestType.KillOrder, newId, id, session)) <==>
                0 <= id < 0x8000_0000)
  {
    KillRoundTrip(symbol, id, unset);
    var f := KillFrame(symbol, id);
    assert f[..FRAME_BYTES][0] == f[0];
    assert id in [id];
  }

  // What the server answers to a modification
  function AnswerToModify(letter: Byte, symbol: Symbol, id: int, price: int, qty: int, newId: int): Response {
    if price == 0 then Failed(INVALID_PRICE)
    else if qty == 0 then Failed(INVALID_QUANTITY)
    else Acknowledged(LETTER_MODIFY, if letter == LETTER_BUY then LETTER_BUY else LETTER_SELL,
                      symbol, qty, price, newId, id)
  }

  lemma ModifyReplied(letter: Byte, symbol: Symbol, id: int, price: int, qty: int, newId: int, session: int,
      unset: Side)
    requires 0 <= price < 0x8000_0000 && 0 <= qty < 0x8000_0000 && 0 <= id < 0x8000_0000
    ensures var f := ModifyFrame(letter, symbol, id, price, qty);
            && |f| == FRAME_BYTES
            && var a := Arrival(f, session, unset);
            Reply(a, Admit(a, newId)) == AnswerToModify(letter, symbol, id, price, qty, newId)
  {
    ModifyRoundTrip(letter, symbol, id, price, qty);
    var f := ModifyFrame(letter, symbol, id, price, qty);
    assert f[..FRAME_BYTES] == f;
  }

  /** What a client hears back for a modification whose numbers fit: its own data, the new id and the old
      one, or the code for the first of price and quantity that is not positive. */
  lemma ModifyAnswered(letter: Byte, symbol: Symbol, id: int, price: int, qty: int, newId: int, session: int,
      unset: Side)
    requires 0 <= price < 0x8000_0000 && 0 <= qty < 0x8000_0000 && 0 <= id < 0x8000_0000 && 0 <= newId < 0x8000_0000
    ensures var f := ModifyFrame(letter, symbol, id, price, qty);
            && |f| == FRAME_BYTES
            && var a := Arrival(f, session, unset);
            Hear(Encoded(Reply(a, Admit(a, newId))))
                == Heard([AnswerToModify(letter, symbol, id, price, qty, newId)], [])
  {
    ModifyReplied(letter, symbol, id, price, qty, newId, session, unset);
    AnswerHeard(AnswerToModify(letter, symbol, id, price, qty, newId));
  }

  /** What a client hears back for a cancellation whose id fits: always an acknowledgement of it. */
  lemma KillAnswered(symbol: Symbol, id: int, newId: int, session: int, unset: Side)
    requires 0 <= id < 0x8000_0000 && 0 <= newId < 0x8000_0000
    ensures var f := KillFrame(symbol, id);
            && |f| == FRAME_BYTES
            && var a := Arrival(f, session, unset);
            Hear(Encoded(Reply(a, Admit(a, newId)))) ==
              Heard([Acknowledged(LETTER_KILL, if unset.Buy? then LETTER_BUY else LETTER_SELL,
                                  symbol, 0, 0, newId, id)], [])
  {
    KillAccepted(symbol, id, newId, session, unset);
    KillRoundTrip(symbol, id, unset);
    var f := KillFrame(symbol, id);
    assert f[..FRAME_BYTES] == f && id in [id];
    AnswerHeard(Acknowledged(LETTER_KILL, SideLetter(unset), symbol, 0, 0, newId, id));
  }

  /** A frame of no known request is refused, and its client hears MALFORMED_REQUEST. */
  lemma MalformedAnswered(a: Arrival, id: int)
    requires a.frame[0] !in {LETTER_ORDER, LETTER_MODIFY, LETTER_KILL}
    ensures Admit(a, id) == Refused(MALFORMED_REQUEST)
    ensures Hear(Encoded(Reply(a, Admit(a, id)))) == Heard([Failed(MALFORMED_REQUEST)], [])
  {
    AnswerHeard(Failed(MALFORMED_REQUEST));
  }

  lemma {:induction false} AdmittedGrows(arrivals: seq<Arrival>, n: nat)
    requires n <= |arrivals|
    ensures Admitted(arrivals[..n]) <= Admitted(arrivals)
  {
    if n == |arrivals| {
      assert arrivals[..n] == arrivals;
    } else {
      var last := |arrivals| - 1;
      AdmittedGrows(arrivals[..last], n);
      assert arrivals[..last][..n] == arrivals[..n];
    }
  }

  /** Every arrival is admitted or refused on its own account: an accepted one is submitted next after
      those accepted before it, and only accepted ones are. */
  lemma AdmittedExactly(arrivals: seq<Arrival>, n: nat)
    requires n < |arrivals|
    ensures var before := Admitted(arrivals[..n]);
            var o := Admit(arrivals[n], 1 + |before|);
            && Admitted(arrivals[..n + 1]) == (if o.Accepted? then before + [o.order] else before)
            && (o.Accepted? ==> |before| < |Admitted(arrivals)| && Admitted(arrivals)[|before|] == o.order)
  {
    assert arrivals[..n + 1][..n] == arrivals[..n];
    AdmittedGrows(arrivals, n + 1);
  }

  predicate LetThrough(price: int) {
    0 < price < 0x8000_0000
  }

  /** The prices the server lets through. */
  ghost function ServerPrices(): iset<int> {
    iset p: int | LetThrough(p)
  }

  lemma FieldInRange(message: seq<Byte>, at: nat)
    requires at + FIELD_BYTES <= |message|
    ensures FieldAt(message, at) < 0x8000_0000
  {
    Bytes.BigEndianOfValue(message[at..at + FIELD_BYTES]);
    Bytes.Powers();
  }

  lemma AdmitAcceptable(a: Arrival, id: int)
    requires id >= 1 && Admit(a, id).Accepted?
    ensures Acceptable(Admit(a, id).order, ServerPrices()) && Admit(a, id).order.id == id
  {
    FieldInRange(a.frame, 10);
  }

  /** Submitted orders are numbered 1, 2, 3, ..., and those that place an order have a positive
      quantity and an allowed price. */
  lemma {:induction false} AdmittedInOrder(arrivals: seq<Arrival>)
    ensures forall k: nat | k < |Admitted(arrivals)| ::
              Admitted(arrivals)[k].id == k + 1 && Acceptable(Admitted(arrivals)[k], ServerPrices())
  {
    if arrivals != [] {
      var n := |arrivals| - 1;
      AdmittedInOrder(arrivals[..n]);
      var before := Admitted(arrivals[..n]);
      var o := Admit(arrivals[n], 1 + |before|);
      if o.Accepted? {
        AdmitAcceptable(arrivals[n], 1 + |before|);
      }
    }
  }

  // Each input is a submitted order, and none is used twice
  ghost predicate DrawnFrom(inputs: seq<Input>, orders: seq<Order>) {
    && (forall i | i in inputs :: i.order in orders)
    && forall i, j | 0 <= i < j < |inputs| :: inputs[i].order != inputs[j].order
  }

  /** However the submitted orders are queued, what reaches a book is a run as the theorems about
      runs assume it, over any prices that include those it places orders at. */
  lemma SubmissionsAreValid(arrivals: seq<Arrival>, inputs: seq<Input>, prices: iset<int>)
    requires DrawnFrom(inputs, Admitted(arrivals))
    requires forall i | i in inputs && Places(i) :: i.order.price in prices
    ensures ValidRun(inputs, prices)
  {
    var orders := Admitted(arrivals);
    AdmittedInOrder(arrivals);
    forall i | i in inputs ensures Acceptable(i.order, prices) {
      var k: nat :| k < |orders| && orders[k] == i.order;
      assert Acceptable(orders[k], ServerPrices());
    }
    forall i, j | 0 <= i < j < |inputs| ensures inputs[i].order.id != inputs[j].order.id {
      assert inputs[i] in inputs && inputs[j] in inputs;
      var k: nat :| k < |orders| && orders[k] == inputs[i].order;
      var l: nat :| l < |orders| && orders[l] == inputs[j].order;
      assert k != l;
    }
  }

  /** The prices the server lets through always are such prices. */
  lemma SubmittedPrices(arrivals: seq<Arrival>, inputs: seq<Input>)
    requires DrawnFrom(inputs, Admitted(arrivals))
    ensures forall i | i in inputs && Places(i) :: i.order.price in ServerPrices()
    ensures ValidRun(inputs, ServerPrices())
  {
    var orders := Admitted(arrivals);
    AdmittedInOrder(arrivals);
    forall i | i in inputs && Places(i) ensures i.order.price in ServerPrices() {
      var k: nat :| k < |orders| && orders[k] == i.order;
      assert Acceptable(orders[k], ServerPrices());
    }
    SubmissionsAreValid(arrivals, inputs, ServerPrices());
  }

  /** The server's own checks do not confine prices to what the slots can order: it lets in runs on
      which the engine is not a price-time book. */
  lemma ServerPricesNotOrdered(live: Sessions)
    ensures !PriceWindows.RefinesOnAllRuns(live, ServerPrices())
    ensures !PriceWindows.UncrossedOnAllRuns(live, ServerPrices())
  {
    PriceWindows.ExactCondition(live, ServerPrices());
    assert 1 in ServerPrices() && 65537 in ServerPrices();
    assert IndexOf(1) == 1 == IndexOf(65537);
  }
}

/** What the snapshots of a run show. */
module SnapshotRuns {
  import opened Config
  import opened Orders
  import opened EagerBooks
  import opened LazyBooks
  import opened Refinement
  import opened Runs
  import opened Snapshots
  import opened SnapshotCodec
  import opened Words
  import Markets

  /** Entry k of a side is the k-th of the orders, if there is one, and otherwise stands for none: id,
      price and quantity 0. */
  predicate Entries(side: seq<Order>, of: seq<Order>) {
    && |side| == SNAPSHOT_LEN
    && forall k: nat | k < SNAPSHOT_LEN ::
         if k < |of| then side[k] == of[k] else side[k].id == 0 && side[k].price == 0 && side[k].qty == 0
  }

  lemma FewEntries(s: seq<Order>)
    ensures Entries(Padded(FirstFew(s)), s)
  {}

  /** The snapshot of any book lists the live orders of each side in priority order. */
  lemma SnapshotEntries(s: State)
    ensures Entries(SnapshotOf(s).buySide, LiveOf(s.bids, s.flags))
        && Entries(SnapshotOf(s).sellSide, LiveOf(s.asks, s.flags))
  {
    FewEntries(LiveOf(s.bids, s.flags));
    FewEntries(LiveOf(s.asks, s.flags));
  }

  /** After any run the snapshot lists the orders of the price-time book, best first. */
  lemma SnapshotShowsBest(live: Sessions, inputs: seq<Input>, prices: iset<int>)
    requires OrderPreserving(prices) && ValidRun(inputs, prices)
    ensures var e, shown := EagerRun(inputs), SnapshotOf(Run(live, inputs));
            Entries(shown.buySide, e.bids) && Entries(shown.sellSide, e.asks)
  {
    LazyRefinesEager(live, inputs, prices);
    SnapshotEntries(Run(live, inputs));
  }

  // The same of what a subscriber has read
  predicate Lists(read: seq<ClientOrder>, of: seq<Order>) {
    && |read| == SNAPSHOT_LEN
    && forall k: nat | k < SNAPSHOT_LEN ::
         if k < |of| then read[k].id == of[k].id && read[k].price == of[k].price && read[k].qty == of[k].qty
         else read[k].id == 0 && read[k].price == 0 && read[k].qty == 0
  }

  predicate TopInFields(of: seq<Order>) {
    forall k: nat | k < SNAPSHOT_LEN && k < |of| :: InField(of[k].id) && InField(of[k].price) && InField(of[k].qty)
  }

  lemma ReadEntries(read: seq<ClientOrder>, side: seq<Order>, of: seq<Order>)
    requires Entries(side, of)
    ensures Shows(read, side) <==> Lists(read, of)
    ensures AllInFields(side) <==> TopInFields(of)
  {
    if AllInFields(side) {
      forall k: nat | k < SNAPSHOT_LEN && k < |of|
        ensures InField(of[k].id) && InField(of[k].price) && InField(of[k].qty)
      {
        assert side[k] == of[k];
      }
    }
  }

  /** After any run a subscriber reads from the broadcast bytes the number of requests so far and the
      orders of the price-time book, best first, exactly when all of these fit their fields. */
  lemma SubscriberSees(live: Sessions, inputs: seq<Input>, prices: iset<int>, symbol: Symbol)
    requires OrderPreserving(prices) && ValidRun(inputs, prices)
    ensures var e, s := EagerRun(inputs), Run(live, inputs);
            var m := SnapshotBytes(symbol, s.seqLen, SnapshotOf(s));
            && |m| >= MESSAGE_BYTES && SnapshotIn(m).symbol == symbol
            && ((SnapshotIn(m).seqLen == |inputs|
                 && Lists(SnapshotIn(m).buySide, e.bids) && Lists(SnapshotIn(m).sellSide, e.asks))
                <==> (|inputs| < WORD_LIMIT / 2 && TopInFields(e.bids) && TopInFields(e.asks)))
  {
    var e, s := EagerRun(inputs), Run(live, inputs);
    Markets.SequenceNumber(live, inputs);
    SnapshotShowsBest(live, inputs, prices);
    SubscriberReads(symbol, |inputs|, SnapshotOf(s), e.bids, e.asks);
  }

  lemma SubscriberReads(symbol: Symbol, seqLen: nat, shown: Snapshot, bids: seq<Order>, asks: seq<Order>)
    requires Entries(shown.buySide, bids) && Entries(shown.sellSide, asks)
    ensures var m := SnapshotBytes(symbol, seqLen, shown);
            && |m| >= MESSAGE_BYTES && SnapshotIn(m).symbol == symbol
            && ((SnapshotIn(m).seqLen == seqLen
                 && Lists(SnapshotIn(m).buySide, bids) && Lists(SnapshotIn(m).sellSide, asks))
                <==> (seqLen < WORD_LIMIT / 2 && TopInFields(bids) && TopInFields(asks)))
  {
    SnapshotRoundTrip(symbol, seqLen, shown);
    var read := SnapshotIn(SnapshotBytes(symbol, seqLen, shown));
    ReadEntries(read.buySide, shown.buySide, bids);
    ReadEntries(read.sellSide, shown.sellSide, asks);
  }

  // Bids do not rise, asks do not fall, and every bid is below every ask
  ghost predicate Ladder(bids: seq<Order>, asks: seq<Order>) {
    && (forall i, j | 0 <= i < j < |bids| :: bids[i].price >= bids[j].price)
    && (forall i, j | 0 <= i < j < |asks| :: asks[i].price <= asks[j].price)
    && (forall i, j | 0 <= i < |bids| && 0 <= j < |asks| :: bids[i].price < asks[j].price)
  }

  lemma WellFormedLadder(e: Book)
    requires WellFormed(e) && Uncrossed(e.bids, e.asks)
    ensures Ladder(e.bids, e.asks)
  {
    assert forall i: nat | i < |e.bids| :: e.bids[i] in e.bids && Rank(ByPrice, e.bids[i]) == -e.bids[i].price;
    assert forall i: nat | i < |e.asks| :: e.asks[i] in e.asks && Rank(ByPrice, e.asks[i]) == e.asks[i].price;
  }

  // The orders a side of a snapshot shows, without the defaults that fill it up
  function Shown(side: seq<Order>, of: seq<Order>): seq<Order>
    requires |side| == SNAPSHOT_LEN
  {
    side[..Min(|of|, SNAPSHOT_LEN)]
  }

  lemma LadderOf(s: State, prices: iset<int>)
    requires OrderPreserving(prices) && Inv(s, prices) && Uncrossed(s.bids, s.asks)
    ensures Ladder(Shown(SnapshotOf(s).buySide, Abs(s).bids), Shown(SnapshotOf(s).sellSide, Abs(s).asks))
  {
    LiveUncrossed(s, prices);
    WellFormedLadder(Abs(s));
    ShownFew(Abs(s).bids);
    ShownFew(Abs(s).asks);
  }

  /** What a snapshot shows is a ladder: its top bid is below its top ask, and each side is in
      price order. */
  lemma SnapshotIsLadder(live: Sessions, inputs: seq<Input>, prices: iset<int>)
    requires OrderPreserving(prices) && ValidRun(inputs, prices)
    ensures var e, s := EagerRun(inputs), SnapshotOf(Run(live, inputs));
            Ladder(Shown(s.buySide, e.bids), Shown(s.sellSide, e.asks))
  {
    var s := Run(live, inputs);
    LazyRefinesEager(live, inputs, prices);
    RunInv(live, inputs, prices);
    LadderOf(s, prices);
  }

  lemma ShownFew(s: seq<Order>)
    ensures Shown(Padded(FirstFew(s)), s) == FirstFew(s)
  {}
}

/** The market as a transition system: orders are queued on their symbol's shard, and each shard
    is drained by one thread, one request at a time, in any interleaving. */
module Markets {
  import opened Config
  import opened Orders
  import opened Symbols
  import opened LazyBooks
  import Runs

  // ---------- shards and threads ----------

  datatype Range = Range(start: nat, end: nat)

  predicate InRange(r: Range, shard: nat) {
    r.start <= shard < r.end
  }

  // The ranges follow one another from 0 to n
  ghost predicate Consecutive(ranges: seq<Range>, n: nat) {
    && (if ranges == [] then n == 0 else ranges[0].start == 0 && ranges[|ranges| - 1].end == n)
    && (forall t: nat | t < |ranges| :: ranges[t].start <= ranges[t].end)
    && (forall t: nat, u: nat | u < |ranges| && t + 1 == u :: ranges[t].end == ranges[u].start)
  }

  // Where the range of thread i begins, and that of the thread before it ends
  function Cut(shards: nat, threads: nat, i: nat): nat
    requires threads > 0
  {
    if i == threads then shards else i * (shards / threads)
  }

  /** Splits the shards into one range per thread, one after the other; the last thread takes the rest. */
  method PartitionShards(shards: nat, threads: nat) returns (ranges: seq<Range>)
    requires threads > 0
    ensures |ranges| == threads && Consecutive(ranges, shards)
    ensures forall t: nat | t < threads - 1 :: ranges[t].end - ranges[t].start == shards / threads
  {
    var perThread := shards / threads;
    ranges := [];
    var i := 0;
    while i < threads
      invariant i <= threads && |ranges| == i
      invariant Consecutive(ranges, Cut(shards, threads, i))
      invariant forall t: nat | t < i && t < threads - 1 :: ranges[t].end - ranges[t].start == perThread
    {
      CutStep(shards, threads, i);
      var start := i * perThread;
      var end := if i == threads - 1 then shards else start + perThread;
      OneMoreRange(ranges, start, end);
      ranges := ranges + [Range(start, end)];
      i := i + 1;
    }
  }

  lemma CutStep(shards: nat, threads: nat, i: nat)
    requires i < threads
    ensures Cut(shards, threads, i) == i * (shards / threads) <= Cut(shards, threads, i + 1)
    ensures Cut(shards, threads, i + 1) == if i == threads - 1 then shards
        else i * (shards / threads) + shards / threads
  {
    RangeFits(shards, threads, i, shards / threads);
  }

  lemma OneMoreRange(ranges: seq<Range>, start: nat, end: nat)
    requires Consecutive(ranges, start) && start <= end
    ensures Consecutive(ranges + [Range(start, end)], end)
  {
    var more := ranges + [Range(start, end)];
    assert forall t: nat | t < |ranges| :: more[t] == ranges[t];
  }

  lemma RangeFits(shards: nat, threads: nat, i: nat, p: nat)
    requires i < threads && p == shards / threads
    ensures i * p <= shards && (i + 1) * p == i * p + p
  {
    assert shards == threads * p + shards % threads;
    Product(i, threads, p);
  }

  lemma {:induction false} Product(i: nat, n: nat, p: nat)
    requires i <= n
    ensures i * p <= n * p
  {
    if i < n {
      Product(i, n - 1, p);
      assert n * p == (n - 1) * p + p;
    }
  }

  lemma {:induction false} RangesOrdered(ranges: seq<Range>, n: nat, t: nat, u: nat)
    requires Consecutive(ranges, n) && t < u < |ranges|
    ensures ranges[t].end <= ranges[u].start
  {
    assert ranges[u - 1].end == ranges[u].start;
    if t + 1 < u {
      RangesOrdered(ranges, n, t, u - 1);
    }
  }

  lemma {:induction false} SomeOwner(ranges: seq<Range>, n: nat, s: nat, u: nat) returns (t: nat)
    requires Consecutive(ranges, n) && u < |ranges| && s < ranges[u].end
    ensures t < |ranges| && InRange(ranges[t], s)
  {
    if ranges[u].start <= s {
      t := u;
    } else {
      assert ranges[u - 1].end == ranges[u].start;
      t := SomeOwner(ranges, n, s, u - 1);
    }
  }

  /** Consecutive ranges give every shard exactly one thread. */
  lemma OneOwner(ranges: seq<Range>, n: nat, s: nat) returns (t: nat)
    requires Consecutive(ranges, n) && s < n
    ensures t < |ranges| && InRange(ranges[t], s)
    ensures forall u: nat | u < |ranges| && InRange(ranges[u], s) :: u == t
  {
    t := SomeOwner(ranges, n, s, |ranges| - 1);
    forall u: nat | u < |ranges| && InRange(ranges[u], s) ensures u == t {
      if u < t {
        RangesOrdered(ranges, n, u, t);
      } else if t < u {
        RangesOrdered(ranges, n, t, u);
      }
    }
  }

  // ---------- the transition system ----------

  /** One processed request: the queue it came from, the thread, the shard whose book it went to. */
  datatype Done = Done(thread: nat, queue: nat, shard: nat, input: Input)

  /** Queues and books by shard, everything processed so far, and the requests turned away. */
  datatype Market = Market(queues: seq<seq<Input>>, books: seq<map<int, State>>, log: seq<Done>, rejections: seq<Sent>)

  datatype Action = Submit(input: Input) | Drain(thread: nat, shard: nat)

  /** The session registry's answers, for the lookups of each book in turn. */
  type Registry = iset<(int, nat)>

  ghost function AnswersFor(registry: Registry, hash: int): Sessions {
    iset n: nat | (hash, n) in registry
  }

  ghost predicate Shaped(m: Market) {
    |m.queues| == NUM_SHARDS && |m.books| == NUM_SHARDS
  }

  function SubmitOrder(m: Market, i: Input): Market
    requires |m.queues| == NUM_SHARDS
  {
    var s := ShardIndex(i.order.symbol);
    Market(m.queues[s := m.queues[s] + [i]], m.books, m.log, m.rejections)
  }

  ghost function ProcessOne(registry: Registry, m: Market, shard: nat, i: Input): Market
    requires shard < |m.books|
  {
    var hash := SymbolHash(i.order.symbol);
    if hash !in m.books[shard] then Market(m.queues, m.books, m.log, m.rejections + Rejection(registry, m, i))
    else
      var book := Process(AnswersFor(registry, hash), m.books[shard][hash], i);
      Market(m.queues, m.books[shard := m.books[shard][hash := book]], m.log, m.rejections)
  }

  // The error for a symbol without a book, if the session is connected
  ghost function Rejection(registry: Registry, m: Market, i: Input): seq<Sent> {
    if (SymbolHash(i.order.symbol), |m.log|) in registry then [Sent(i.order.session, Error(SYMBOL_NOT_FOUND))] else []
  }

  function Popped(m: Market, thread: nat, shard: nat, target: nat): Market
    requires shard < |m.queues| && m.queues[shard] != []
  {
    Market(m.queues[shard := m.queues[shard][1..]], m.books, m.log + [Done(thread, shard, target, m.queues[shard][0])],
           m.rejections)
  }

  ghost function DrainOne(registry: Registry, m: Market, thread: nat, shard: nat): Market
    requires Shaped(m) && shard < NUM_SHARDS
  {
    if m.queues[shard] == [] then m
    else
      var i := m.queues[shard][0];
      var target := ShardIndex(i.order.symbol);
      ProcessOne(registry, Popped(m, thread, shard, target), target, i)
  }

  /** Threads drain only shards of their own range. */
  ghost predicate Allowed(ranges: seq<Range>, actions: seq<Action>) {
    forall a | a in actions && a.Drain? :: a.thread < |ranges| && a.shard < NUM_SHARDS
        && InRange(ranges[a.thread], a.shard)
  }

  function OpenBooks(symbols: seq<Symbol>): (books: seq<map<int, State>>)
    ensures |books| == NUM_SHARDS
  {
    if symbols == [] then seq(NUM_SHARDS, _ => map[])
    else
      var books, s := OpenBooks(symbols[..|symbols| - 1]), symbols[|symbols| - 1];
      books[ShardIndex(s) := books[ShardIndex(s)][SymbolHash(s) := EMPTY_STATE]]
  }

  /** Any interleaving of submissions and drains, from a market opened for some symbols. */
  ghost function Exec(registry: Registry, symbols: seq<Symbol>, ranges: seq<Range>, actions: seq<Action>): (m: Market)
    requires Allowed(ranges, actions)
    ensures Shaped(m)
  {
    if actions == [] then Market(seq(NUM_SHARDS, _ => []), OpenBooks(symbols), [], [])
    else
      var m := Exec(registry, symbols, ranges, actions[..|actions| - 1]);
      match actions[|actions| - 1]
      case Submit(i) => SubmitOrder(m, i)
      case Drain(thread, shard) => DrainOne(registry, m, thread, shard)
  }

  // ---------- what belongs to one symbol ----------

  function Submitted(actions: seq<Action>, s: Symbol): seq<Input> {
    if actions == [] then []
    else
      var a := actions[|actions| - 1];
      Submitted(actions[..|actions| - 1], s) + if a.Submit? && a.input.order.symbol == s then [a.input] else []
  }

  function OfSymbol(inputs: seq<Input>, s: Symbol): seq<Input> {
    if inputs == [] then []
    else (if inputs[0].order.symbol == s then [inputs[0]] else []) + OfSymbol(inputs[1..], s)
  }

  function ProcessedOf(log: seq<Done>, s: Symbol): seq<Input> {
    if log == [] then []
    else
      var d := log[|log| - 1];
      ProcessedOf(log[..|log| - 1], s) + if d.input.order.symbol == s then [d.input] else []
  }

  lemma {:induction false} OfSymbolAppend(inputs: seq<Input>, i: Input, s: Symbol)
    ensures OfSymbol(inputs + [i], s) == OfSymbol(inputs, s) + if i.order.symbol == s then [i] else []
  {
    if inputs == [] {
      assert OfSymbol([i], s) == (if i.order.symbol == s then [i] else []) + OfSymbol([], s);
      assert [] + [i] == [i];
    } else {
      assert (inputs + [i])[1..] == inputs[1..] + [i];
      OfSymbolAppend(inputs[1..], i, s);
    }
  }

  // ---------- invariants of every interleaving ----------

  /** Every queued order waits on its own symbol's shard, and every processed one was taken by the
      thread that owns that shard and went to a book of that shard. */
  ghost predicate Isolated(ranges: seq<Range>, m: Market) {
    && Shaped(m)
    && (forall s: nat, i | s < NUM_SHARDS && i in m.queues[s] :: ShardIndex(i.order.symbol) == s)
    && (forall d | d in m.log ::
          && d.queue == d.shard == ShardIndex(d.input.order.symbol)
          && d.thread < |ranges| && InRange(ranges[d.thread], d.shard))
  }

  lemma {:induction false} ShardsIsolated(registry: Registry, symbols: seq<Symbol>, ranges: seq<Range>,
      actions: seq<Action>)
    requires Allowed(ranges, actions)
    ensures Isolated(ranges, Exec(registry, symbols, ranges, actions))
  {
    if actions != [] {
      var a := actions[|actions| - 1];
      ShardsIsolated(registry, symbols, ranges, actions[..|actions| - 1]);
      assert a in actions;
      var m := Exec(registry, symbols, ranges, actions[..|actions| - 1]);
      if a.Drain? && m.queues[a.shard] != [] {
        assert m.queues[a.shard][0] in m.queues[a.shard];
      }
    }
  }

  // The symbol's processed and queued requests, in that order
  function Taken(m: Market, s: Symbol): seq<Input>
    requires |m.queues| == NUM_SHARDS
  {
    ProcessedOf(m.log, s) + OfSymbol(m.queues[ShardIndex(s)], s)
  }

  lemma SubmitTakes(m: Market, i: Input, s: Symbol)
    requires Shaped(m)
    ensures Taken(SubmitOrder(m, i), s) == Taken(m, s) + if i.order.symbol == s then [i] else []
  {
    OfSymbolAppend(m.queues[ShardIndex(s)], i, s);
  }

  lemma LogAppend(log: seq<Done>, d: Done, s: Symbol)
    ensures ProcessedOf(log + [d], s) == ProcessedOf(log, s) + if d.input.order.symbol == s then [d.input] else []
  {
    assert (log + [d])[..|log|] == log;
  }

  lemma Regroup(done: seq<Input>, one: seq<Input>, queued: seq<Input>)
    ensures (done + one) + queued == done + (one + queued)
  {}

  lemma PopTakes(ranges: seq<Range>, m: Market, thread: nat, shard: nat, s: Symbol)
    requires Isolated(ranges, m) && shard < NUM_SHARDS && m.queues[shard] != []
    ensures Taken(Popped(m, thread, shard, ShardIndex(m.queues[shard][0].order.symbol)), s) == Taken(m, s)
  {
    var i, rest := m.queues[shard][0], m.queues[shard][1..];
    var one := if i.order.symbol == s then [i] else [];
    assert i in m.queues[shard];
    LogAppend(m.log, Done(thread, shard, ShardIndex(i.order.symbol), i), s);
    if ShardIndex(s) == shard {
      assert OfSymbol(m.queues[shard], s) == one + OfSymbol(rest, s);
      Regroup(ProcessedOf(m.log, s), one, OfSymbol(rest, s));
    } else {
      assert ProcessedOf(m.log, s) + one == ProcessedOf(m.log, s);
    }
  }

  /** Of each symbol's submissions the processed ones are a prefix, in order, and the rest is queued. */
  lemma {:induction false} QueueOrderKept(registry: Registry, symbols: seq<Symbol>, ranges: seq<Range>,
                                          actions: seq<Action>, s: Symbol)
    requires Allowed(ranges, actions)
    ensures Submitted(actions, s) == Taken(Exec(registry, symbols, ranges, actions), s)
  {
    if actions != [] {
      var before, a := actions[..|actions| - 1], actions[|actions| - 1];
      var m := Exec(registry, symbols, ranges, before);
      QueueOrderKept(registry, symbols, ranges, before, s);
      ShardsIsolated(registry, symbols, ranges, before);
      match a
      case Submit(i) =>
        SubmitTakes(m, i, s);
      case Drain(thread, shard) =>
        assert a in actions;
        if m.queues[shard] != [] {
          PopTakes(ranges, m, thread, shard, s);
        }
    }
  }

  // ---------- each book is the run of its own symbol ----------

  ghost predicate Listed(symbols: seq<Symbol>, shard: nat, hash: int) {
    exists s :: s in symbols && ShardIndex(s) == shard && SymbolHash(s) == hash
  }

  lemma {:induction false} OpenedBooks(symbols: seq<Symbol>, shard: nat, hash: int)
    requires shard < NUM_SHARDS
    ensures hash in OpenBooks(symbols)[shard] <==> Listed(symbols, shard, hash)
    ensures hash in OpenBooks(symbols)[shard] ==> OpenBooks(symbols)[shard][hash] == EMPTY_STATE
  {
    if symbols != [] {
      var before, s := symbols[..|symbols| - 1], symbols[|symbols| - 1];
      OpenedBooks(before, shard, hash);
      assert symbols == before + [s];
      assert s in symbols;
      if Listed(before, shard, hash) {
        var t :| t in before && ShardIndex(t) == shard && SymbolHash(t) == hash;
        assert t in symbols;
      }
      if Listed(symbols, shard, hash) {
        var t :| t in symbols && ShardIndex(t) == shard && SymbolHash(t) == hash;
        assert t in before || t == s;
      }
    }
  }

  lemma {:induction false} BooksStayListed(registry: Registry, symbols: seq<Symbol>, ranges: seq<Range>,
                                           actions: seq<Action>, shard: nat, hash: int)
    requires Allowed(ranges, actions) && shard < NUM_SHARDS
    ensures hash in Exec(registry, symbols, ranges, actions).books[shard] <==> Listed(symbols, shard, hash)
  {
    if actions == [] {
      OpenedBooks(symbols, shard, hash);
    } else {
      BooksStayListed(registry, symbols, ranges, actions[..|actions| - 1], shard, hash);
      assert actions[|actions| - 1] in actions;
    }
  }

  // The book of a listed symbol
  ghost function BookOf(m: Market, s: Symbol): State
    requires Shaped(m) && SymbolHash(s) in m.books[ShardIndex(s)]
  {
    m.books[ShardIndex(s)][SymbolHash(s)]
  }

  lemma ApplyKeepsSeqLen(live: Sessions, s: State, i: Input)
    ensures Apply(live, s, i).seqLen == s.seqLen
  {}

  lemma UpdateKeepsSeqLen(live: Sessions, s: State)
    ensures UpdateBook(live, s).seqLen == s.seqLen
  {
    UpdateKeeps(live, s, iset t: State | t.seqLen == s.seqLen);
  }

  lemma ProcessCounts(live: Sessions, s: State, i: Input)
    ensures Process(live, s, i).seqLen == s.seqLen + 1
  {
    ApplyKeepsSeqLen(live, Count(s), i);
    UpdateKeepsSeqLen(live, Apply(live, Count(s), i));
  }

  /** A book's sequence number is the number of its requests. */
  lemma {:induction false} SequenceNumber(live: Sessions, inputs: seq<Input>)
    ensures Run(live, inputs).seqLen == |inputs|
  {
    if inputs != [] {
      var n := |inputs| - 1;
      SequenceNumber(live, inputs[..n]);
      ProcessCounts(live, Run(live, inputs[..n]), inputs[n]);
    }
  }

  // Processing one request moves only the book of its symbol
  lemma ProcessOneBook(registry: Registry, m: Market, i: Input, s: Symbol, live: Sessions, done: seq<Input>)
    requires Shaped(m) && SymbolHash(s) in m.books[ShardIndex(s)]
    requires live == AnswersFor(registry, SymbolHash(s)) && BookOf(m, s) == Run(live, done)
    ensures var m' := ProcessOne(registry, m, ShardIndex(i.order.symbol), i);
            && Shaped(m') && SymbolHash(s) in m'.books[ShardIndex(s)] && m'.log == m.log && m'.queues == m.queues
            && BookOf(m', s) == Run(live, if i.order.symbol == s then done + [i] else done)
  {
    if SymbolHash(i.order.symbol) == SymbolHash(s) {
      HashInjective(i.order.symbol, s);
      Runs.RunExtends(live, done, i);
    }
  }

  /** In every interleaving the book of each listed symbol is the sequential run of that symbol's
      own requests in the order they were queued, as far as they have been processed. */
  lemma {:induction false} BookIsRunOfItsSymbol(registry: Registry, symbols: seq<Symbol>, ranges: seq<Range>,
                                                actions: seq<Action>, s: Symbol)
    requires Allowed(ranges, actions) && s in symbols
    ensures var m := Exec(registry, symbols, ranges, actions);
            && SymbolHash(s) in m.books[ShardIndex(s)]
            && BookOf(m, s) == Run(AnswersFor(registry, SymbolHash(s)), ProcessedOf(m.log, s))
            && ProcessedOf(m.log, s) <= Submitted(actions, s)
  {
    var m := Exec(registry, symbols, ranges, actions);
    BooksStayListed(registry, symbols, ranges, actions, ShardIndex(s), SymbolHash(s));
    QueueOrderKept(registry, symbols, ranges, actions, s);
    if actions == [] {
      OpenedBooks(symbols, ShardIndex(s), SymbolHash(s));
    } else {
      var before, a := actions[..|actions| - 1], actions[|actions| - 1];
      BookIsRunOfItsSymbol(registry, symbols, ranges, before, s);
      assert a in actions;
      var was := Exec(registry, symbols, ranges, before);
      if a.Drain? && was.queues[a.shard] != [] {
        DrainMovesBook(registry, was, a.thread, a.shard, s);
      }
    }
  }

  // Processing what was popped from a queue moves a book and its log together
  lemma PoppedMovesBook(registry: Registry, popped: Market, log: seq<Done>, d: Done, s: Symbol, live: Sessions)
    requires Shaped(popped) && SymbolHash(s) in popped.books[ShardIndex(s)] && popped.log == log + [d]
    requires live == AnswersFor(registry, SymbolHash(s)) && BookOf(popped, s) == Run(live, ProcessedOf(log, s))
    ensures var m' := ProcessOne(registry, popped, ShardIndex(d.input.order.symbol), d.input);
            && Shaped(m') && SymbolHash(s) in m'.books[ShardIndex(s)]
            && BookOf(m', s) == Run(live, ProcessedOf(m'.log, s))
  {
    LogAppend(log, d, s);
    ProcessOneBook(registry, popped, d.input, s, live, ProcessedOf(log, s));
    assert ProcessedOf(popped.log, s) == if d.input.order.symbol == s then ProcessedOf(log, s) + [d.input]
        else ProcessedOf(log, s);
  }

  lemma DrainMovesBook(registry: Registry, m: Market, thread: nat, shard: nat, s: Symbol)
    requires Shaped(m) && shard < NUM_SHARDS && m.queues[shard] != [] && SymbolHash(s) in m.books[ShardIndex(s)]
    requires BookOf(m, s) == Run(AnswersFor(registry, SymbolHash(s)), ProcessedOf(m.log, s))
    ensures var m' := DrainOne(registry, m, thread, shard);
            && Shaped(m') && SymbolHash(s) in m'.books[ShardIndex(s)]
            && BookOf(m', s) == Run(AnswersFor(registry, SymbolHash(s)), ProcessedOf(m'.log, s))
  {
    var i := m.queues[shard][0];
    var target := ShardIndex(i.order.symbol);
    var popped := Popped(m, thread, shard, target);
    assert BookOf(popped, s) == BookOf(m, s);
    PoppedMovesBook(registry, popped, m.log, Done(thread, shard, target, i), s, AnswersFor(registry, SymbolHash(s)));
  }

  /** A request for a symbol nobody listed leaves every book alone, and its session is told
      SYMBOL_NOT_FOUND if it is connected; no other request gets that answer. */
  lemma UnknownSymbol(registry: Registry, symbols: seq<Symbol>, ranges: seq<Range>, actions: seq<Action>, i: Input)
    requires Allowed(ranges, actions)
    ensures var m := Exec(registry, symbols, ranges, actions);
            var m' := ProcessOne(registry, m, ShardIndex(i.order.symbol), i);
            var connected := (SymbolHash(i.order.symbol), |m.log|) in registry;
            && (i.order.symbol !in symbols ==> m'.books == m.books)
            && m'.rejections == if i.order.symbol !in symbols && connected
                                then m.rejections + [Sent(i.order.session, Error(SYMBOL_NOT_FOUND))] else m.rejections
  {
    var s, m := i.order.symbol, Exec(registry, symbols, ranges, actions);
    assert m.rejections + [] == m.rejections;
    BooksStayListed(registry, symbols, ranges, actions, ShardIndex(s), SymbolHash(s));
    if Listed(symbols, ShardIndex(s), SymbolHash(s)) {
      var t :| t in symbols && ShardIndex(t) == ShardIndex(s) && SymbolHash(t) == SymbolHash(s);
      HashInjective(t, s);
    }
  }
}

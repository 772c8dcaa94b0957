/** What one step of a market does, and that draining a shard often enough processes everything
    submitted to it. */
module MarketProgress {
  import opened Config
  import opened Orders
  import opened Symbols
  import opened LazyBooks
  import opened Markets

  lemma AllowedParts(ranges: seq<Range>, actions: seq<Action>, more: seq<Action>)
    requires Allowed(ranges, actions + more)
    ensures Allowed(ranges, actions) && Allowed(ranges, more)
  {
    assert forall a | a in actions || a in more :: a in actions + more;
  }

  // One more action
  lemma ExecStep(registry: Registry, symbols: seq<Symbol>, ranges: seq<Range>, actions: seq<Action>, a: Action)
    requires Allowed(ranges, actions + [a])
    ensures Allowed(ranges, actions) && Allowed(ranges, [a])
    ensures a.Drain? ==> a.shard < NUM_SHARDS
    ensures var m := Exec(registry, symbols, ranges, actions);
            Exec(registry, symbols, ranges, actions + [a]) ==
              if a.Submit? then SubmitOrder(m, a.input) else DrainOne(registry, m, a.thread, a.shard)
  {
    AllowedParts(ranges, actions, [a]);
    assert (actions + [a])[..|actions|] == actions && a in actions + [a];
  }

  /** A submission waits at the end of the queue of its symbol's shard, and changes nothing else. */
  lemma SubmitQueues(registry: Registry, symbols: seq<Symbol>, ranges: seq<Range>, actions: seq<Action>, i: Input)
    requires Allowed(ranges, actions + [Submit(i)])
    ensures Allowed(ranges, actions)
    ensures var m, m' := Exec(registry, symbols, ranges, actions),
        Exec(registry, symbols, ranges, actions + [Submit(i)]);
            var s := ShardIndex(i.order.symbol);
            && m'.queues[s] == m.queues[s] + [i]
            && (forall u: nat | u < NUM_SHARDS && u != s :: m'.queues[u] == m.queues[u])
            && m'.books == m.books && m'.log == m.log && m'.rejections == m.rejections
  {
    ExecStep(registry, symbols, ranges, actions, Submit(i));
  }

  /** A drain of a shard with waiting requests takes exactly the first of them off its queue and
      records it as processed, by that thread; of an empty one it does nothing. */
  lemma DrainTakesHead(registry: Registry, symbols: seq<Symbol>, ranges: seq<Range>, actions: seq<Action>,
                       thread: nat, s: nat)
    requires Allowed(ranges, actions + [Drain(thread, s)])
    ensures Allowed(ranges, actions) && s < NUM_SHARDS
    ensures var m := Exec(registry, symbols, ranges, actions);
            var m' := Exec(registry, symbols, ranges, actions + [Drain(thread, s)]);
            var q := m.queues[s];
            && (q == [] ==> m' == m)
            && (q != [] ==>
                  && m'.queues[s] == q[1..]
                  && (forall u: nat | u < NUM_SHARDS && u != s :: m'.queues[u] == m.queues[u])
                  && |m'.log| == |m.log| + 1 && m'.log[..|m.log|] == m.log
                  && var d := m'.log[|m.log|];
                     d.input == q[0] && d.thread == thread && d.queue == s)
  {
    ExecStep(registry, symbols, ranges, actions, Drain(thread, s));
    var m := Exec(registry, symbols, ranges, actions);
    if m.queues[s] != [] {
      var i := m.queues[s][0];
      var popped := Popped(m, thread, s, ShardIndex(i.order.symbol));
      var m' := ProcessOne(registry, popped, ShardIndex(i.order.symbol), i);
      assert m'.queues == popped.queues && m'.log == popped.log;
    }
  }

  function Drains(actions: seq<Action>, s: nat): nat {
    if actions == [] then 0
    else
      var a := actions[|actions| - 1];
      Drains(actions[..|actions| - 1], s) + if a.Drain? && a.shard == s then 1 else 0
  }

  predicate NoSubmission(actions: seq<Action>, s: nat) {
    forall a | a in actions && a.Submit? :: ShardIndex(a.input.order.symbol) != s
  }

  // What is left of a queue after some drains
  function LeftAfter(q: seq<Input>, drains: nat): seq<Input> {
    if drains <= |q| then q[drains..] else []
  }

  // One action and the queue of a shard it submits nothing to
  lemma QueueStep(registry: Registry, symbols: seq<Symbol>, ranges: seq<Range>, actions: seq<Action>, a: Action, s: nat)
    requires Allowed(ranges, actions + [a]) && s < NUM_SHARDS && NoSubmission([a], s)
    ensures Allowed(ranges, actions)
    ensures var q := Exec(registry, symbols, ranges, actions).queues[s];
            Exec(registry, symbols, ranges, actions + [a]).queues[s]
              == if a.Drain? && a.shard == s then LeftAfter(q, 1) else q
  {
    assert a in [a];
    match a
    case Submit(i) =>
      SubmitQueues(registry, symbols, ranges, actions, i);
    case Drain(thread, shard) =>
      DrainTakesHead(registry, symbols, ranges, actions, thread, shard);
  }

  /** While nothing is submitted to a shard each of its drains takes one request off the front of its
      queue, whatever else happens in between. */
  lemma {:induction false} QueueDrains(registry: Registry, symbols: seq<Symbol>, ranges: seq<Range>,
                                       actions: seq<Action>, more: seq<Action>, s: nat)
    requires Allowed(ranges, actions + more) && s < NUM_SHARDS && NoSubmission(more, s)
    ensures Allowed(ranges, actions)
    ensures Exec(registry, symbols, ranges, actions + more).queues[s]
         == LeftAfter(Exec(registry, symbols, ranges, actions).queues[s], Drains(more, s))
    decreases |more|
  {
    AllowedParts(ranges, actions, more);
    if more == [] {
      assert actions + more == actions;
    } else {
      var before, a := more[..|more| - 1], more[|more| - 1];
      assert actions + more == (actions + before) + [a] && a in more && forall b | b in before :: b in more;
      AllowedParts(ranges, actions + before, [a]);
      QueueDrains(registry, symbols, ranges, actions, before, s);
      QueueStep(registry, symbols, ranges, actions + before, a, s);
    }
  }

  lemma {:induction false} SubmittedMore(actions: seq<Action>, more: seq<Action>, s: Symbol)
    requires NoSubmission(more, ShardIndex(s))
    ensures Submitted(actions + more, s) == Submitted(actions, s)
    decreases |more|
  {
    if more == [] {
      assert actions + more == actions;
    } else {
      var before, a := more[..|more| - 1], more[|more| - 1];
      assert (actions + more)[..|actions + more| - 1] == actions + before && a in more
          && forall b | b in before :: b in more;
      SubmittedMore(actions, before, s);
    }
  }

  /** Once a shard has been drained as often as its queue was long, every request submitted for each of
      its symbols has been processed, in order, and each of its listed symbols' books is the run of
      all of them. */
  lemma EverythingIsProcessed(registry: Registry, symbols: seq<Symbol>, ranges: seq<Range>,
                              actions: seq<Action>, more: seq<Action>, s: Symbol)
    requires Allowed(ranges, actions + more) && NoSubmission(more, ShardIndex(s))
    ensures Allowed(ranges, actions)
    ensures var m := Exec(registry, symbols, ranges, actions + more);
            Drains(more, ShardIndex(s)) >= |Exec(registry, symbols, ranges, actions).queues[ShardIndex(s)]| ==>
              && ProcessedOf(m.log, s) == Submitted(actions, s)
              && (s in symbols ==>
                    && SymbolHash(s) in m.books[ShardIndex(s)]
                    && BookOf(m, s) == Run(AnswersFor(registry, SymbolHash(s)), Submitted(actions, s)))
  {
    AllowedParts(ranges, actions, more);
    QueueDrains(registry, symbols, ranges, actions, more, ShardIndex(s));
    QueueOrderKept(registry, symbols, ranges, actions + more, s);
    SubmittedMore(actions, more, s);
    if s in symbols {
      BookIsRunOfItsSymbol(registry, symbols, ranges, actions + more, s);
    }
  }
}

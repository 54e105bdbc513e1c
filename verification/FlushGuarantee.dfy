/**
 * What callers can know about a flush (src/system/logger/async_logger2.cxx) from their own calls alone:
 * the writes, the flushes and their returns, in the order in which they got the lock, with no stop.
 */
module FlushGuarantee {
  import opened AsyncLogger

  predicate IsCall<R>(a: Action<R>) {
    a.Write? || a.PushFlush? || a.FlushReturns?
  }

  /** The call puts an item into the queue. */
  predicate Queues<R>(a: Action<R>) {
    a.PushFlush? || (a.Write? && a.record.Some? && a.threshold <= a.level)
  }

  function Calls<R>(actions: seq<Action<R>>): seq<Action<R>>
    decreases |actions|
  {
    if actions == [] then [] else (if IsCall(actions[0]) then [actions[0]] else []) + Calls(actions[1..])
  }

  predicate Unstopped<R>(actions: seq<Action<R>>) {
    forall i | 0 <= i < |actions| :: !actions[i].RequestStop?
  }

  /** A run without a stop that looks like `calls` to the callers, whatever the worker did in between. */
  ghost predicate LooksLike<R>(s: State<R>, actions: seq<Action<R>>, calls: seq<Action<R>>) {
    Legal(s, actions) && Unstopped(actions) && Calls(actions) == calls
  }

  /**
   * What the calls so far make certain: this many items are delivered, this many have left the queue, and
   * this many were queued. A flush returns on an empty queue, so everything queued has been taken; and the
   * worker takes a second batch only when it has delivered the first.
   */
  datatype Certain = Certain(delivered: nat, taken: nat, queued: nat)

  function AfterCall<R>(c: Certain, a: Action<R>): Certain {
    if Queues(a) then c.(queued := c.queued + 1)
    else if a.FlushReturns? && c.taken < c.queued then Certain(c.taken, c.queued, c.queued)
    else c
  }

  function AfterCalls<R>(c: Certain, calls: seq<Action<R>>): Certain
    decreases |calls|
  {
    if calls == [] then c else AfterCalls(AfterCall(c, calls[0]), calls[1..])
  }

  const NOTHING := Certain(0, 0, 0)

  // ---------------------------------------------------------------- no run delivers less

  ghost predicate AtLeast<R>(s: State<R>, c: Certain) {
    && c.delivered <= |s.delivered| && c.taken <= Taken(s) && c.queued == |s.accepted|
    && (c.taken < Taken(s) ==> c.taken <= |s.delivered|)
  }

  lemma WaitingHasNoBatch<R>(s: State<R>)
    requires Inv(s) && !s.stop
    ensures s.dropped == [] && |s.accepted| == Taken(s) + |s.queue| && Taken(s) == |s.delivered| + |s.batch|
    ensures s.worker.Waiting? || s.worker.LoopEnd? ==> s.batch == []
  {
    hide FlushersMatch, OneAfterStop;
  }

  lemma StepKeepsAtLeast<R>(s: State<R>, a: Action<R>, c: Certain)
    requires Inv(s) && !s.stop && Enabled(s, a) && !a.RequestStop? && AtLeast(s, c)
    ensures !Apply(s, a).stop && AtLeast(Apply(s, a), if IsCall(a) then AfterCall(c, a) else c)
  {
    WaitingHasNoBatch(s);
    hide Inv;
  }

  lemma {:induction false} RunDeliversAtLeast<R>(s: State<R>, actions: seq<Action<R>>, c: Certain)
    requires Inv(s) && !s.stop && Legal(s, actions) && Unstopped(actions) && AtLeast(s, c)
    ensures !Execute(s, actions).stop && AtLeast(Execute(s, actions), AfterCalls(c, Calls(actions)))
    decreases |actions|
  {
    hide Inv, Apply, AtLeast, AfterCall;
    if actions != [] {
      var a := actions[0];
      StepKeepsInv(s, a);
      StepKeepsAtLeast(s, a, c);
      RunDeliversAtLeast(Apply(s, a), actions[1..], if IsCall(a) then AfterCall(c, a) else c);
      CallsOfStep(a, actions[1..]);
      assert actions == [a] + actions[1..];
    }
  }

  lemma CallsOfStep<R>(a: Action<R>, rest: seq<Action<R>>)
    ensures Calls([a] + rest) == (if IsCall(a) then [a] else []) + Calls(rest)
    ensures IsCall(a) ==> forall c :: AfterCalls(c, Calls([a] + rest)) == AfterCalls(AfterCall(c, a), Calls(rest))
    ensures !IsCall(a) ==> Calls([a] + rest) == Calls(rest)
  {
    assert ([a] + rest)[1..] == rest;
    assert ([a] + Calls(rest))[1..] == Calls(rest);
  }

  // ---------------------------------------------------------------- some run delivers no more

  lemma {:induction false} RunsJoin<R>(s: State<R>, first: seq<Action<R>>, then_: seq<Action<R>>)
    requires Legal(s, first) && Legal(Execute(s, first), then_)
    ensures Legal(s, first + then_) && Execute(s, first + then_) == Execute(Execute(s, first), then_)
    ensures Calls(first + then_) == Calls(first) + Calls(then_)
    decreases |first|
  {
    hide Apply, Enabled;
    if first == [] {
      assert first + then_ == then_;
    } else {
      assert (first + then_)[1..] == first[1..] + then_;
      RunsJoin(Apply(s, first[0]), first[1..], then_);
    }
  }

  lemma OneStepRun<R>(s: State<R>, a: Action<R>)
    requires Enabled(s, a)
    ensures Legal(s, [a]) && Execute(s, [a]) == Apply(s, a)
    ensures Calls([a]) == if IsCall(a) then [a] else []
  {
    hide Apply, Enabled;
    assert [a][1..] == [];
  }

  lemma TwoStepRun<R>(s: State<R>, a: Action<R>, b: Action<R>)
    requires Enabled(s, a) && Enabled(Apply(s, a), b) && !IsCall(a) && !IsCall(b)
    ensures Legal(s, [a, b]) && Execute(s, [a, b]) == Apply(Apply(s, a), b) && Calls([a, b]) == []
  {
    hide Apply, Enabled;
    OneStepRun(s, a);
    OneStepRun(Apply(s, a), b);
    RunsJoin(s, [a], [b]);
    assert [a] + [b] == [a, b];
  }

  /** A worker that has moved no further than its callers' returns forced it to. */
  ghost predicate Lazy<R>(s: State<R>, c: Certain) {
    && Inv(s) && !s.stop
    && (if s.batch == [] then s.worker.Waiting? else s.worker.Sending?)
    && |s.delivered| == c.delivered && Taken(s) == c.taken && |s.accepted| == c.queued
  }

  lemma DeliverOneAndGoOn<R>(s: State<R>) returns (s': State<R>)
    requires Inv(s) && !s.stop && s.worker.Sending? && s.batch != []
    ensures Enabled(s, DeliverOne) && Enabled(Apply(s, DeliverOne), CheckAfterOne)
    ensures s' == Apply(Apply(s, DeliverOne), CheckAfterOne) && Inv(s')
    ensures !s'.stop && s'.queue == s.queue && s'.flushers == s.flushers && s'.accepted == s.accepted
    ensures |s'.batch| == |s.batch| - 1 && |s'.delivered| == |s.delivered| + 1 && s'.dropped == s.dropped
    ensures s'.worker == if s'.batch == [] then LoopEnd else Sending
  {
    StepKeepsInv(s, DeliverOne);
    StepKeepsInv(Apply(s, DeliverOne), CheckAfterOne);
    s' := Apply(Apply(s, DeliverOne), CheckAfterOne);
  }

  /** The worker can deliver the rest of its batch and come back to wait, with no call in between. */
  lemma {:induction false} WorkerFinishes<R>(s: State<R>) returns (steps: seq<Action<R>>)
    requires Inv(s) && !s.stop && s.dropped == []
    requires (s.batch == [] && s.worker.LoopEnd?) || (s.batch != [] && s.worker.Sending?)
    ensures Legal(s, steps) && Unstopped(steps) && Calls(steps) == []
    ensures var s' := Execute(s, steps);
            && Inv(s') && !s'.stop && s'.worker.Waiting? && s'.batch == [] && s'.dropped == []
            && s'.queue == s.queue && s'.flushers == s.flushers && s'.accepted == s.accepted
            && |s'.delivered| == |s.delivered| + |s.batch|
    decreases |s.batch|
  {
    if s.batch == [] {
      StepKeepsInv(s, CheckLoop);
      OneStepRun<R>(s, CheckLoop);
      steps := [CheckLoop];
    } else {
      var s1 := DeliverOneAndGoOn(s);
      TwoStepRun<R>(s, DeliverOne, CheckAfterOne);
      hide Apply, Inv, Legal, Execute, Calls;
      var rest := WorkerFinishes(s1);
      RunsJoin(s, [DeliverOne, CheckAfterOne], rest);
      steps := [DeliverOne, CheckAfterOne] + rest;
    }
  }

  /** A lazy worker can be brought to take the whole queue, and no further. */
  lemma WorkerTakesQueue<R>(s: State<R>, c: Certain) returns (steps: seq<Action<R>>)
    requires Lazy(s, c) && s.queue != []
    ensures Legal(s, steps) && Unstopped(steps) && Calls(steps) == []
    ensures var s' := Execute(s, steps);
            Lazy(s', Certain(c.taken, c.queued, c.queued))
            && s'.queue == [] && s'.flushers == s.flushers && s'.accepted == s.accepted
  {
    WaitingHasNoBatch(s);
    var first: seq<Action<R>> := [];
    if s.batch != [] {
      first := WorkerFinishes(s);
    }
    var s1 := Execute(s, first);
    WaitingHasNoBatch(s1);
    StepKeepsInv(s1, TakeBatch);
    OneStepRun<R>(s1, TakeBatch);
    hide Inv, Legal, Execute, Calls;
    RunsJoin(s, first, [TakeBatch]);
    steps := first + [TakeBatch];
    WaitingHasNoBatch(Apply(s1, TakeBatch));
  }

  lemma LazyCall<R>(s: State<R>, a: Action<R>, z: State<R>, c: Certain)
    requires Enabled(s, a) && IsCall(a) && !s.stop && Lazy(z, c)
    requires z.flushers == s.flushers && z.accepted == s.accepted && (a.FlushReturns? ==> z.queue == [])
    ensures Enabled(z, a) && Lazy(Apply(z, a), AfterCall(c, a)) && !Apply(s, a).stop
    ensures Apply(z, a).flushers == Apply(s, a).flushers && Apply(z, a).accepted == Apply(s, a).accepted
  {
    WaitingHasNoBatch(z);
    StepKeepsInv(z, a);
    CallLeavesWorker(z, a);
    CallLeavesWorker(s, a);
    hide Inv, Apply;
    SameAnswers(s, a, z);
  }

  lemma CallLeavesWorker<R>(s: State<R>, a: Action<R>)
    requires Enabled(s, a) && IsCall(a)
    ensures var s' := Apply(s, a);
            && s'.batch == s.batch && s'.worker == s.worker && s'.stop == s.stop
            && s'.delivered == s.delivered && Taken(s') == Taken(s)
            && |s'.accepted| == |s.accepted| + if Queues(a) then 1 else 0
  {
  }

  lemma SameAnswers<R>(s: State<R>, a: Action<R>, z: State<R>)
    requires Enabled(s, a) && Enabled(z, a) && IsCall(a) && z.stop == s.stop
    requires z.flushers == s.flushers && z.accepted == s.accepted
    ensures Apply(z, a).flushers == Apply(s, a).flushers && Apply(z, a).accepted == Apply(s, a).accepted
  {
  }

  /** A lazy worker moves for a call only when a flush could not return otherwise. */
  lemma LazyAnswer<R>(s: State<R>, a: Action<R>, z: State<R>, c: Certain) returns (steps: seq<Action<R>>)
    requires Enabled(s, a) && IsCall(a) && !s.stop && Lazy(z, c)
    requires z.flushers == s.flushers && z.accepted == s.accepted
    ensures LooksLike(z, steps, [a]) && Lazy(Execute(z, steps), AfterCall(c, a)) && !Apply(s, a).stop
    ensures var z' := Execute(z, steps);
            z'.flushers == Apply(s, a).flushers && z'.accepted == Apply(s, a).accepted
  {
    var first: seq<Action<R>> := [];
    var c1 := c;
    LazyWorkerIsBehind(z, c);
    if a.FlushReturns? && z.queue != [] {
      first := WorkerTakesQueue(z, c);
      c1 := Certain(c.taken, c.queued, c.queued);
    }
    var z1 := Execute(z, first);
    LazyCall(s, a, z1, c1);
    OneStepRun(z1, a);
    assert AfterCall(c1, a) == AfterCall(c, a);
    hide Apply, Lazy, Legal, Execute, Calls, Enabled, AfterCall;
    RunsJoin(z, first, [a]);
    steps := first + [a];
    assert [] + [a] == [a];
  }

  lemma LazyWorkerIsBehind<R>(z: State<R>, c: Certain)
    requires Lazy(z, c)
    ensures z.queue != [] <==> c.taken < c.queued
  {
    WaitingHasNoBatch(z);
    hide Inv;
  }

  /** For every run there is one that looks the same to the callers and delivers only what is certain. */
  lemma {:induction false} LaziestRun<R>(s: State<R>, actions: seq<Action<R>>, z: State<R>, c: Certain)
    returns (lazy: seq<Action<R>>)
    requires !s.stop && Legal(s, actions) && Unstopped(actions)
    requires Lazy(z, c) && z.flushers == s.flushers && z.accepted == s.accepted
    ensures LooksLike(z, lazy, Calls(actions))
    ensures |Execute(z, lazy).delivered| == AfterCalls(c, Calls(actions)).delivered
    decreases |actions|
  {
    if actions == [] {
      return [];
    }
    var a, rest := actions[0], actions[1..];
    assert actions == [a] + rest;
    CallsOfStep(a, rest);
    if IsCall(a) {
      var first := LazyAnswer(s, a, z, c);
      hide Apply, Lazy, Calls, Enabled, AfterCalls;
      var more := LaziestRun(Apply(s, a), rest, Execute(z, first), AfterCall(c, a));
      hide Legal, Execute;
      RunsJoin(z, first, more);
      lazy := first + more;
    } else {
      WorkerKeepsQueued(s, a);
      hide Apply, Lazy, Calls;
      lazy := LaziestRun(Apply(s, a), rest, z, c);
    }
  }

  lemma WorkerKeepsQueued<R>(s: State<R>, a: Action<R>)
    requires Enabled(s, a) && !IsCall(a) && !a.RequestStop? && !s.stop
    ensures Apply(s, a).flushers == s.flushers && Apply(s, a).accepted == s.accepted && !Apply(s, a).stop
  {
  }

  // ---------------------------------------------------------------- what is certain, in terms of the calls

  lemma {:induction false} AfterCallsJoin<R>(c: Certain, first: seq<Action<R>>, then_: seq<Action<R>>)
    ensures AfterCalls(c, first + then_) == AfterCalls(AfterCalls(c, first), then_)
    decreases |first|
  {
    hide AfterCall;
    if first == [] {
      assert first + then_ == then_;
    } else {
      assert (first + then_)[1..] == first[1..] + then_;
      AfterCallsJoin(AfterCall(c, first[0]), first[1..], then_);
    }
  }

  lemma OneMoreCall<R>(calls: seq<Action<R>>, a: Action<R>)
    ensures AfterCalls(NOTHING, calls + [a]) == AfterCall(AfterCalls(NOTHING, calls), a)
  {
    AfterCallsJoin(NOTHING, calls, [a]);
    assert [a][1..] == [];
  }

  predicate ReturnAt<R>(calls: seq<Action<R>>, i: int) {
    0 <= i < |calls| && calls[i].FlushReturns?
  }

  predicate QueuesAt<R>(calls: seq<Action<R>>, i: int) {
    0 <= i < |calls| && Queues(calls[i])
  }

  ghost predicate ReturnAfter<R>(calls: seq<Action<R>>, p: int) {
    exists i :: p < i && ReturnAt(calls, i)
  }

  /** Something was queued that no flush has returned after. */
  ghost predicate Pending<R>(calls: seq<Action<R>>) {
    exists j :: QueuesAt(calls, j) && !ReturnAfter(calls, j)
  }

  /** A return after the `p`-th call, something queued after that, and a return after that. */
  ghost predicate Triple<R>(calls: seq<Action<R>>, p: int, i: int, j: int, k: int) {
    p < i < j < k && ReturnAt(calls, i) && QueuesAt(calls, j) && ReturnAt(calls, k)
  }

  ghost predicate ReturnedTwice<R>(calls: seq<Action<R>>, p: int) {
    exists i, j, k :: Triple(calls, p, i, j, k)
  }

  lemma LastCall<R>(calls: seq<Action<R>>, a: Action<R>, i: int)
    ensures ReturnAt(calls + [a], i) <==> ReturnAt(calls, i) || (i == |calls| && a.FlushReturns?)
    ensures QueuesAt(calls + [a], i) <==> QueuesAt(calls, i) || (i == |calls| && Queues(a))
  {
  }

  lemma {:induction false} QueuedJoin<R>(first: seq<Action<R>>, then_: seq<Action<R>>)
    ensures Queued(first + then_) == Queued(first) + Queued(then_)
    decreases |first|
  {
    if first == [] {
      assert first + then_ == then_;
    } else {
      assert (first + then_)[1..] == first[1..] + then_;
      QueuedJoin(first[1..], then_);
    }
  }

  lemma OneMoreQueued<R>(calls: seq<Action<R>>, a: Action<R>)
    ensures |Queued(calls + [a])| == |Queued(calls)| + if Queues(a) then 1 else 0
  {
    QueuedJoin(calls, [a]);
    assert [a][1..] == [];
  }

  lemma PendingAfterLast<R>(calls: seq<Action<R>>, a: Action<R>)
    ensures Pending(calls + [a]) <==> Queues(a) || (Pending(calls) && !a.FlushReturns?)
    ensures forall p | p < |calls| :: ReturnAfter(calls + [a], p) <==> ReturnAfter(calls, p) || a.FlushReturns?
  {
    forall i
      ensures ReturnAt(calls + [a], i) <==> ReturnAt(calls, i) || (i == |calls| && a.FlushReturns?)
      ensures QueuesAt(calls + [a], i) <==> QueuesAt(calls, i) || (i == |calls| && Queues(a))
    {
      LastCall(calls, a, i);
    }
    hide Queues;
    if a.FlushReturns? {
      assert ReturnAt(calls + [a], |calls|);
    }
    forall p | p < |calls|
      ensures ReturnAfter(calls + [a], p) <==> ReturnAfter(calls, p) || a.FlushReturns?
    {
    }
    if Queues(a) {
      assert QueuesAt(calls + [a], |calls|) && !ReturnAfter(calls + [a], |calls|);
    }
    if Pending(calls) {
      var j :| QueuesAt(calls, j) && !ReturnAfter(calls, j);
      assert QueuesAt(calls + [a], j);
    }
  }

  lemma {:induction false} LevelsOf<R>(calls: seq<Action<R>>)
    ensures var c := AfterCalls(NOTHING, calls);
            && c.delivered <= c.taken <= c.queued == |Queued(calls)|
            && (c.taken < c.queued <==> Pending(calls))
    decreases |calls|
  {
    if calls != [] {
      var before, a := calls[..|calls| - 1], calls[|calls| - 1];
      assert calls == before + [a];
      LevelsOf(before);
      OneMoreCall(before, a);
      OneMoreQueued(before, a);
      PendingAfterLast(before, a);
      hide Pending, Queued, AfterCalls;
    }
  }

  /** The item queued by the `p`-th call has certainly been taken exactly when a flush returned after it. */
  lemma {:induction false} TakenAfterReturn<R>(calls: seq<Action<R>>, p: nat)
    requires QueuesAt(calls, p)
    ensures var c, item := AfterCalls(NOTHING, calls), |Queued(calls[..p])|;
            item < c.queued && (item < c.taken <==> ReturnAfter(calls, p))
    decreases |calls|
  {
    var before, a := calls[..|calls| - 1], calls[|calls| - 1];
    assert calls == before + [a];
    LevelsOf(before);
    LevelsOf(calls);
    OneMoreCall(before, a);
    OneMoreQueued(before, a);
    PendingAfterLast(before, a);
    if p == |before| {
      assert calls[..p] == before;
      assert !ReturnAfter(calls, p);
    } else {
      assert before[..p] == calls[..p];
      TakenAfterReturn(before, p);
      hide Pending, Queued, AfterCalls, ReturnAfter;
    }
  }

  lemma TripleAfterLast<R>(calls: seq<Action<R>>, a: Action<R>, p: int, i: int, j: int, k: int)
    ensures Triple(calls + [a], p, i, j, k)
            <==> Triple(calls, p, i, j, k)
                 || (a.FlushReturns? && k == |calls| && p < i < j && ReturnAt(calls, i) && QueuesAt(calls, j))
  {
    LastCall(calls, a, i);
    LastCall(calls, a, j);
    LastCall(calls, a, k);
  }

  lemma TwiceAfterLast<R>(calls: seq<Action<R>>, a: Action<R>, p: nat)
    requires p < |calls|
    ensures ReturnedTwice(calls + [a], p)
            <==> ReturnedTwice(calls, p) || (a.FlushReturns? && Pending(calls) && ReturnAfter(calls, p))
  {
    forall i, j, k
      ensures Triple(calls + [a], p, i, j, k)
              <==> Triple(calls, p, i, j, k)
                   || (a.FlushReturns? && k == |calls| && p < i < j && ReturnAt(calls, i) && QueuesAt(calls, j))
    {
      TripleAfterLast(calls, a, p, i, j, k);
    }
    if a.FlushReturns? && Pending(calls) && ReturnAfter(calls, p) {
      var i, j :| p < i && ReturnAt(calls, i) && QueuesAt(calls, j) && !ReturnAfter(calls, j);
      assert i != j by {
        if i == j { OneCallOneKind(calls, i); }
      }
      assert Triple(calls + [a], p, i, j, |calls|);
    }
    hide QueuesAt, ReturnAt;
    if ReturnedTwice(calls + [a], p) {
      var i, j, k :| Triple(calls + [a], p, i, j, k);
      if !Triple(calls, p, i, j, k) {
        assert p < i && ReturnAt(calls, i) && QueuesAt(calls, j);
        if !Pending(calls) {
          var r :| j < r && ReturnAt(calls, r);
          assert Triple(calls, p, i, j, r);
        }
      }
    }
  }

  lemma OneCallOneKind<R>(calls: seq<Action<R>>, i: int)
    ensures !(ReturnAt(calls, i) && QueuesAt(calls, i))
  {
  }

  /** It is certainly delivered exactly when, after that, something was queued and a flush returned again. */
  lemma {:induction false} DeliveredAfterSecondReturn<R>(calls: seq<Action<R>>, p: nat)
    requires QueuesAt(calls, p)
    ensures |Queued(calls[..p])| < AfterCalls(NOTHING, calls).delivered <==> ReturnedTwice(calls, p)
    decreases |calls|
  {
    var before, a := calls[..|calls| - 1], calls[|calls| - 1];
    assert calls == before + [a];
    LevelsOf(before);
    OneMoreCall(before, a);
    if p == |before| {
      assert calls[..p] == before;
      assert !ReturnedTwice(calls, p);
    } else {
      assert before[..p] == calls[..p];
      TakenAfterReturn(before, p);
      TwiceAfterLast(before, a, p);
      DeliveredAfterSecondReturn(before, p);
      hide Pending, Queued, AfterCalls, ReturnAfter, ReturnedTwice;
    }
  }

  // ---------------------------------------------------------------- the guarantee

  lemma StartIsLazy<R>(s: State<R>)
    requires Start(s)
    ensures Lazy(s, NOTHING) && AtLeast(s, NOTHING)
  {
  }

  /**
   * However the worker moved, a run without a stop has delivered the first `n` items queued exactly when
   * the calls alone make that certain: every run that looks the same to the callers delivers them if and
   * only if `n` is at most the number `AfterCalls` gives.
   */
  lemma CertainExactly<R(!new)>(s: State<R>, actions: seq<Action<R>>, n: nat)
    requires Start(s) && LooksLike(s, actions, Calls(actions))
    ensures n <= AfterCalls(NOTHING, Calls(actions)).delivered
            <==> forall other | LooksLike(s, other, Calls(actions)) :: n <= |Execute(s, other).delivered|
  {
    StartIsLazy(s);
    forall other | LooksLike(s, other, Calls(actions))
      ensures AfterCalls(NOTHING, Calls(actions)).delivered <= |Execute(s, other).delivered|
    {
      RunDeliversAtLeast(s, other, NOTHING);
    }
    var lazy := LaziestRun(s, actions, s, NOTHING);
  }

  lemma FlusherStays<R>(s: State<R>, a: Action<R>, f: Flusher)
    requires Enabled(s, a) && f in s.flushers
    ensures f in Apply(s, a).flushers && Apply(s, a).flushers[f].mark == s.flushers[f].mark && a != PushFlush(f)
  {
  }

  lemma {:induction false} MarkIsKept<R>(s: State<R>, actions: seq<Action<R>>, f: Flusher)
    requires Legal(s, actions) && f in s.flushers
    ensures f in Execute(s, actions).flushers && Execute(s, actions).flushers[f].mark == s.flushers[f].mark
    ensures PushFlush(f) !in Calls(actions)
    decreases |actions|
  {
    if actions != [] {
      FlusherStays(s, actions[0], f);
      hide Calls, Apply;
      MarkIsKept(Apply(s, actions[0]), actions[1..], f);
      assert actions == [actions[0]] + actions[1..];
      CallsOfStep(actions[0], actions[1..]);
    }
  }

  /** A flusher's marker is the item its call queued. */
  lemma {:induction false} MarkOfFlush<R>(s: State<R>, actions: seq<Action<R>>, f: Flusher, p: nat)
    requires Legal(s, actions) && p < |Calls(actions)| && Calls(actions)[p] == PushFlush(f)
    ensures var s' := Execute(s, actions);
            f in s'.flushers && s'.flushers[f].mark == |s.accepted| + |Queued(Calls(actions)[..p])|
    decreases |actions|
  {
    var a, rest := actions[0], actions[1..];
    assert actions == [a] + rest;
    CallsOfStep(a, rest);
    var s1 := Apply(s, a);
    if a == PushFlush(f) {
      MarkIsKept(s1, rest, f);
      assert p == 0;
    } else if IsCall(a) {
      MarkOfFlush(s1, rest, f, p - 1);
      assert Calls(actions)[..p] == [a] + Calls(rest)[..p - 1];
      QueuedJoin([a], Calls(rest)[..p - 1]);
      QueuedOfOne(a);
      AcceptedByStep(s, a);
    } else {
      MarkOfFlush(s1, rest, f, p);
      AcceptedByStep(s, a);
    }
  }

  lemma QueuedOfOne<R>(a: Action<R>)
    ensures |Queued([a])| == if Queues(a) then 1 else 0
  {
    assert [a][1..] == [];
  }

  lemma AcceptedByStep<R>(s: State<R>, a: Action<R>)
    requires Enabled(s, a)
    ensures |Apply(s, a).accepted| == |s.accepted| + if Queues(a) then 1 else 0
  {
  }

  /**
   * When a flush can be relied on. Its marker and everything queued ahead of it are delivered, whatever the
   * worker did, exactly when after its call some flush returned, then anything was queued, and then some
   * flush returned again. So the flush's own return does not suffice, and a second flush does.
   */
  lemma FlushGuaranteesExactlyAfterSecondReturn<R(!new)>(s: State<R>, actions: seq<Action<R>>, f: Flusher, p: nat)
    requires Start(s) && LooksLike(s, actions, Calls(actions))
    requires p < |Calls(actions)| && Calls(actions)[p] == PushFlush(f)
    ensures var calls := Calls(actions); var mark := |Queued(calls[..p])|;
            && f in Execute(s, actions).flushers && Execute(s, actions).flushers[f].mark == mark
            && (ReturnedTwice(calls, p)
                <==> forall other | LooksLike(s, other, calls) :: mark < |Execute(s, other).delivered|)
  {
    var calls := Calls(actions);
    MarkOfFlush(s, actions, f, p);
    DeliveredAfterSecondReturn(calls, p);
    CertainExactly(s, actions, |Queued(calls[..p])| + 1);
  }

  /**
   * In particular a second flush, called when the first has returned, delivers for both callers. It does so
   * for good, whatever follows, a stop included.
   */
  lemma SecondFlushDelivers<R(!new)>(
      s: State<R>, actions: seq<Action<R>>, f: Flusher, g: Flusher, p: nat, i: nat, j: nat, k: nat,
      more: seq<Action<R>>)
    requires Start(s) && LooksLike(s, actions, Calls(actions)) && p < i < j < k < |Calls(actions)|
    requires Calls(actions)[p] == PushFlush(f) && Calls(actions)[i] == FlushReturns(f)
    requires Calls(actions)[j] == PushFlush(g) && Calls(actions)[k] == FlushReturns(g)
    requires Legal(Execute(s, actions), more)
    ensures var s', later := Execute(s, actions), Execute(Execute(s, actions), more);
            && f in s'.flushers && s'.flushers[f].mark < |s'.delivered| && s'.delivered[s'.flushers[f].mark] == Marker
            && s'.delivered <= later.delivered
  {
    assert Triple(Calls(actions), p, i, j, k);
    FlushGuaranteesExactlyAfterSecondReturn(s, actions, f, p);
    RunKeepsInv(s, actions);
    RunKeepsInv(Execute(s, actions), more);
    hide Execute, Legal, Calls, Queued, ReturnedTwice;
    AcceptedSplits(Execute(s, actions));
  }
}

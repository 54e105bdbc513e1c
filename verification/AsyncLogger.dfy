/**
 * The asynchronous logger (src/system/logger/async_logger2.cxx) as interleaved atomic steps of writers,
 * flushers and the worker thread. Condition variables may wake anyone at any time.
 */
module AsyncLogger {
  import opened Basics

  /** A queued item: a record, or the empty marker a flush queues. */
  datatype Item<R> = Rec(record: R) | Marker

  /** Where the worker is in its loop. */
  datatype WorkerPc = Waiting | Sending | CheckStop | LoopEnd | Exited

  /** A flusher that has queued its marker as the `mark`-th accepted item, or has returned from waiting for it. */
  datatype FlushPc = Pushed(mark: nat) | Returned(mark: nat, stopped: bool)

  type Flusher = nat

  /**
   * `accepted` is everything ever queued, in lock order, and `delivered` everything handed to the sinks;
   * `dropped` is what the worker gave up when it was stopped inside a batch, and `atStop` how much had
   * been delivered when the stop was requested. These four are history, not state of the program.
   */
  datatype State<R> = State(
    queue: seq<Item<R>>,
    batch: seq<Item<R>>,
    worker: WorkerPc,
    stop: bool,
    flushers: map<Flusher, FlushPc>,
    accepted: seq<Item<R>>,
    delivered: seq<Item<R>>,
    dropped: seq<Item<R>>,
    atStop: nat)

  datatype Action<R> =
    | Write(record: Option<R>, level: int, threshold: int)
    | PushFlush(f: Flusher)
    | FlushReturns(f: Flusher)
    | TakeBatch
    | DeliverOne
    | CheckAfterOne
    | CheckLoop
    | RequestStop

  predicate Enabled<R>(s: State<R>, a: Action<R>) {
    match a
    case Write(_, _, _) => true
    case PushFlush(f) => f !in s.flushers
    case FlushReturns(f) => f in s.flushers && s.flushers[f].Pushed? && (s.queue == [] || s.stop)
    case TakeBatch => s.worker.Waiting? && (s.queue != [] || s.stop)
    case DeliverOne => s.worker.Sending? && s.batch != []
    case CheckAfterOne => s.worker.CheckStop?
    case CheckLoop => s.worker.LoopEnd?
    case RequestStop => !s.stop
  }

  function Pushed<R>(s: State<R>, item: Item<R>): State<R> {
    s.(queue := s.queue + [item], accepted := s.accepted + [item])
  }

  function Apply<R>(s: State<R>, a: Action<R>): State<R>
    requires Enabled(s, a)
  {
    match a
    // null records and records below the level never reach the queue
    case Write(record, level, threshold) =>
      if record.None? || level < threshold then s else Pushed(s, Rec(record.value))
    case PushFlush(f) =>
      Pushed(s, Marker).(flushers := s.flushers[f := FlushPc.Pushed(|s.accepted|)])
    case FlushReturns(f) =>
      s.(flushers := s.flushers[f := Returned(s.flushers[f].mark, s.stop)])
    // the whole queue becomes the batch, even an empty one when the wait ended for the stop
    case TakeBatch =>
      s.(queue := [], batch := s.queue, worker := if s.queue == [] then LoopEnd else Sending)
    case DeliverOne =>
      s.(batch := s.batch[1..], delivered := s.delivered + [s.batch[0]], worker := CheckStop)
    case CheckAfterOne =>
      if s.stop then s.(batch := [], dropped := s.batch, worker := LoopEnd)
      else s.(worker := if s.batch == [] then LoopEnd else Sending)
    case CheckLoop => s.(worker := if s.stop then Exited else Waiting)
    case RequestStop => s.(stop := true, atStop := |s.delivered|)
  }

  ghost predicate Start<R>(s: State<R>) {
    s == State([], [], Waiting, false, map[], [], [], [], 0)
  }

  // ---------------------------------------------------------------- the invariant

  /** Nothing is lost, repeated or reordered: delivered, given up, in the batch, still queued. */
  ghost predicate Conserved<R>(s: State<R>) {
    s.accepted == s.delivered + s.dropped + s.batch + s.queue
  }

  /** Items are given up only by a stopped worker on its way out, with nothing left in its batch. */
  ghost predicate DropsOnlyAtStop<R>(s: State<R>) {
    && (s.dropped != [] ==> s.stop && (s.worker.LoopEnd? || s.worker.Exited?))
    && (s.batch != [] ==> s.worker.Sending? || s.worker.CheckStop?)
    && (s.worker.Sending? ==> s.batch != [])
    && (s.worker.Exited? ==> s.stop)
  }

  /** After the stop request at most one more item is delivered. */
  ghost predicate OneAfterStop<R>(s: State<R>) {
    s.stop ==>
      && s.atStop <= |s.delivered| <= s.atStop + 1
      && (s.worker.Waiting? || s.worker.Sending? ==> |s.delivered| == s.atStop)
  }

  /** A flusher waits for its own marker; one that returned before any stop saw it leave the queue. */
  ghost predicate FlushersMatch<R>(s: State<R>) {
    forall f | f in s.flushers ::
      && s.flushers[f].mark < |s.accepted|
      && s.accepted[s.flushers[f].mark] == Marker
      && (s.flushers[f].Returned? && !s.flushers[f].stopped ==>
            s.flushers[f].mark < |s.delivered| + |s.dropped| + |s.batch|)
  }

  ghost predicate Inv<R>(s: State<R>) {
    Conserved(s) && DropsOnlyAtStop(s) && OneAfterStop(s) && FlushersMatch(s)
  }

  lemma StepKeepsConserved<R>(s: State<R>, a: Action<R>)
    requires Conserved(s) && DropsOnlyAtStop(s) && Enabled(s, a)
    ensures Conserved(Apply(s, a))
  {
    if a.DeliverOne? {
      assert s.batch == [s.batch[0]] + s.batch[1..];
    }
  }

  lemma StepKeepsStops<R>(s: State<R>, a: Action<R>)
    requires Inv(s) && Enabled(s, a)
    ensures DropsOnlyAtStop(Apply(s, a)) && OneAfterStop(Apply(s, a))
  {
    hide Conserved, FlushersMatch;
  }

  lemma StepKeepsFlushers<R>(s: State<R>, a: Action<R>)
    requires Inv(s) && Enabled(s, a)
    ensures FlushersMatch(Apply(s, a))
  {
    AcceptedGrows(s, a);
    LeftTheQueue(s, a);
    hide Conserved, DropsOnlyAtStop, OneAfterStop;
    var s' := Apply(s, a);
    forall f | f in s'.flushers
      ensures s'.flushers[f].mark < |s'.accepted| && s'.accepted[s'.flushers[f].mark] == Marker
      ensures s'.flushers[f].Returned? && !s'.flushers[f].stopped ==> s'.flushers[f].mark < Taken(s')
    {
      FlusherChange(s, a, f);
    }
  }

  /** How many items have left the queue. */
  ghost function Taken<R>(s: State<R>): nat {
    |s.delivered| + |s.dropped| + |s.batch|
  }

  lemma AcceptedGrows<R>(s: State<R>, a: Action<R>)
    requires Enabled(s, a)
    ensures s.accepted <= Apply(s, a).accepted
    ensures a.PushFlush? ==> Apply(s, a).accepted == s.accepted + [Marker]
  {
  }

  lemma LeftTheQueue<R>(s: State<R>, a: Action<R>)
    requires Inv(s) && Enabled(s, a)
    ensures Taken(s) <= Taken(Apply(s, a))
    ensures a.FlushReturns? && !s.stop ==> Taken(s) == |s.accepted|
  {
    hide FlushersMatch;
  }

  lemma FlusherChange<R>(s: State<R>, a: Action<R>, f: Flusher)
    requires Enabled(s, a) && f in Apply(s, a).flushers
    ensures var s' := Apply(s, a);
            || (a == PushFlush(f) && s'.flushers[f] == FlushPc.Pushed(|s.accepted|))
            || (a == FlushReturns(f) && f in s.flushers && s'.flushers[f] == Returned(s.flushers[f].mark, s.stop))
            || (f in s.flushers && s'.flushers[f] == s.flushers[f])
  {
  }

  lemma StepKeepsInv<R>(s: State<R>, a: Action<R>)
    requires Inv(s) && Enabled(s, a)
    ensures Inv(Apply(s, a))
  {
    hide Apply, Conserved, DropsOnlyAtStop, OneAfterStop, FlushersMatch;
    StepKeepsConserved(s, a);
    StepKeepsStops(s, a);
    StepKeepsFlushers(s, a);
  }

  // ---------------------------------------------------------------- runs

  predicate Legal<R>(s: State<R>, actions: seq<Action<R>>)
    decreases |actions|
  {
    actions == [] || (Enabled(s, actions[0]) && Legal(Apply(s, actions[0]), actions[1..]))
  }

  function Execute<R>(s: State<R>, actions: seq<Action<R>>): State<R>
    requires Legal(s, actions)
    decreases |actions|
  {
    if actions == [] then s else Execute(Apply(s, actions[0]), actions[1..])
  }

  /** What the writers and flushers of a run queue, in the order in which they get the lock. */
  function Queued<R>(actions: seq<Action<R>>): seq<Item<R>>
    decreases |actions|
  {
    if actions == [] then []
    else
      var rest := Queued(actions[1..]);
      match actions[0]
      case Write(record, level, threshold) =>
        if record.None? || level < threshold then rest else [Rec(record.value)] + rest
      case PushFlush(_) => [Marker] + rest
      case _ => rest
  }

  lemma {:induction false} RunKeepsInv<R>(s: State<R>, actions: seq<Action<R>>)
    requires Inv(s) && Legal(s, actions)
    ensures var s' := Execute(s, actions);
            && Inv(s')
            && s'.accepted == s.accepted + Queued(actions)
            && s.delivered <= s'.delivered
            && (s.stop ==> s'.stop)
    decreases |actions|
  {
    if actions != [] {
      var s1 := Apply(s, actions[0]);
      StepKeepsInv(s, actions[0]);
      RunKeepsInv(s1, actions[1..]);
      StepQueues(s, actions[0], actions[1..]);
    } else {
      assert s.accepted + [] == s.accepted;
    }
  }

  lemma StepQueues<R>(s: State<R>, a: Action<R>, rest: seq<Action<R>>)
    requires Enabled(s, a)
    ensures Apply(s, a).accepted + Queued(rest) == s.accepted + Queued([a] + rest)
    ensures s.delivered <= Apply(s, a).delivered && (s.stop ==> Apply(s, a).stop)
  {
    assert ([a] + rest)[1..] == rest;
  }

  lemma AcceptedSplits<R>(s: State<R>)
    requires Inv(s)
    ensures s.delivered <= s.accepted
    ensures !s.stop ==> s.delivered + s.batch + s.queue == s.accepted
    ensures s.stop ==> |s.delivered| <= s.atStop + 1
  {
    hide FlushersMatch;
    assert s.accepted == s.delivered + (s.dropped + s.batch + s.queue);
    if !s.stop {
      assert s.delivered + [] == s.delivered;
    }
  }

  /**
   * Conservation and order: in every run, until a stop, delivered items, then the worker's batch, then the
   * queue are exactly what was queued, in lock order; after a stop the delivered items are still a prefix
   * of it, and at most one of them was delivered after the request.
   */
  lemma DeliversInOrder<R>(s: State<R>, actions: seq<Action<R>>)
    requires Start(s) && Legal(s, actions)
    ensures var s' := Execute(s, actions);
            && s'.delivered <= Queued(actions)
            && (!s'.stop ==> s'.delivered + s'.batch + s'.queue == Queued(actions))
            && (s'.stop ==> |s'.delivered| <= s'.atStop + 1)
  {
    RunKeepsInv(s, actions);
    hide Execute, Legal, Queued, Inv;
    assert s.accepted + Queued(actions) == Queued(actions);
    AcceptedSplits(Execute(s, actions));
  }

  /**
   * What a flush that returned without a stop guarantees, then and for ever after: everything queued
   * before it, and its own marker, has left the queue; it is delivered or in the batch the worker is
   * delivering, unless a later stop made the worker give the rest of that batch up.
   */
  lemma FlushedItemsLeftTheQueue<R>(s: State<R>, actions: seq<Action<R>>, f: Flusher)
    requires Start(s) && Legal(s, actions)
    requires var s' := Execute(s, actions); f in s'.flushers && s'.flushers[f].Returned? && !s'.flushers[f].stopped
    ensures var s' := Execute(s, actions);
            var mark := s'.flushers[f].mark;
            && mark < |s'.accepted| && s'.accepted[mark] == Marker
            && s'.accepted[..mark + 1] <= s'.delivered + s'.dropped + s'.batch
            && (!s'.stop ==> s'.dropped == [])
  {
    RunKeepsInv(s, actions);
    var s' := Execute(s, actions);
    assert s'.accepted == (s'.delivered + s'.dropped + s'.batch) + s'.queue;
  }

  /** How many items the worker has handed to the sinks in a run. */
  function Deliveries<R>(actions: seq<Action<R>>): nat
    decreases |actions|
  {
    if actions == [] then 0 else (if actions[0].DeliverOne? then 1 else 0) + Deliveries(actions[1..])
  }

  lemma {:induction false} DeliveriesAreDelivered<R>(s: State<R>, actions: seq<Action<R>>)
    requires Legal(s, actions)
    ensures |Execute(s, actions).delivered| == |s.delivered| + Deliveries(actions)
    decreases |actions|
  {
    if actions != [] {
      DeliveriesAreDelivered(Apply(s, actions[0]), actions[1..]);
    }
  }

  /**
   * A flusher's marker and all before it are delivered exactly when the worker has made more deliveries
   * in the whole run than there were items queued ahead of the marker, whether the flush returned or not.
   */
  lemma FlushedMeansDeliveredExactlyPastMarker<R>(s: State<R>, actions: seq<Action<R>>, f: Flusher)
    requires Start(s) && Legal(s, actions) && f in Execute(s, actions).flushers
    ensures var s' := Execute(s, actions); var mark := s'.flushers[f].mark;
            && mark < |s'.accepted|
            && (s'.accepted[..mark + 1] <= s'.delivered <==> mark < Deliveries(actions))
  {
    RunKeepsInv(s, actions);
    DeliveriesAreDelivered(s, actions);
    hide Execute, Legal, Queued, Deliveries;
    AcceptedSplits(Execute(s, actions));
  }

  /**
   * What it does not guarantee: a flush can return while the record written before it, taken out of the
   * queue, has not reached the sinks.
   */
  lemma FlushMayReturnBeforeDelivery<R>(r: R, f: Flusher) returns (s: State<R>, actions: seq<Action<R>>)
    ensures Start(s) && Legal(s, actions)
    ensures var s' := Execute(s, actions);
            && f in s'.flushers && s'.flushers[f] == Returned(1, false) && !s'.stop
            && s'.accepted == [Rec(r), Marker] && s'.delivered == []
  {
    s := State([], [], Waiting, false, map[], [], [], [], 0);
    var a0: Action<R>, a1: Action<R>, a2: Action<R>, a3: Action<R> :=
      Write(Some(r), 0, 0), PushFlush(f), TakeBatch, FlushReturns(f);
    actions := [a0, a1, a2, a3];
    var s1 := Apply(s, a0);
    var s2 := Apply(s1, a1);
    var s3 := Apply(s2, a2);
    assert actions[1..] == [a1, a2, a3] && actions[1..][1..] == [a2, a3];
    assert [a2, a3][1..] == [a3] && [a3][1..] == [];
    var s4 := Apply(s3, a3);
    assert Legal(s4, []) && Execute(s4, []) == s4;
    assert Legal(s3, [a3]) && Execute(s3, [a3]) == s4;
    assert Legal(s2, [a2, a3]) && Execute(s2, [a2, a3]) == s4;
    assert Legal(s1, [a1, a2, a3]) && Execute(s1, [a1, a2, a3]) == s4;
    assert Legal(s, actions) && Execute(s, actions) == s4;
  }

  // ---------------------------------------------------------------- stopping

  predicate ByWorker<R>(a: Action<R>) {
    a.TakeBatch? || a.DeliverOne? || a.CheckAfterOne? || a.CheckLoop?
  }

  /** The steps a stopped worker has before it at most. */
  function StepsToExit(worker: WorkerPc): nat {
    match worker
    case Waiting => 4
    case Sending => 3
    case CheckStop => 2
    case LoopEnd => 1
    case Exited => 0
  }

  function WorkerSteps<R>(actions: seq<Action<R>>): nat
    decreases |actions|
  {
    if actions == [] then 0 else (if ByWorker(actions[0]) then 1 else 0) + WorkerSteps(actions[1..])
  }

  lemma StoppedStep<R>(s: State<R>, a: Action<R>)
    requires Inv(s) && s.stop && Enabled(s, a)
    ensures ByWorker(a) ==> StepsToExit(Apply(s, a).worker) < StepsToExit(s.worker)
    ensures !ByWorker(a) ==> Apply(s, a).worker == s.worker
    ensures Apply(s, a).stop
  {
    hide Conserved, OneAfterStop, FlushersMatch;
  }

  /** A stopped worker is never stuck: as long as it has not exited it has a step to take. */
  lemma StoppedWorkerCanGoOn<R>(s: State<R>) returns (a: Action<R>)
    requires Inv(s) && s.stop && !s.worker.Exited?
    ensures ByWorker(a) && Enabled(s, a)
  {
    hide Conserved, OneAfterStop, FlushersMatch;
    match s.worker
    case Waiting => a := TakeBatch;
    case Sending => a := DeliverOne;
    case CheckStop => a := CheckAfterOne;
    case LoopEnd => a := CheckLoop;
  }

  /**
   * After a stop request the worker takes four steps at most, whatever the writers and flushers go on to
   * queue; and it has taken fewer than that only while it has a step to take.
   */
  lemma {:induction false} StoppedWorkerExits<R>(s: State<R>, actions: seq<Action<R>>)
    requires Inv(s) && s.stop && Legal(s, actions)
    ensures WorkerSteps(actions) + StepsToExit(Execute(s, actions).worker) <= StepsToExit(s.worker) <= 4
    ensures StepsToExit(s.worker) <= WorkerSteps(actions) ==> Execute(s, actions).worker.Exited?
    decreases |actions|
  {
    if actions != [] {
      StepKeepsInv(s, actions[0]);
      StoppedStep(s, actions[0]);
      hide Inv, Apply, Enabled;
      StoppedWorkerExits(Apply(s, actions[0]), actions[1..]);
    }
  }

  /** A record is queued exactly when there is one and its level is not below the logger's; nothing else happens. */
  lemma LevelDecides<R>(s: State<R>, r: R, level: int, threshold: int)
    ensures threshold <= level ==>
              Apply<R>(s, Write(Some(r), level, threshold)).queue == s.queue + [Rec(r)]
    ensures level < threshold ==> Apply<R>(s, Write(Some(r), level, threshold)) == s
    ensures Apply<R>(s, Write(None, level, threshold)) == s
  {
  }
}

/**
 * When the sweep's guard outlives the entry it guards (src/ipc/grpc/session_data.hxx): the guard is
 * destroyed, and writes to its entry, after the sweep has erased it. `SweepDrop` is that step.
 */
module SweepGuards {
  import opened SessionCache
  import opened SessionSweep

  predicate WritesErased<D>(actions: seq<Action<D>>) {
    exists i :: 0 <= i < |actions| && actions[i].SweepDrop?
  }

  /** What a caller can check beforehand: the key is missing, the stale check due, and some unlocked entry stale. */
  ghost predicate SweepWillErase<D>(s: State<D>, key: Key) {
    && key !in s.cookies && s.prevStaleCheck + s.threshold < s.clock
    && exists j :: j in s.cookies && s.cookies[j].refs == 0 && s.cookies[j].touched + s.threshold < s.clock
  }

  ghost predicate Lost<D>(all: map<Key, Entry<D>>, cookies: map<Key, Entry<D>>) {
    exists j :: j in all && j !in cookies
  }

  /** Something has been erased exactly when a guard has written to its erased entry or is about to. */
  ghost predicate LossMatches<D>(s: State<D>, t: Thread, all: map<Key, Entry<D>>, wrote: bool)
    requires t in s.pcs
  {
    Lost(all, s.cookies) <==> wrote || s.pcs[t].Dropping?
  }

  lemma StepKeepsLoss<D>(
      s: State<D>, a: Action<D>, t: Thread, all: map<Key, Entry<D>>, prev: Time, key: Key, now: Time, later: Time,
      wrote: bool)
    requires OnTrack(s, t, all, prev, key, now, later) && Enabled(s, a) && OwnStep(s, a, t, later)
    requires LossMatches(s, t, all, wrote)
    ensures t in Apply(s, a).pcs && LossMatches(Apply(s, a), t, all, wrote || a.SweepDrop?)
  {
    KeysKept(s, a);
    hide NextCookies, NextReaders, NextWriter, PartlySwept, Swept, Gotten;
    if a.SweepJudge? {
      assert s.pcs[t].j in all;
    } else {
      assert Lost(all, Apply(s, a).cookies) <==> Lost(all, s.cookies);
    }
  }

  lemma {:induction false} RunKeepsLoss<D>(
      s: State<D>, actions: seq<Action<D>>, t: Thread, all: map<Key, Entry<D>>, prev: Time, key: Key, now: Time,
      later: Time, wrote: bool)
    requires OnTrack(s, t, all, prev, key, now, later) && Legal(s, actions) && OwnSteps(s, actions, t, later)
    requires LossMatches(s, t, all, wrote)
    ensures t in Execute(s, actions).pcs && LossMatches(Execute(s, actions), t, all, wrote || WritesErased(actions))
    decreases |actions|
  {
    if actions != [] {
      var a, rest := actions[0], actions[1..];
      StepKeepsLoss(s, a, t, all, prev, key, now, later, wrote);
      OwnStepsStayOnTrack(s, [a], t, all, prev, key, now, later);
      assert actions == [a] + rest && [a][1..] == [];
      hide OnTrack, Enabled, OwnStep, Apply, LossMatches;
      RunKeepsLoss(Apply(s, a), rest, t, all, prev, key, now, later, wrote || a.SweepDrop?);
      FirstOrRest(a, rest);
    }
  }

  lemma FirstOrRest<D>(a: Action<D>, rest: seq<Action<D>>)
    ensures WritesErased([a] + rest) <==> a.SweepDrop? || WritesErased(rest)
  {
    if WritesErased(rest) {
      var i :| 0 <= i < |rest| && rest[i].SweepDrop?;
      assert ([a] + rest)[i + 1].SweepDrop?;
    }
    if a.SweepDrop? {
      assert ([a] + rest)[0].SweepDrop?;
    }
  }

  lemma LostByGet<D>(
      all: map<Key, Entry<D>>, prev: Time, blank: D, key: Key, now: Time, later: Time, threshold: Time)
    ensures Lost(all, Gotten(all, prev, blank, key, now, later, threshold))
            <==> key !in all && prev + threshold < now
                 && exists j :: j in all && all[j].refs == 0 && all[j].touched + threshold < now
  {
    var gotten := Gotten(all, prev, blank, key, now, later, threshold);
    forall j | j in all
      ensures j !in gotten
              <==> key !in all && prev + threshold < now && all[j].refs == 0 && all[j].touched + threshold < now
    {
    }
  }

  /**
   * When the guard writes to an erased entry: a call that no other thread disturbs has done so, by the
   * time it returns, exactly when the requested session was missing, the stale check was due, and some
   * unlocked session had been unused for more than the threshold. All three can be read off before the call.
   */
  lemma GuardOutlivesEntryExactlyForStaleSessions<D>(
      s: State<D>, rest: seq<Action<D>>, t: Thread, key: Key, later: Time)
    requires Enabled<D>(s, BeginGet(t, key))
    requires Legal(Apply<D>(s, BeginGet(t, key)), rest) && OwnSteps(Apply<D>(s, BeginGet(t, key)), rest, t, later)
    requires s.clock <= later && (key in s.cookies ==> later == s.clock)
    requires var s' := Execute(Apply<D>(s, BeginGet(t, key)), rest);
             t in s'.pcs && (s'.pcs[t].Holding? || s'.pcs[t].Idle?)
    ensures WritesErased(rest) <==> SweepWillErase(s, key)
  {
    var s1 := Apply<D>(s, BeginGet(t, key));
    RunKeepsLoss(s1, rest, t, s.cookies, s.prevStaleCheck, key, s.clock, later, false);
    UndisturbedCallIsGet(s, rest, t, key, later);
    LostByGet(s.cookies, s.prevStaleCheck, s.blank, key, s.clock, later, s.threshold);
    hide Legal, OwnSteps, Execute, Lost, Gotten;
  }

  // ---------------------------------------------------------------- such calls exist

  /** No other thread has either lock while this one may need one. */
  ghost predicate LocksFree<D>(s: State<D>, t: Thread)
    requires t in s.pcs
  {
    && (s.pcs[t].Finding? || s.pcs[t].FastTouch? ==> s.readers <= {t} && s.writer.None?)
    && (s.pcs[t].Missed? || s.pcs[t].Waiting? ==> s.readers == {} && s.writer.None?)
  }

  function Phase(pc: Pc): nat {
    match pc
    case Finding(_) => 5
    case FastTouch(_) => 4
    case Missed(_) => 4
    case Waiting(_, _) => 3
    case Placing(_) => 1
    case SlowTouch(_) => 0
    case Idle => 0
    case Holding(_) => 0
    case Leaving(_) => 0
    case _ => 2
  }

  /** What is left to do within a phase: the entries to visit, and the steps for the one being visited. */
  function Left(pc: Pc): nat {
    match pc
    case Sweeping(_, _, todo) => 5 * |todo|
    case Judging(_, _, todo, _) => 5 * |todo| + 4
    case Refreshing(_, _, todo, _) => 5 * |todo| + 3
    case Unguarding(_, _, todo, _) => 5 * |todo| + 2
    case Dropping(_, _, todo, _) => 5 * |todo| + 1
    case SlowTouch(_) => 1
    case _ => 0
  }

  ghost predicate Returned(pc: Pc) {
    pc.Holding? || pc.Idle?
  }

  /** Some step of the call that can be taken now. */
  ghost function NextStep<D>(s: State<D>, t: Thread): Action<D>
    requires t in s.pcs && !Returned(s.pcs[t]) && !s.pcs[t].Leaving?
  {
    match s.pcs[t]
    case Finding(_) => FastGet(t)
    case FastTouch(_) => FastTouched(t)
    case Missed(_) => ReadClock(t)
    case Waiting(_, _) => LockExclusive(t)
    case Sweeping(_, _, todo) => if todo == {} then SweepEnd(t) else var j :| j in todo; SweepGuard(t, j)
    case Judging(_, _, _, _) => SweepJudge(t)
    case Refreshing(_, _, _, _) => SweepRefresh(t)
    case Unguarding(_, _, _, _) => SweepUnguard(t)
    case Dropping(_, _, _, _) => SweepDrop(t)
    case Placing(_) => Place(t)
    case SlowTouch(_) => SlowTouched(t)
  }

  lemma NextStepIsReady<D>(s: State<D>, t: Thread, all: map<Key, Entry<D>>, prev: Time, key: Key, now: Time)
    requires OnTrack(s, t, all, prev, key, now, s.clock) && LocksFree(s, t) && !Returned(s.pcs[t])
    ensures !s.pcs[t].Leaving?
    ensures Enabled(s, NextStep(s, t)) && OwnStep(s, NextStep(s, t), t, s.clock)
  {
    hide Swept, Gotten;
    if s.pcs[t].Sweeping? && s.pcs[t].todo != {} {
      TodoIsThere(all, s.cookies, s.pcs[t].todo, NextStep(s, t).j, key, now, s.clock, s.threshold);
    }
  }

  lemma NextStepKeepsLocksFree<D>(s: State<D>, t: Thread)
    requires t in s.pcs && !Returned(s.pcs[t]) && !s.pcs[t].Leaving? && LocksFree(s, t) && Enabled(s, NextStep(s, t))
    ensures var s' := Apply(s, NextStep(s, t)); t in s'.pcs && s'.clock == s.clock && LocksFree(s', t)
  {
    hide NextCookies;
  }

  lemma OneFewer(todo: set<Key>, j: Key)
    requires j in todo
    ensures |todo| == |todo - {j}| + 1
  {
    assert todo == (todo - {j}) + {j};
  }

  predicate Nearer(pc: Pc, pc': Pc) {
    Phase(pc') < Phase(pc) || (Phase(pc') == Phase(pc) && Left(pc') < Left(pc))
  }

  lemma StepBringsNearer<D>(s: State<D>, a: Action<D>, pc: Pc)
    requires !a.Tick? && Ready(s, a, pc) && !a.BeginGet? && !a.Write? && !a.Leave? && !a.Release? && !a.SweepGuard?
    ensures Nearer(pc, NextPc(s, a, pc))
  {
  }

  lemma GuardBringsNearer<D>(s: State<D>, a: Action<D>, pc: Pc)
    requires a.SweepGuard? && Ready(s, a, pc)
    ensures Nearer(pc, NextPc(s, a, pc))
  {
    OneFewer(pc.todo, a.j);
  }

  lemma NextStepAdvances<D>(s: State<D>, t: Thread)
    requires t in s.pcs && !Returned(s.pcs[t]) && !s.pcs[t].Leaving? && Enabled(s, NextStep(s, t))
    ensures t in Apply(s, NextStep(s, t)).pcs && Nearer(s.pcs[t], Apply(s, NextStep(s, t)).pcs[t])
  {
    var a := NextStep(s, t);
    if a.SweepGuard? {
      GuardBringsNearer(s, a, s.pcs[t]);
    } else {
      StepBringsNearer(s, a, s.pcs[t]);
    }
    hide NextPc, NextCookies, NextReaders, NextWriter, Nearer, Ready;
  }

  lemma {:induction false} CallCanGoOn<D>(
      s: State<D>, t: Thread, all: map<Key, Entry<D>>, prev: Time, key: Key, now: Time)
    returns (rest: seq<Action<D>>)
    requires OnTrack(s, t, all, prev, key, now, s.clock) && LocksFree(s, t)
    ensures Legal(s, rest) && OwnSteps(s, rest, t, s.clock)
    ensures t in Execute(s, rest).pcs && Returned(Execute(s, rest).pcs[t])
    decreases Phase(s.pcs[t]), Left(s.pcs[t])
  {
    if Returned(s.pcs[t]) {
      return [];
    }
    NextStepIsReady(s, t, all, prev, key, now);
    NextStepAdvances(s, t);
    NextStepKeepsLocksFree(s, t);
    var a := NextStep(s, t);
    OneOwnStep(s, a, t, s.clock);
    OwnStepsStayOnTrack(s, [a], t, all, prev, key, now, s.clock);
    hide OnTrack, LocksFree, Apply, Enabled, OwnStep, NextStep, Phase, Left;
    var more := CallCanGoOn(Apply(s, a), t, all, prev, key, now);
    rest := [a] + more;
    assert rest[0] == a && rest[1..] == more;
  }

  lemma OneOwnStep<D>(s: State<D>, a: Action<D>, t: Thread, later: Time)
    requires t in s.pcs && Enabled(s, a) && OwnStep(s, a, t, later) && t in Apply(s, a).pcs
    ensures Legal(s, [a]) && OwnSteps(s, [a], t, later) && Execute(s, [a]) == Apply(s, a)
  {
    hide Apply, Enabled, OwnStep;
    assert [a][1..] == [];
  }

  /** A call that finds both locks free can go through and return, in no time. */
  lemma CallCanReturn<D>(s: State<D>, t: Thread, key: Key) returns (rest: seq<Action<D>>)
    requires Enabled<D>(s, BeginGet(t, key)) && s.readers == {} && s.writer.None?
    ensures var s1 := Apply<D>(s, BeginGet(t, key));
            && Legal(s1, rest) && OwnSteps(s1, rest, t, s.clock)
            && t in Execute(s1, rest).pcs && Returned(Execute(s1, rest).pcs[t])
  {
    rest := CallCanGoOn(Apply<D>(s, BeginGet(t, key)), t, s.cookies, s.prevStaleCheck, key, s.clock);
  }

  // ---------------------------------------------------------------- and the write is reached

  lemma {:induction false} RunSplits<D>(s: State<D>, actions: seq<Action<D>>, i: nat)
    requires Legal(s, actions) && i <= |actions|
    ensures Legal(s, actions[..i]) && Legal(Execute(s, actions[..i]), actions[i..])
    decreases i
  {
    hide Apply, Enabled;
    if i == 0 {
      assert actions[0..] == actions;
    } else {
      RunSplits(Apply(s, actions[0]), actions[1..], i - 1);
      assert actions[..i][1..] == actions[1..][..i - 1] && actions[1..][i - 1..] == actions[i..];
    }
  }

  lemma {:induction false} RunJoins<D>(s: State<D>, first: seq<Action<D>>, more: seq<Action<D>>)
    requires Legal(s, first) && Legal(Execute(s, first), more)
    ensures Legal(s, first + more) && Execute(s, first + more) == Execute(Execute(s, first), more)
    decreases |first|
  {
    hide Apply, Enabled;
    if first == [] {
      assert first + more == more;
    } else {
      assert (first + more)[1..] == first[1..] + more;
      RunJoins(Apply(s, first[0]), first[1..], more);
    }
  }

  /** From every state in which the three conditions hold and the locks are free, a call leads to the write. */
  lemma StaleSessionLeadsToWrite<D>(s: State<D>, t: Thread, key: Key) returns (actions: seq<Action<D>>)
    requires Enabled<D>(s, BeginGet(t, key)) && s.readers == {} && s.writer.None? && SweepWillErase(s, key)
    ensures Legal(s, actions) && t in Execute(s, actions).pcs && Execute(s, actions).pcs[t].Dropping?
  {
    var s1 := Apply<D>(s, BeginGet(t, key));
    var rest := CallCanReturn(s, t, key);
    GuardOutlivesEntryExactlyForStaleSessions(s, rest, t, key, s.clock);
    var i :| 0 <= i < |rest| && rest[i].SweepDrop?;
    RunSplits(s1, rest, i);
    OwnStepsAreOwn(s1, rest, t, s.clock, i);
    actions := [BeginGet(t, key)] + rest[..i];
    assert actions[0] == BeginGet(t, key) && actions[1..] == rest[..i];
    assert rest[i..][0] == rest[i];
  }

  lemma {:induction false} OwnStepsAreOwn<D>(s: State<D>, actions: seq<Action<D>>, t: Thread, later: Time, i: nat)
    requires t in s.pcs && Legal(s, actions) && OwnSteps(s, actions, t, later) && i < |actions|
    ensures actions[i].Tick? || actions[i].t == t
    decreases i
  {
    if i > 0 {
      OwnStepsAreOwn(Apply(s, actions[0]), actions[1..], t, later, i - 1);
    }
  }

  lemma BackToIdle<D>(s: State<D>, t: Thread, key: Key, dt: nat) returns (actions: seq<Action<D>>)
    requires t in s.pcs && s.pcs[t] == Holding(key) && s.cookies == map[key := Entry(s.blank, 1, s.clock)]
    ensures Legal(s, actions)
    ensures var s' := Execute(s, actions);
            && s'.clock == s.clock + dt && s'.threshold == s.threshold && s'.prevStaleCheck == s.prevStaleCheck
            && s'.cookies == map[key := Entry(s.blank, 0, s.clock)]
            && s'.pcs == s.pcs[t := Idle] && s'.readers == s.readers && s'.writer == s.writer
  {
    var s1 := Apply<D>(s, Leave(t));
    var s2 := Apply<D>(s1, Release(t));
    var s3 := Apply<D>(s2, Tick(dt));
    OneStep<D>(s, Leave(t));
    OneStep<D>(s1, Release(t));
    OneStep<D>(s2, Tick(dt));
    assert s3.cookies == map[key := Entry(s.blank, 0, s.clock)];
    hide Apply, Enabled, Legal, Execute;
    RunJoins<D>(s1, [Release(t)], [Tick(dt)]);
    RunJoins<D>(s, [Leave(t)], [Release(t)] + [Tick(dt)]);
    actions := [Leave(t)] + ([Release(t)] + [Tick(dt)]);
  }

  lemma OneStep<D>(s: State<D>, a: Action<D>)
    requires Enabled(s, a)
    ensures Legal(s, [a]) && Execute(s, [a]) == Apply(s, a)
  {
    hide Apply, Enabled;
    assert [a][1..] == [];
  }

  /**
   * A program that uses one session, waits, and asks for another gets there: from any start state there is
   * a run of one thread that ends with a guard about to write to the entry it has erased.
   */
  lemma WriteIsReachable<D>(s: State<D>, t: Thread, used: Key, asked: Key) returns (actions: seq<Action<D>>)
    requires Start(s) && t in s.pcs && used != asked
    ensures Legal(s, actions) && t in Execute(s, actions).pcs && Execute(s, actions).pcs[t].Dropping?
  {
    var first := CallCanReturn(s, t, used);
    var s1 := Apply<D>(s, BeginGet(t, used));
    var held := Execute(s1, first);
    UndisturbedCallIsGet(s, first, t, used, s.clock);
    AloneAfterReturn(s, first, t, used);
    assert held.cookies == map[used := Entry(s.blank, 1, s.clock)] by {
      GottenFromNothing(s.prevStaleCheck, s.blank, used, s.clock, s.threshold);
    }
    var waiting := BackToIdle(held, t, used, held.prevStaleCheck + 2 * s.threshold + 1);
    var idle := Execute(held, waiting);
    assert idle.cookies[used].refs == 0 && idle.cookies[used].touched + idle.threshold < idle.clock;
    var last := StaleSessionLeadsToWrite(idle, t, asked);
    assert [BeginGet(t, used)] + first == [BeginGet(t, used)] + first;
    OneStep<D>(s, BeginGet(t, used));
    hide Apply, Enabled, Legal, Execute, Gotten;
    RunJoins(held, waiting, last);
    RunJoins(s1, first, waiting + last);
    RunJoins<D>(s, [BeginGet(t, used)], first + (waiting + last));
    actions := [BeginGet(t, used)] + (first + (waiting + last));
  }

  lemma GottenFromNothing<D>(prev: Time, blank: D, key: Key, now: Time, threshold: Time)
    ensures Gotten(map[], prev, blank, key, now, now, threshold) == map[key := Entry(blank, 1, now)]
  {
  }

  /** The call that has returned holds the session, at the time it began, and neither lock is taken. */
  lemma AloneAfterReturn<D>(s: State<D>, rest: seq<Action<D>>, t: Thread, key: Key)
    requires Start(s) && Enabled<D>(s, BeginGet(t, key))
    requires Legal(Apply<D>(s, BeginGet(t, key)), rest) && OwnSteps(Apply<D>(s, BeginGet(t, key)), rest, t, s.clock)
    requires var s' := Execute(Apply<D>(s, BeginGet(t, key)), rest); t in s'.pcs && Returned(s'.pcs[t])
    ensures var s' := Execute(Apply<D>(s, BeginGet(t, key)), rest);
            && s'.pcs[t] == Holding(key) && s'.clock == s.clock && s'.threshold == s.threshold && s'.blank == s.blank
            && s'.readers == {} && s'.writer.None?
  {
    var s1 := Apply<D>(s, BeginGet(t, key));
    OwnStepsStayOnTrack(s1, rest, t, s.cookies, s.prevStaleCheck, key, s.clock, s.clock);
    StartInv(s);
    StepKeepsInv<D>(s, BeginGet(t, key));
    OthersStayIdle(s1, rest, t, s.clock);
    var s' := Execute(s1, rest);
    hide Execute, Legal, OwnSteps, RefsMatch, TimesMatch, SweepsMatch, Gotten, Apply;
    NobodyHasALock(s');
  }

  lemma NobodyHasALock<D>(s: State<D>)
    requires LocksMatch(s) && forall u | u in s.pcs :: !s.pcs[u].Exclusive() && !s.pcs[u].Shared()
    ensures s.readers == {} && s.writer.None?
  {
  }

  lemma {:induction false} OthersStayIdle<D>(s: State<D>, actions: seq<Action<D>>, t: Thread, later: Time)
    requires Inv(s) && t in s.pcs && Legal(s, actions) && OwnSteps(s, actions, t, later)
    requires forall u | u in s.pcs && u != t :: s.pcs[u].Idle?
    ensures Inv(Execute(s, actions))
    ensures forall u | u in Execute(s, actions).pcs && u != t :: Execute(s, actions).pcs[u].Idle?
    decreases |actions|
  {
    if actions != [] {
      StepKeepsInv(s, actions[0]);
      OnlyOwnPcChanges(s, actions[0], t, later);
      hide Inv, Apply, Enabled, OwnStep;
      OthersStayIdle(Apply(s, actions[0]), actions[1..], t, later);
    }
  }

  lemma OnlyOwnPcChanges<D>(s: State<D>, a: Action<D>, t: Thread, later: Time)
    requires t in s.pcs && Enabled(s, a) && OwnStep(s, a, t, later)
    ensures t in Apply(s, a).pcs && Apply(s, a).pcs.Keys == s.pcs.Keys
    ensures forall u | u in s.pcs && u != t :: Apply(s, a).pcs[u] == s.pcs[u]
  {
    hide NextPc, NextCookies, NextReaders, NextWriter;
  }
}

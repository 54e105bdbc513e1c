/** `SessionData::get` as one uninterrupted call: what its sweep loop leaves behind. */
module SessionSweep {
  import opened SessionCache

  /** The sweep drops exactly the entries that are unlocked, not asked for, and unused for more than the threshold. */
  predicate Survives<D>(cookies: map<Key, Entry<D>>, key: Key, j: Key, now: Time, threshold: Time)
    requires j in cookies
  {
    j == key || cookies[j].refs != 0 || now <= cookies[j].touched + threshold
  }

  /** What a sweep at `now` leaves: the survivors, and of those the unlocked ones were touched by the guard. */
  function Swept<D>(cookies: map<Key, Entry<D>>, key: Key, now: Time, later: Time, threshold: Time): map<Key, Entry<D>>
  {
    map j | j in cookies && Survives(cookies, key, j, now, threshold) ::
      if j == key || cookies[j].refs != 0 then cookies[j] else cookies[j].(touched := later)
  }

  /** The entries when the call does not find the requested one and has run the stale check, if it was due. */
  function Checked<D>(
      cookies: map<Key, Entry<D>>, prev: Time, key: Key, now: Time, later: Time, threshold: Time): map<Key, Entry<D>>
  {
    if prev + threshold < now then Swept(cookies, key, now, later, threshold) else cookies
  }

  /** The entries when the call returns. */
  function Gotten<D>(
      cookies: map<Key, Entry<D>>, prev: Time, blank: D, key: Key, now: Time, later: Time, threshold: Time)
    : map<Key, Entry<D>>
  {
    if key !in cookies then Checked(cookies, prev, key, now, later, threshold)[key := Entry(blank, 1, later)]
    else if cookies[key].refs == 0 then cookies[key := cookies[key].(refs := 1, touched := later)]
    else cookies
  }

  class SessionData<D(==)> {
    const blank: D
    const inactivityThreshold: Time
    var cookies: map<Key, Entry<D>>
    var prevStaleCheck: Time

    constructor (blank: D, inactivityThreshold: Time, now: Time)
      ensures this.blank == blank && this.inactivityThreshold == inactivityThreshold
      ensures cookies == map[] && prevStaleCheck == now
    {
      this.blank, this.inactivityThreshold := blank, inactivityThreshold;
      cookies, prevStaleCheck := map[], now;
    }

    /** Takes the entry for a caller if nobody has it; a refused caller gets an empty reference. */
    method Lock(k: Key, later: Time) returns (granted: bool)
      requires k in cookies
      modifies this`cookies
      ensures granted <==> old(cookies)[k].refs == 0
      ensures cookies == if granted then old(cookies)[k := old(cookies)[k].(refs := 1, touched := later)]
                         else old(cookies)
    {
      if cookies[k].refs != 0 {
        return false;
      }
      cookies := cookies[k := cookies[k].(refs := 1)];
      cookies := cookies[k := cookies[k].(touched := later)];
      return true;
    }

    method Sweep(key: Key, now: Time, later: Time)
      modifies this`cookies
      ensures cookies == Swept(old(cookies), key, now, later, inactivityThreshold)
    {
      var all := cookies;
      var todo := all.Keys;
      while todo != {}
        invariant todo <= all.Keys
        invariant forall j | j in todo :: j in cookies && cookies[j] == all[j]
        invariant forall j | j in all && j !in todo ::
            j in cookies <==> j in Swept(all, key, now, later, inactivityThreshold)
        invariant forall j | j in cookies ::
            j in all && (j !in todo ==> j in Swept(all, key, now, later, inactivityThreshold)
                                        && cookies[j] == Swept(all, key, now, later, inactivityThreshold)[j])
        decreases todo
      {
        var j :| j in todo;
        todo := todo - {j};
        if j != key && cookies[j].refs == 0 {
          cookies := cookies[j := cookies[j].(refs := 1)];
          if cookies[j].touched + inactivityThreshold < now {
            cookies := cookies - {j};
          } else {
            cookies := cookies[j := cookies[j].(touched := later)];
            cookies := cookies[j := cookies[j].(refs := cookies[j].refs - 1)];
          }
        }
      }
    }

    /**
     * The whole call: refused exactly when the session exists and somebody has it; the requested session
     * is there afterwards with its data; a stale check runs only for a missing session and only when due.
     */
    method Get(key: Key, now: Time, later: Time) returns (granted: bool)
      modifies this
      ensures cookies == Gotten(old(cookies), old(prevStaleCheck), blank, key, now, later, inactivityThreshold)
      ensures key in cookies
      ensures granted <==> key !in old(cookies) || old(cookies)[key].refs == 0
      ensures granted ==>
                cookies[key] == Entry(if key in old(cookies) then old(cookies)[key].cookie else blank, 1, later)
      ensures !granted ==> cookies == old(cookies)
      ensures var due := key !in old(cookies) && old(prevStaleCheck) + inactivityThreshold < now;
              && prevStaleCheck == (if due then now else old(prevStaleCheck))
              && cookies - {key} == (if due then Swept(old(cookies), key, now, later, inactivityThreshold)
                                     else old(cookies)) - {key}
      ensures var due := key !in old(cookies) && old(prevStaleCheck) + inactivityThreshold < now;
              forall j | j in old(cookies) && j != key :: var entry := old(cookies)[j];
                && (j in cookies <==> !(due && entry.refs == 0 && entry.touched + inactivityThreshold < now))
                && (j in cookies ==> cookies[j] == if due && entry.refs == 0 then entry.(touched := later) else entry)
    {
      if key in cookies {
        granted := Lock(key, later);
        return;
      }
      if prevStaleCheck + inactivityThreshold < now {
        Sweep(key, now, later);
        prevStaleCheck := now;
      }
      cookies := cookies[key := Entry(blank, 0, later)];
      granted := Lock(key, later);
    }
  }

  // ---------------------------------------------------------------- the interleaved call, left alone

  /** The sweep has dealt with all entries but those in `todo`; `except` is the one it is at. */
  ghost predicate PartlySwept<D>(
      all: map<Key, Entry<D>>, cookies: map<Key, Entry<D>>, todo: set<Key>, except: set<Key>, key: Key,
      now: Time, later: Time, threshold: Time)
  {
    && todo <= all.Keys && todo !! except && cookies.Keys <= all.Keys && key !in all
    && (forall i | i in todo :: i in cookies && cookies[i] == all[i])
    && (forall i | i in all && i !in todo && i !in except ::
          && (i in cookies <==> i in Swept(all, key, now, later, threshold))
          && (i in cookies ==> cookies[i] == Swept(all, key, now, later, threshold)[i]))
  }

  /** How far a call that began on `all` with the last check at `prev` has come. */
  ghost predicate OnTrack<D>(
      s: State<D>, t: Thread, all: map<Key, Entry<D>>, prev: Time, key: Key, now: Time, later: Time)
  {
    && t in s.pcs && now <= later && (key in all ==> later == now)
    && (s.pcs[t].Idle? || s.pcs[t].k == key)
    && (if s.pcs[t].Waiting? then s.clock <= later
        else if s.pcs[t].Finding? || s.pcs[t].FastTouch? || s.pcs[t].Missed? then s.clock == now
        else s.clock == later)
    && (BeforeSweep(s, s.pcs[t], all, prev, key, now) || InSweep(s, s.pcs[t], all, prev, key, now, later)
        || AfterSweep(s, s.pcs[t], all, prev, key, now, later))
  }

  ghost predicate BeforeSweep<D>(
      s: State<D>, pc: Pc, all: map<Key, Entry<D>>, prev: Time, key: Key, now: Time)
  {
    && s.prevStaleCheck == prev
    && match pc
       case Finding(_) => s.cookies == all
       case FastTouch(_) => key in all && all[key].refs == 0 && s.cookies == all[key := all[key].(refs := 1)]
       case Missed(_) => key !in all && s.cookies == all
       case Waiting(_, n) => key !in all && s.cookies == all && n == now
       case _ => false
  }

  ghost predicate InSweep<D>(
      s: State<D>, pc: Pc, all: map<Key, Entry<D>>, prev: Time, key: Key, now: Time, later: Time)
  {
    && s.prevStaleCheck == prev && prev + s.threshold < now
    && match pc
       case Sweeping(_, n, todo) => n == now && PartlySwept(all, s.cookies, todo, {}, key, now, later, s.threshold)
       case Judging(_, n, todo, j) =>
         && n == now && PartlySwept(all, s.cookies, todo, {j}, key, now, later, s.threshold)
         && j in all && all[j].refs == 0 && j in s.cookies && s.cookies[j] == all[j].(refs := 1)
       case Refreshing(_, n, todo, j) =>
         && n == now && PartlySwept(all, s.cookies, todo, {j}, key, now, later, s.threshold)
         && j in all && all[j].refs == 0 && j in s.cookies && s.cookies[j] == all[j].(refs := 1)
         && now <= all[j].touched + s.threshold
       case Unguarding(_, n, todo, j) =>
         && n == now && PartlySwept(all, s.cookies, todo, {j}, key, now, later, s.threshold)
         && j in all && all[j].refs == 0 && j in s.cookies && s.cookies[j] == all[j].(refs := 1, touched := later)
         && now <= all[j].touched + s.threshold
       case Dropping(_, n, todo, j) => n == now && PartlySwept(all, s.cookies, todo, {}, key, now, later, s.threshold)
       case _ => false
  }

  ghost predicate AfterSweep<D>(
      s: State<D>, pc: Pc, all: map<Key, Entry<D>>, prev: Time, key: Key, now: Time, later: Time)
  {
    && s.prevStaleCheck == (if key !in all && prev + s.threshold < now then now else prev)
    && match pc
       case Placing(_) => key !in all && s.cookies == Checked(all, prev, key, now, later, s.threshold)
       case SlowTouch(_) =>
         key !in all && s.cookies == Checked(all, prev, key, now, later, s.threshold)[key := Entry(s.blank, 1, later)]
       case Holding(_) =>
         && s.cookies == Gotten(all, prev, s.blank, key, now, later, s.threshold)
         && (key in all ==> all[key].refs == 0)
       case Idle => key in all && all[key].refs != 0 && s.cookies == all
       case _ => false
  }

  /** The steps of the call itself. Time passes only while it waits for the exclusive lock, up to `later`. */
  ghost predicate OwnStep<D>(s: State<D>, a: Action<D>, t: Thread, later: Time)
    requires t in s.pcs
  {
    if a.Tick? then s.pcs[t].Waiting? && s.clock + a.dt <= later
    else a.t == t && !a.BeginGet? && !a.Write? && !a.Leave? && !a.Release? && (a.LockExclusive? ==> s.clock == later)
  }

  lemma SweepFinished<D>(
      all: map<Key, Entry<D>>, cookies: map<Key, Entry<D>>, key: Key, now: Time, later: Time, threshold: Time)
    requires PartlySwept(all, cookies, {}, {}, key, now, later, threshold)
    ensures cookies == Swept(all, key, now, later, threshold)
  {
  }

  lemma StepBeforeSweep<D>(
      s: State<D>, a: Action<D>, t: Thread, all: map<Key, Entry<D>>, prev: Time, key: Key, now: Time, later: Time)
    requires OnTrack(s, t, all, prev, key, now, later) && Enabled(s, a) && OwnStep(s, a, t, later)
    requires BeforeSweep(s, s.pcs[t], all, prev, key, now)
    ensures OnTrack(Apply(s, a), t, all, prev, key, now, later)
  {
    hide NextReaders, NextWriter;
  }

  lemma EntryRefused<D>(
      all: map<Key, Entry<D>>, cookies: map<Key, Entry<D>>, todo: set<Key>, j: Key, key: Key,
      now: Time, later: Time, threshold: Time)
    requires PartlySwept(all, cookies, todo, {}, key, now, later, threshold) && j in todo && all[j].refs != 0
    ensures PartlySwept(all, cookies, todo - {j}, {}, key, now, later, threshold)
  {
  }

  lemma EntryGuarded<D>(
      all: map<Key, Entry<D>>, cookies: map<Key, Entry<D>>, todo: set<Key>, j: Key, key: Key,
      now: Time, later: Time, threshold: Time)
    requires PartlySwept(all, cookies, todo, {}, key, now, later, threshold) && j in todo
    ensures PartlySwept(all, cookies[j := all[j].(refs := 1)], todo - {j}, {j}, key, now, later, threshold)
    ensures cookies[j] == all[j]
  {
  }

  lemma EntryDropped<D>(
      all: map<Key, Entry<D>>, cookies: map<Key, Entry<D>>, todo: set<Key>, j: Key, key: Key,
      now: Time, later: Time, threshold: Time)
    requires PartlySwept(all, cookies, todo, {j}, key, now, later, threshold)
    requires j in all && all[j].refs == 0 && all[j].touched + threshold < now
    ensures PartlySwept(all, cookies - {j}, todo, {}, key, now, later, threshold)
  {
  }

  lemma EntryTouched<D>(
      all: map<Key, Entry<D>>, cookies: map<Key, Entry<D>>, todo: set<Key>, j: Key, key: Key,
      now: Time, later: Time, threshold: Time, entry: Entry<D>)
    requires PartlySwept(all, cookies, todo, {j}, key, now, later, threshold) && j in all
    ensures PartlySwept(all, cookies[j := entry], todo, {j}, key, now, later, threshold)
  {
  }

  lemma EntryKept<D>(
      all: map<Key, Entry<D>>, cookies: map<Key, Entry<D>>, todo: set<Key>, j: Key, key: Key,
      now: Time, later: Time, threshold: Time)
    requires PartlySwept(all, cookies, todo, {j}, key, now, later, threshold)
    requires j in all && all[j].refs == 0 && now <= all[j].touched + threshold
    ensures PartlySwept(all, cookies[j := all[j].(touched := later)], todo, {}, key, now, later, threshold)
  {
  }

  lemma StepInSweep<D>(
      s: State<D>, a: Action<D>, t: Thread, all: map<Key, Entry<D>>, prev: Time, key: Key, now: Time, later: Time)
    requires OnTrack(s, t, all, prev, key, now, later) && Enabled(s, a) && OwnStep(s, a, t, later)
    requires InSweep(s, s.pcs[t], all, prev, key, now, later)
    ensures OnTrack(Apply(s, a), t, all, prev, key, now, later)
  {
    hide NextReaders, NextWriter, BeforeSweep, PartlySwept, Swept;
    var pc := s.pcs[t];
    match a
    case SweepEnd(_) =>
      KeyIsMissing(all, s.cookies, pc.todo, {}, key, now, later, s.threshold);
      SweepFinished(all, s.cookies, key, now, later, s.threshold);
    case SweepGuard(_, j) =>
      TodoIsThere(all, s.cookies, pc.todo, j, key, now, later, s.threshold);
      if all[j].refs == 0 {
        EntryGuarded(all, s.cookies, pc.todo, j, key, now, later, s.threshold);
      } else {
        EntryRefused(all, s.cookies, pc.todo, j, key, now, later, s.threshold);
      }
    case SweepJudge(_) =>
      if s.Stale(pc.j, pc.now) {
        EntryDropped(all, s.cookies, pc.todo, pc.j, key, now, later, s.threshold);
      }
    case SweepRefresh(_) =>
      EntryTouched(all, s.cookies, pc.todo, pc.j, key, now, later, s.threshold,
                   all[pc.j].(refs := 1, touched := later));
    case SweepUnguard(_) =>
      EntryKept(all, s.cookies, pc.todo, pc.j, key, now, later, s.threshold);
    case SweepDrop(_) =>
  }

  lemma KeyIsMissing<D>(
      all: map<Key, Entry<D>>, cookies: map<Key, Entry<D>>, todo: set<Key>, except: set<Key>, key: Key,
      now: Time, later: Time, threshold: Time)
    requires PartlySwept(all, cookies, todo, except, key, now, later, threshold)
    ensures key !in all
  {
  }

  lemma TodoIsThere<D>(
      all: map<Key, Entry<D>>, cookies: map<Key, Entry<D>>, todo: set<Key>, j: Key, key: Key,
      now: Time, later: Time, threshold: Time)
    requires PartlySwept(all, cookies, todo, {}, key, now, later, threshold) && j in todo
    ensures j in all && j in cookies && cookies[j] == all[j]
  {
  }

  lemma StepAfterSweep<D>(
      s: State<D>, a: Action<D>, t: Thread, all: map<Key, Entry<D>>, prev: Time, key: Key, now: Time, later: Time)
    requires OnTrack(s, t, all, prev, key, now, later) && Enabled(s, a) && OwnStep(s, a, t, later)
    requires AfterSweep(s, s.pcs[t], all, prev, key, now, later)
    ensures OnTrack(Apply(s, a), t, all, prev, key, now, later)
  {
    hide NextReaders, NextWriter, BeforeSweep, InSweep;
  }

  ghost predicate OwnSteps<D>(s: State<D>, actions: seq<Action<D>>, t: Thread, later: Time)
    requires t in s.pcs && Legal(s, actions)
    decreases |actions|
  {
    actions == [] || (OwnStep(s, actions[0], t, later) && t in Apply(s, actions[0]).pcs
                      && OwnSteps(Apply(s, actions[0]), actions[1..], t, later))
  }

  lemma {:induction false} OwnStepsStayOnTrack<D>(
      s: State<D>, actions: seq<Action<D>>, t: Thread, all: map<Key, Entry<D>>, prev: Time, key: Key, now: Time,
      later: Time)
    requires OnTrack(s, t, all, prev, key, now, later) && Legal(s, actions) && OwnSteps(s, actions, t, later)
    ensures OnTrack(Execute(s, actions), t, all, prev, key, now, later)
    ensures Execute(s, actions).threshold == s.threshold && Execute(s, actions).blank == s.blank
    decreases |actions|
  {
    if actions != [] {
      var a := actions[0];
      if BeforeSweep(s, s.pcs[t], all, prev, key, now) {
        StepBeforeSweep(s, a, t, all, prev, key, now, later);
      } else if InSweep(s, s.pcs[t], all, prev, key, now, later) {
        StepInSweep(s, a, t, all, prev, key, now, later);
      } else {
        StepAfterSweep(s, a, t, all, prev, key, now, later);
      }
      ConstantsKept(s, a);
      hide Apply, Enabled, OwnStep, BeforeSweep, InSweep, AfterSweep;
      OwnStepsStayOnTrack(Apply(s, a), actions[1..], t, all, prev, key, now, later);
    }
  }

  /**
   * The interleaved call of one thread that no other thread disturbs, in whatever order its sweep goes
   * through the entries, is the uninterrupted call: when it has come back it holds the session, and the
   * entries are those `Get` leaves, or it was refused, exactly when the session is held, and left all alone.
   * The last stale check is then this call's, exactly when the session was missing and the check due.
   */
  lemma UndisturbedCallIsGet<D>(s: State<D>, rest: seq<Action<D>>, t: Thread, key: Key, later: Time)
    requires Enabled<D>(s, BeginGet(t, key))
    requires Legal(Apply<D>(s, BeginGet(t, key)), rest) && OwnSteps(Apply<D>(s, BeginGet(t, key)), rest, t, later)
    requires s.clock <= later && (key in s.cookies ==> later == s.clock)
    ensures var s' := Execute(Apply<D>(s, BeginGet(t, key)), rest);
            && t in s'.pcs
            && (s'.pcs[t].Holding? || s'.pcs[t].Idle? ==>
                  && s'.cookies == Gotten(s.cookies, s.prevStaleCheck, s.blank, key, s.clock, later, s.threshold)
                  && (s'.pcs[t].Holding? <==> key !in s.cookies || s.cookies[key].refs == 0)
                  && s'.prevStaleCheck == (if key !in s.cookies && s.prevStaleCheck + s.threshold < s.clock
                                           then s.clock else s.prevStaleCheck))
  {
    var s1 := Apply<D>(s, BeginGet(t, key));
    OwnStepsStayOnTrack(s1, rest, t, s.cookies, s.prevStaleCheck, key, s.clock, later);
  }

  /**
   * What that means session by session. Of the others only one that is free and unused for more than the
   * threshold goes, and only in a check that is due; the free ones it leaves count as used when the check
   * ran, and the held ones are not touched. The requested one is held with its own data, or blank.
   */
  lemma UndisturbedCallLeaves<D>(s: State<D>, rest: seq<Action<D>>, t: Thread, key: Key, later: Time, j: Key)
    requires Enabled<D>(s, BeginGet(t, key))
    requires Legal(Apply<D>(s, BeginGet(t, key)), rest) && OwnSteps(Apply<D>(s, BeginGet(t, key)), rest, t, later)
    requires s.clock <= later && (key in s.cookies ==> later == s.clock)
    requires var s' := Execute(Apply<D>(s, BeginGet(t, key)), rest);
             t in s'.pcs && (s'.pcs[t].Holding? || s'.pcs[t].Idle?)
    ensures var s' := Execute(Apply<D>(s, BeginGet(t, key)), rest);
            var due := key !in s.cookies && s.prevStaleCheck + s.threshold < s.clock;
            && (s'.pcs[t].Holding? ==>
                  && key in s'.cookies
                  && s'.cookies[key] == Entry(if key in s.cookies then s.cookies[key].cookie else s.blank, 1, later))
            && (s'.pcs[t].Idle? ==> s'.cookies == s.cookies)
            && (j != key ==>
                  && (j in s'.cookies <==>
                        && j in s.cookies
                        && !(due && s.cookies[j].refs == 0 && s.cookies[j].touched + s.threshold < s.clock))
                  && (j in s'.cookies ==>
                        && s'.cookies[j].cookie == s.cookies[j].cookie && s'.cookies[j].refs == s.cookies[j].refs
                        && s'.cookies[j].touched
                           == if due && s.cookies[j].refs == 0 then later else s.cookies[j].touched))
  {
    UndisturbedCallIsGet(s, rest, t, key, later);
    hide Execute, Legal, OwnSteps, Apply, Enabled;
  }
}

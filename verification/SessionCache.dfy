/**
 * The session cache (src/ipc/grpc/session_data.hxx) as interleaved atomic steps of any number of threads.
 * A thread is one `get` and the use of the reference it returns. Time only moves forward.
 */
module SessionCache {
  import opened Basics

  type Key = nat
  type Thread = nat
  type Time = nat

  datatype Entry<D> = Entry(cookie: D, refs: int, touched: Time)

  /** Where a thread is. `k` is the requested key, `now` the time read before the exclusive lock was taken. */
  datatype Pc =
    | Idle
    | Finding(k: Key)                                        // shared lock held
    | FastTouch(k: Key)                                      // shared lock held, entry just locked
    | Missed(k: Key)
    | Waiting(k: Key, now: Time)
    | Sweeping(k: Key, now: Time, todo: set<Key>)            // exclusive lock held from here ...
    | Judging(k: Key, now: Time, todo: set<Key>, j: Key)     // the sweep's own guard on j
    | Refreshing(k: Key, now: Time, todo: set<Key>, j: Key)
    | Unguarding(k: Key, now: Time, todo: set<Key>, j: Key)
    | Dropping(k: Key, now: Time, todo: set<Key>, j: Key)    // j erased, the guard on it not yet destroyed
    | Placing(k: Key)
    | SlowTouch(k: Key)                                      // ... to here, entry just locked
    | Holding(k: Key)                                        // the caller has the reference
    | Leaving(k: Key)                                        // timestamp written, count not yet dropped
  {
    predicate Shared() {
      Finding? || FastTouch?
    }

    predicate Exclusive() {
      Sweeping? || Judging? || Refreshing? || Unguarding? || Dropping? || Placing? || SlowTouch?
    }

    /** Between the decision to sweep and the end of the sweep. */
    predicate InSweep() {
      Sweeping? || Judging? || Refreshing? || Unguarding? || Dropping?
    }

    /** Locked on behalf of the caller. */
    predicate Caller(key: Key) {
      (FastTouch? || SlowTouch? || Holding? || Leaving?) && k == key
    }

    /** Locked by the sweep. */
    predicate Guard(key: Key) {
      (Judging? || Refreshing? || Unguarding?) && j == key
    }

    predicate Owns(key: Key) {
      Caller(key) || Guard(key)
    }

    /** The key under which the entry was found that the thread's reference, a caller's or the sweep's, points to. */
    predicate PointsTo(key: Key) {
      Owns(key) || (Dropping? && j == key)
    }
  }

  datatype State<D> = State(
    blank: D,
    threshold: Time,
    cookies: map<Key, Entry<D>>,
    readers: set<Thread>,
    writer: Option<Thread>,
    prevStaleCheck: Time,
    pcs: map<Thread, Pc>,
    clock: Time)
  {
    predicate Stale(k: Key, now: Time)
      requires k in cookies
    {
      cookies[k].touched + threshold < now
    }
  }

  datatype Action<D> =
    | BeginGet(t: Thread, k: Key)
    | FastGet(t: Thread)
    | FastTouched(t: Thread)
    | ReadClock(t: Thread)
    | LockExclusive(t: Thread)
    | SweepGuard(t: Thread, j: Key)
    | SweepJudge(t: Thread)
    | SweepRefresh(t: Thread)
    | SweepUnguard(t: Thread)
    | SweepDrop(t: Thread)
    | SweepEnd(t: Thread)
    | Place(t: Thread)
    | SlowTouched(t: Thread)
    | Write(t: Thread, d: D)
    | Leave(t: Thread)
    | Release(t: Thread)
    | Tick(dt: Time)

  predicate Enabled<D>(s: State<D>, a: Action<D>) {
    a.Tick? || (a.t in s.pcs && Ready(s, a, s.pcs[a.t]))
  }

  predicate Ready<D>(s: State<D>, a: Action<D>, pc: Pc)
    requires !a.Tick?
  {
    match a
    case BeginGet(_, _) => pc.Idle? && s.writer.None?
    case FastGet(_) => pc.Finding?
    case FastTouched(_) => pc.FastTouch? && pc.k in s.cookies
    case ReadClock(_) => pc.Missed?
    case LockExclusive(_) => pc.Waiting? && s.writer.None? && s.readers == {}
    case SweepGuard(_, j) => pc.Sweeping? && j in pc.todo && j in s.cookies
    case SweepJudge(_) => pc.Judging? && pc.j in s.cookies
    case SweepRefresh(_) => pc.Refreshing? && pc.j in s.cookies
    case SweepUnguard(_) => pc.Unguarding? && pc.j in s.cookies
    case SweepDrop(_) => pc.Dropping?
    case SweepEnd(_) => pc.Sweeping? && pc.todo == {}
    case Place(_) => pc.Placing?
    case SlowTouched(_) => pc.SlowTouch? && pc.k in s.cookies
    case Write(_, _) => pc.Holding? && pc.k in s.cookies
    case Leave(_) => pc.Holding? && pc.k in s.cookies
    case Release(_) => pc.Leaving? && pc.k in s.cookies
  }

  /** Where the step takes its thread. */
  function NextPc<D>(s: State<D>, a: Action<D>, pc: Pc): Pc
    requires !a.Tick? && Ready(s, a, pc)
  {
    match a
    case BeginGet(_, k) => Finding(k)
    case FastGet(_) =>
      if pc.k !in s.cookies then Missed(pc.k) else if s.cookies[pc.k].refs == 0 then FastTouch(pc.k) else Idle
    case FastTouched(_) => Holding(pc.k)
    case ReadClock(_) => Waiting(pc.k, s.clock)
    case LockExclusive(_) =>
      if s.prevStaleCheck + s.threshold < pc.now
      then Sweeping(pc.k, pc.now, s.cookies.Keys - {pc.k}) else Placing(pc.k)
    case SweepGuard(_, j) =>
      if s.cookies[j].refs == 0
      then Judging(pc.k, pc.now, pc.todo - {j}, j) else Sweeping(pc.k, pc.now, pc.todo - {j})
    case SweepJudge(_) =>
      if s.Stale(pc.j, pc.now)
      then Dropping(pc.k, pc.now, pc.todo, pc.j) else Refreshing(pc.k, pc.now, pc.todo, pc.j)
    case SweepRefresh(_) => Unguarding(pc.k, pc.now, pc.todo, pc.j)
    case SweepUnguard(_) => Sweeping(pc.k, pc.now, pc.todo)
    // the guard's destructor writes to the erased entry, of which nothing is left to model
    case SweepDrop(_) => Sweeping(pc.k, pc.now, pc.todo)
    case SweepEnd(_) => Placing(pc.k)
    case Place(_) =>
      if pc.k !in s.cookies || s.cookies[pc.k].refs == 0 then SlowTouch(pc.k) else Idle
    case SlowTouched(_) => Holding(pc.k)
    case Write(_, _) => pc
    case Leave(_) => Leaving(pc.k)
    case Release(_) => Idle
  }

  /** What the step does to the entries: compare-and-swap, touch, insert, erase, write, count down. */
  function NextCookies<D>(s: State<D>, a: Action<D>, pc: Pc): map<Key, Entry<D>>
    requires !a.Tick? && Ready(s, a, pc)
  {
    match a
    case FastGet(_) =>
      if pc.k in s.cookies && s.cookies[pc.k].refs == 0 then s.cookies[pc.k := s.cookies[pc.k].(refs := 1)]
      else s.cookies
    case FastTouched(_) => s.cookies[pc.k := s.cookies[pc.k].(touched := s.clock)]
    case SweepGuard(_, j) =>
      if s.cookies[j].refs == 0 then s.cookies[j := s.cookies[j].(refs := 1)] else s.cookies
    case SweepJudge(_) => if s.Stale(pc.j, pc.now) then s.cookies - {pc.j} else s.cookies
    case SweepRefresh(_) => s.cookies[pc.j := s.cookies[pc.j].(touched := s.clock)]
    case SweepUnguard(_) => s.cookies[pc.j := s.cookies[pc.j].(refs := s.cookies[pc.j].refs - 1)]
    case Place(_) =>
      if pc.k !in s.cookies then s.cookies[pc.k := Entry(s.blank, 1, s.clock)]
      else if s.cookies[pc.k].refs == 0 then s.cookies[pc.k := s.cookies[pc.k].(refs := 1)]
      else s.cookies
    case SlowTouched(_) => s.cookies[pc.k := s.cookies[pc.k].(touched := s.clock)]
    case Write(_, d) => s.cookies[pc.k := s.cookies[pc.k].(cookie := d)]
    case Leave(_) => s.cookies[pc.k := s.cookies[pc.k].(touched := s.clock)]
    case Release(_) => s.cookies[pc.k := s.cookies[pc.k].(refs := s.cookies[pc.k].refs - 1)]
    case _ => s.cookies
  }

  /** The shared lock is let go with the fast path's answer. */
  function NextReaders<D>(s: State<D>, a: Action<D>, pc: Pc): set<Thread>
    requires !a.Tick? && Ready(s, a, pc)
  {
    match a
    case BeginGet(t, _) => s.readers + {t}
    case FastGet(t) =>
      if pc.k in s.cookies && s.cookies[pc.k].refs == 0 then s.readers else s.readers - {t}
    case FastTouched(t) => s.readers - {t}
    case _ => s.readers
  }

  /** The exclusive lock is let go with the slow path's answer. */
  function NextWriter<D>(s: State<D>, a: Action<D>, pc: Pc): Option<Thread>
    requires !a.Tick? && Ready(s, a, pc)
  {
    match a
    case LockExclusive(t) => Some(t)
    case Place(_) => if pc.k in s.cookies && s.cookies[pc.k].refs != 0 then None else s.writer
    case SlowTouched(_) => None
    case _ => s.writer
  }

  function Apply<D>(s: State<D>, a: Action<D>): State<D>
    requires Enabled(s, a)
  {
    if a.Tick? then s.(clock := s.clock + a.dt)
    else
      var pc := s.pcs[a.t];
      State(s.blank, s.threshold, NextCookies(s, a, pc), NextReaders(s, a, pc), NextWriter(s, a, pc),
            if a.SweepEnd? then pc.now else s.prevStaleCheck, s.pcs[a.t := NextPc(s, a, pc)], s.clock)
  }

  // ---------------------------------------------------------------- the invariant

  ghost predicate Owner<D>(s: State<D>, t: Thread, k: Key) {
    t in s.pcs && s.pcs[t].Owns(k)
  }

  ghost predicate Owned<D>(s: State<D>, k: Key) {
    exists t :: Owner(s, t, k)
  }

  ghost predicate LocksMatch<D>(s: State<D>) {
    && (forall t :: t in s.readers <==> t in s.pcs && s.pcs[t].Shared())
    && (forall t | t in s.pcs :: s.pcs[t].Exclusive() <==> s.writer == Some(t))
    && (s.writer.Some? ==> s.writer.value in s.pcs && s.readers == {})
  }

  /** `refs` is 1 exactly for the entries some thread has locked, and one thread at most has. */
  ghost predicate RefsMatch<D>(s: State<D>) {
    && (forall t, k | Owner(s, t, k) :: k in s.cookies && s.cookies[k].refs == 1)
    && (forall t, u, k | Owner(s, t, k) && Owner(s, u, k) :: t == u)
    && (forall k | k in s.cookies :: s.cookies[k].refs == if Owned(s, k) then 1 else 0)
  }

  ghost predicate TimesMatch<D>(s: State<D>) {
    && (forall t | t in s.pcs && (s.pcs[t].Waiting? || s.pcs[t].InSweep()) :: s.pcs[t].now <= s.clock)
    && (forall k | k in s.cookies :: s.cookies[k].touched <= s.clock)
  }

  /** The sweep never turns to the requested key, and what is left to visit is still there. */
  ghost predicate SweepsMatch<D>(s: State<D>) {
    (forall t | t in s.pcs :: SweepOk(s.cookies.Keys, s.pcs[t])) && DroppedGone(s)
  }

  ghost predicate SweepOk(there: set<Key>, pc: Pc) {
    && (pc.InSweep() ==> pc.k !in pc.todo && pc.todo <= there)
    && (pc.Judging? || pc.Refreshing? || pc.Unguarding? ==> pc.j != pc.k && pc.j !in pc.todo)
  }

  ghost predicate DroppedGone<D>(s: State<D>) {
    forall t | t in s.pcs && s.pcs[t].Dropping? :: s.pcs[t].j != s.pcs[t].k && s.pcs[t].j !in s.cookies
  }

  ghost predicate Inv<D>(s: State<D>) {
    LocksMatch(s) && RefsMatch(s) && TimesMatch(s) && SweepsMatch(s)
  }

  ghost predicate Start<D>(s: State<D>) {
    && s.cookies == map[] && s.readers == {} && s.writer == None
    && (forall t | t in s.pcs :: s.pcs[t] == Idle)
  }

  lemma StartInv<D>(s: State<D>)
    requires Start(s)
    ensures Inv(s)
  {
  }

  lemma LocksKept<D>(s: State<D>, a: Action<D>)
    requires Inv(s) && Enabled(s, a)
    ensures LocksMatch(Apply(s, a))
  {
    hide RefsMatch, TimesMatch, SweepsMatch, NextCookies;
    if !a.Tick? && s.writer.Some? {
      assert s.pcs[s.writer.value].Exclusive();
    }
  }

  lemma TimesKept<D>(s: State<D>, a: Action<D>)
    requires Inv(s) && Enabled(s, a)
    ensures TimesMatch(Apply(s, a))
  {
    hide RefsMatch, LocksMatch, SweepsMatch, NextReaders, NextWriter;
  }

  /** Only the thread that judges an entry erases it, and only one past its sweep inserts one, for itself. */
  lemma KeysKept<D>(s: State<D>, a: Action<D>)
    requires Enabled(s, a)
    ensures s.cookies.Keys - (if a.SweepJudge? then {s.pcs[a.t].j} else {}) <= Apply(s, a).cookies.Keys
    ensures Apply(s, a).cookies.Keys <= s.cookies.Keys + (if a.Place? then {s.pcs[a.t].k} else {})
    ensures a.SweepJudge? && s.Stale(s.pcs[a.t].j, s.pcs[a.t].now) ==> s.pcs[a.t].j !in Apply(s, a).cookies
  {
    hide NextPc, NextReaders, NextWriter;
  }

  lemma DroppedKept<D>(s: State<D>, a: Action<D>)
    requires LocksMatch(s) && SweepsMatch(s) && Enabled(s, a)
    ensures DroppedGone(Apply(s, a))
  {
    KeysKept(s, a);
    hide NextCookies, NextReaders, NextWriter;
    if a.Place? {
      assert s.pcs[a.t].Exclusive();
    }
  }

  lemma SweepGoesOn<D>(s: State<D>, a: Action<D>)
    requires Enabled(s, a) && !a.Tick? && SweepOk(s.cookies.Keys, s.pcs[a.t])
    ensures SweepOk(Apply(s, a).cookies.Keys, Apply(s, a).pcs[a.t])
  {
    KeysKept(s, a);
    hide NextCookies, NextReaders, NextWriter;
  }

  lemma OtherSweepUndisturbed<D>(s: State<D>, a: Action<D>, u: Thread)
    requires LocksMatch(s) && Enabled(s, a) && u in s.pcs && SweepOk(s.cookies.Keys, s.pcs[u]) && (a.Tick? || u != a.t)
    ensures u in Apply(s, a).pcs && SweepOk(Apply(s, a).cookies.Keys, Apply(s, a).pcs[u])
  {
    KeysKept(s, a);
    hide NextPc, NextCookies, NextReaders, NextWriter;
    if a.SweepJudge? {
      assert s.pcs[a.t].Exclusive();
    }
  }

  lemma SweepsKept<D>(s: State<D>, a: Action<D>)
    requires Inv(s) && Enabled(s, a)
    ensures SweepsMatch(Apply(s, a))
  {
    DroppedKept(s, a);
    hide RefsMatch, TimesMatch, LocksMatch, NextPc, NextCookies, NextReaders, NextWriter, DroppedGone, SweepOk;
    forall u | u in Apply(s, a).pcs
      ensures SweepOk(Apply(s, a).cookies.Keys, Apply(s, a).pcs[u])
    {
      if a.Tick? || u != a.t {
        OtherSweepUndisturbed(s, a, u);
      } else {
        SweepGoesOn(s, a);
      }
    }
  }

  /** No thread but `t` changes what it owns. */
  lemma OwnersOf<D>(s: State<D>, a: Action<D>, u: Thread, k: Key)
    requires Enabled(s, a)
    ensures a.Tick? || u != a.t ==> (Owner(Apply(s, a), u, k) <==> Owner(s, u, k))
  {
    hide NextPc, NextCookies, NextReaders, NextWriter;
  }

  /** The thread of the step owns, after it, what it owned before, or what the step locked. */
  ghost function NewlyOwned<D>(s: State<D>, a: Action<D>): Option<Key>
    requires Enabled(s, a)
  {
    if (a.FastGet? || a.Place?) && s.pcs[a.t].k in s.cookies && s.cookies[s.pcs[a.t].k].refs == 0
    then Some(s.pcs[a.t].k)
    else if a.Place? && s.pcs[a.t].k !in s.cookies then Some(s.pcs[a.t].k)
    else if a.SweepGuard? && s.cookies[a.j].refs == 0 then Some(a.j)
    else None
  }

  ghost function NoLongerOwned<D>(s: State<D>, a: Action<D>): Option<Key>
    requires Enabled(s, a)
  {
    if a.Release? then Some(s.pcs[a.t].k)
    else if a.SweepUnguard? || (a.SweepJudge? && s.Stale(s.pcs[a.t].j, s.pcs[a.t].now)) then Some(s.pcs[a.t].j)
    else None
  }

  lemma OwnershipChange<D>(s: State<D>, a: Action<D>, k: Key)
    requires Enabled(s, a) && !a.Tick?
    ensures Owner(Apply(s, a), a.t, k) <==>
            NewlyOwned(s, a) == Some(k) || (Owner(s, a.t, k) && NoLongerOwned(s, a) != Some(k))
  {
    hide NextCookies, NextReaders, NextWriter;
  }

  lemma RefsChange<D>(s: State<D>, a: Action<D>, k: Key)
    requires Enabled(s, a)
    ensures var s' := Apply(s, a);
            && (NewlyOwned(s, a) == Some(k) ==> k in s'.cookies && s'.cookies[k].refs == 1)
            && (NewlyOwned(s, a) == Some(k) ==> k !in s.cookies || s.cookies[k].refs == 0)
            && (NoLongerOwned(s, a) == Some(k) && k in s'.cookies ==> s'.cookies[k].refs == s.cookies[k].refs - 1)
            && (NewlyOwned(s, a) != Some(k) && NoLongerOwned(s, a) != Some(k) ==>
                  (k in s'.cookies <==> k in s.cookies) && (k in s.cookies ==> s'.cookies[k].refs == s.cookies[k].refs))
  {
    hide NextPc, NextReaders, NextWriter;
  }

  lemma RefsKept<D>(s: State<D>, a: Action<D>)
    requires RefsMatch(s) && Enabled(s, a)
    ensures RefsMatch(Apply(s, a))
  {
    hide Apply;
    var s' := Apply(s, a);
    forall t, k
      ensures Owner(s', t, k) ==> k in s'.cookies && s'.cookies[k].refs == 1
      ensures Owner(s', t, k) && !a.Tick? && t != a.t ==> NewlyOwned(s, a) != Some(k) && NoLongerOwned(s, a) != Some(k)
    {
      OwnersOf(s, a, t, k);
      RefsChange(s, a, k);
      if !a.Tick? {
        OwnershipChange(s, a, k);
        assert NoLongerOwned(s, a) == Some(k) ==> Owner(s, a.t, k);
      }
    }
    forall t, u, k | Owner(s', t, k) && Owner(s', u, k)
      ensures t == u
    {
      OwnersOf(s, a, t, k);
      OwnersOf(s, a, u, k);
      if !a.Tick? {
        OwnershipChange(s, a, k);
      }
    }
    forall k | k in s'.cookies
      ensures s'.cookies[k].refs == if Owned(s', k) then 1 else 0
    {
      UnownedKept(s, a, k);
    }
  }

  lemma UnownedKept<D>(s: State<D>, a: Action<D>, k: Key)
    requires RefsMatch(s) && Enabled(s, a) && k in Apply(s, a).cookies
    requires forall t | Owner(Apply(s, a), t, k) :: Apply(s, a).cookies[k].refs == 1
    ensures Apply(s, a).cookies[k].refs == if Owned(Apply(s, a), k) then 1 else 0
  {
    hide Apply;
    var s' := Apply(s, a);
    RefsChange(s, a, k);
    if !Owned(s', k) {
      if !a.Tick? {
        OwnershipChange(s, a, k);
        assert !Owner(s', a.t, k);
        if NoLongerOwned(s, a) == Some(k) {
          assert Owner(s, a.t, k);
        }
      }
      if k in s.cookies && Owned(s, k) && NoLongerOwned(s, a) != Some(k) {
        var t :| Owner(s, t, k);
        OwnersOf(s, a, t, k);
      }
    }
  }

  /** Every step of every thread keeps the invariant. */
  lemma StepKeepsInv<D>(s: State<D>, a: Action<D>)
    requires Inv(s) && Enabled(s, a)
    ensures Inv(Apply(s, a))
  {
    hide Apply, LocksMatch, RefsMatch, TimesMatch, SweepsMatch;
    LocksKept(s, a);
    RefsKept(s, a);
    TimesKept(s, a);
    SweepsKept(s, a);
  }

  // ---------------------------------------------------------------- the plain map it refines

  /** Who holds which session, what is in it, and when a caller last used it. */
  datatype Plain<D> = Plain(data: map<Key, D>, holder: map<Key, Thread>, lastUse: map<Key, Time>, clock: Time)

  datatype Event<D> =
    | Stutter
    | Create(t: Thread, k: Key)
    | Acquire(t: Thread, k: Key)
    | Refuse(k: Key)
    | Use(t: Thread, k: Key)
    | Put(t: Thread, k: Key, d: D)
    | GiveBack(t: Thread, k: Key)
    | Expire(k: Key)
    | Pass(dt: Time)

  /** Only the holder writes, only a held session is refused, only an unused and unheld one expires. */
  ghost predicate Allowed<D>(m: Plain<D>, e: Event<D>, threshold: Time) {
    match e
    case Stutter => true
    case Create(t, k) => k !in m.data && k !in m.holder
    case Acquire(t, k) => k in m.data && k !in m.holder
    case Refuse(k) => k in m.holder
    case Use(t, k) => k in m.holder && m.holder[k] == t
    case Put(t, k, d) => k in m.holder && m.holder[k] == t
    case GiveBack(t, k) => k in m.holder && m.holder[k] == t
    case Expire(k) => k in m.data && k !in m.holder && k in m.lastUse && m.lastUse[k] + threshold < m.clock
    case Pass(dt) => true
  }

  ghost function After<D>(m: Plain<D>, e: Event<D>, blank: D): Plain<D> {
    match e
    case Stutter => m
    case Create(t, k) =>
      m.(data := m.data[k := blank], holder := m.holder[k := t], lastUse := m.lastUse[k := m.clock])
    case Acquire(t, k) => m.(holder := m.holder[k := t])
    case Refuse(k) => m
    case Use(t, k) => m.(lastUse := m.lastUse[k := m.clock])
    case Put(t, k, d) => m.(data := m.data[k := d])
    case GiveBack(t, k) => m.(holder := m.holder - {k})
    case Expire(k) => m.(data := m.data - {k}, lastUse := m.lastUse - {k})
    case Pass(dt) => m.(clock := m.clock + dt)
  }

  /** What a step of the cache means for the plain map. */
  ghost function Meaning<D>(s: State<D>, a: Action<D>): Event<D>
    requires Enabled(s, a)
  {
    match a
    case Tick(dt) => Pass(dt)
    case FastGet(t) =>
      var k := s.pcs[t].k;
      if k !in s.cookies then Stutter else if s.cookies[k].refs == 0 then Acquire(t, k) else Refuse(k)
    case Place(t) =>
      var k := s.pcs[t].k;
      if k !in s.cookies then Create(t, k) else if s.cookies[k].refs == 0 then Acquire(t, k) else Refuse(k)
    case FastTouched(t) => Use(t, s.pcs[t].k)
    case SlowTouched(t) => Use(t, s.pcs[t].k)
    case Leave(t) => Use(t, s.pcs[t].k)
    case Write(t, d) => Put(t, s.pcs[t].k, d)
    case Release(t) => GiveBack(t, s.pcs[t].k)
    case SweepJudge(t) => if s.Stale(s.pcs[t].j, s.pcs[t].now) then Expire(s.pcs[t].j) else Stutter
    case _ => Stutter
  }

  ghost predicate CallerOf<D>(s: State<D>, t: Thread, k: Key) {
    t in s.pcs && s.pcs[t].Caller(k)
  }

  ghost predicate SameData<D>(s: State<D>, m: Plain<D>) {
    && m.data.Keys == s.cookies.Keys && m.lastUse.Keys == s.cookies.Keys && m.clock == s.clock
    && (forall k | k in s.cookies :: m.data[k] == s.cookies[k].cookie && m.lastUse[k] <= s.cookies[k].touched)
  }

  ghost predicate SameHolders<D>(s: State<D>, m: Plain<D>) {
    && (forall k | k in m.holder :: CallerOf(s, m.holder[k], k))
    && (forall t, k | CallerOf(s, t, k) :: k in m.holder && m.holder[k] == t)
  }

  /** The cache, its locks, counts and guards forgotten, is the plain map. */
  ghost predicate Refines<D>(s: State<D>, m: Plain<D>) {
    SameData(s, m) && SameHolders(s, m)
  }

  /** A thread finds an entry locked only when some caller holds it: the sweep's guards are never met. */
  lemma RefusedOnlyByCaller<D>(s: State<D>, m: Plain<D>, a: Action<D>, k: Key)
    requires Inv(s) && Refines(s, m) && Enabled(s, a) && (a.FastGet? || a.Place?)
    requires s.pcs[a.t].k == k && k in s.cookies && s.cookies[k].refs != 0
    ensures k in m.holder
  {
    hide TimesMatch, SweepsMatch, SameData;
    assert Owned(s, k);
    var t :| Owner(s, t, k);
    if s.pcs[t].Guard(k) {
      assert false;
    }
    assert CallerOf(s, t, k);
  }

  /** So a get is refused, on either path, exactly when some caller holds the session. */
  lemma RefusedExactlyWhenHeld<D>(s: State<D>, m: Plain<D>, a: Action<D>)
    requires Inv(s) && Refines(s, m) && Enabled(s, a) && (a.FastGet? || a.Place?)
    ensures Apply(s, a).pcs[a.t].Idle? <==> s.pcs[a.t].k in s.cookies && s.pcs[a.t].k in m.holder
  {
    var k := s.pcs[a.t].k;
    if k in s.cookies && s.cookies[k].refs != 0 {
      RefusedOnlyByCaller(s, m, a, k);
    } else {
      UnlockedIsUnheld(s, m, k);
    }
    hide Inv, Refines, NextCookies, NextReaders, NextWriter;
  }

  /**
   * A second get of a session somebody holds comes back with an empty reference, whenever it is made: two
   * overlapping requests of one client are enough. Nothing else has changed by then.
   */
  lemma OverlappingGetIsRefused<D>(s: State<D>, t: Thread, u: Thread, k: Key)
    requires Inv(s) && t in s.pcs && s.pcs[t] == Holding(k) && u in s.pcs && s.pcs[u] == Idle && s.writer.None?
    ensures Enabled<D>(s, BeginGet(u, k)) && Enabled<D>(Apply<D>(s, BeginGet(u, k)), FastGet(u))
    ensures var s' := Apply<D>(Apply<D>(s, BeginGet(u, k)), FastGet(u));
            s'.pcs == s.pcs && s'.cookies == s.cookies && s'.readers == s.readers && s'.writer == s.writer
  {
    assert Owner(s, t, k);
    assert u !in s.readers;
    hide TimesMatch, SweepsMatch;
    var s1 := Apply<D>(s, BeginGet(u, k));
    assert Apply<D>(s1, FastGet(u)).pcs == s.pcs;
  }

  lemma UnlockedIsUnheld<D>(s: State<D>, m: Plain<D>, k: Key)
    requires RefsMatch(s) && SameHolders(s, m)
    requires k !in s.cookies || s.cookies[k].refs == 0
    ensures k !in m.holder
  {
    if k in m.holder {
      assert Owner(s, m.holder[k], k);
    }
  }

  lemma GuardedIsUnheld<D>(s: State<D>, m: Plain<D>, t: Thread, k: Key)
    requires RefsMatch(s) && SameHolders(s, m) && t in s.pcs && s.pcs[t].Guard(k)
    ensures k !in m.holder
  {
    if k in m.holder {
      assert Owner(s, t, k) && Owner(s, m.holder[k], k);
    }
  }

  lemma MeaningIsAllowed<D>(s: State<D>, a: Action<D>, m: Plain<D>)
    requires Inv(s) && Enabled(s, a) && Refines(s, m)
    ensures Allowed(m, Meaning(s, a), s.threshold)
  {
    hide LocksMatch, RefsMatch, SweepsMatch;
    match a
    case Tick(_) =>
    case FastGet(t) =>
      var k := s.pcs[t].k;
      if k in s.cookies && s.cookies[k].refs != 0 {
        RefusedOnlyByCaller(s, m, a, k);
      } else {
        UnlockedIsUnheld(s, m, k);
      }
    case Place(t) =>
      var k := s.pcs[t].k;
      if k in s.cookies && s.cookies[k].refs != 0 {
        RefusedOnlyByCaller(s, m, a, k);
      } else {
        UnlockedIsUnheld(s, m, k);
      }
    case SweepJudge(t) =>
      GuardedIsUnheld(s, m, t, s.pcs[t].j);
    case FastTouched(t) => assert CallerOf(s, t, s.pcs[t].k);
    case SlowTouched(t) => assert CallerOf(s, t, s.pcs[t].k);
    case Leave(t) => assert CallerOf(s, t, s.pcs[t].k);
    case Write(t, _) => assert CallerOf(s, t, s.pcs[t].k);
    case Release(t) => assert CallerOf(s, t, s.pcs[t].k);
    case _ =>
  }

  ghost predicate TimesNotAhead<D>(s: State<D>) {
    forall k | k in s.cookies :: s.cookies[k].touched <= s.clock
  }

  lemma TimesAreNotAhead<D>(s: State<D>)
    requires TimesMatch(s)
    ensures TimesNotAhead(s)
  {
  }

  /** The entry of `k` before and after an event, as far as the plain map knows it. */
  ghost predicate EntryFollows<D>(s: State<D>, s': State<D>, e: Event<D>, k: Key) {
    && (k in s'.cookies <==> ((e.Create? && e.k == k) || (k in s.cookies && e != Expire(k))))
    && (k in s'.cookies ==>
          && s'.cookies[k].cookie == (if e.Create? && e.k == k then s.blank
                                      else if e.Put? && e.k == k then e.d
                                      else s.cookies[k].cookie)
          && (if (e.Create? || e.Use?) && e.k == k then s.clock else s.cookies[k].touched) <= s'.cookies[k].touched)
  }

  lemma EntriesFollowEvent<D>(s: State<D>, a: Action<D>, k: Key)
    requires Enabled(s, a) && TimesNotAhead(s)
    ensures EntryFollows(s, Apply(s, a), Meaning(s, a), k)
  {
    hide NextPc, NextReaders, NextWriter;
  }

  lemma MeaningKeepsData<D>(s: State<D>, a: Action<D>, m: Plain<D>)
    requires Inv(s) && Enabled(s, a) && Refines(s, m) && Allowed(m, Meaning(s, a), s.threshold)
    ensures SameData(Apply(s, a), After(m, Meaning(s, a), s.blank))
  {
    TimesAreNotAhead(s);
    hide Inv, TimesNotAhead, SameHolders, NextPc, NextReaders, NextWriter, NextCookies;
    forall k
      ensures EntryFollows(s, Apply(s, a), Meaning(s, a), k)
    {
      EntriesFollowEvent(s, a, k);
    }
    ClockFollowsEvent(s, a);
    HoldersHaveData(s, m);
    DataFollowsEvent(s, Apply(s, a), Meaning(s, a), m);
  }

  ghost predicate HeldHasData<D>(m: Plain<D>) {
    forall k | k in m.holder :: k in m.data
  }

  lemma HoldersHaveData<D>(s: State<D>, m: Plain<D>)
    requires Inv(s) && Refines(s, m)
    ensures HeldHasData(m)
  {
    forall k | k in m.holder
      ensures k in m.data
    {
      assert Owner(s, m.holder[k], k);
    }
  }

  lemma ClockFollowsEvent<D>(s: State<D>, a: Action<D>)
    requires Enabled(s, a)
    ensures Apply(s, a).clock == s.clock + (if Meaning(s, a).Pass? then Meaning(s, a).dt else 0)
  {
    hide NextPc, NextCookies, NextReaders, NextWriter;
  }

  lemma DataFollowsEvent<D>(s: State<D>, s': State<D>, e: Event<D>, m: Plain<D>)
    requires SameData(s, m) && Allowed(m, e, s.threshold) && HeldHasData(m)
    requires forall k :: EntryFollows(s, s', e, k)
    requires s'.clock == s.clock + (if e.Pass? then e.dt else 0)
    ensures SameData(s', After(m, e, s.blank))
  {
    var m' := After(m, e, s.blank);
    forall k
      ensures k in m'.data <==> k in s'.cookies
      ensures k in m'.lastUse <==> k in s'.cookies
      ensures k in s'.cookies ==> m'.data[k] == s'.cookies[k].cookie && m'.lastUse[k] <= s'.cookies[k].touched
    {
      assert EntryFollows(s, s', e, k);
    }
  }

  /** The thread of the step holds, after it, what it held before and did not give back, and what it acquired. */
  lemma CallerFollowsEvent<D>(s: State<D>, a: Action<D>, t: Thread, k: Key)
    requires Enabled(s, a)
    ensures var e := Meaning(s, a);
      CallerOf(Apply(s, a), t, k) <==>
        e == Create(t, k) || e == Acquire(t, k) || (CallerOf(s, t, k) && e != GiveBack(t, k))
  {
    hide NextCookies, NextReaders, NextWriter;
  }

  lemma MeaningKeepsHolders<D>(s: State<D>, a: Action<D>, m: Plain<D>)
    requires Enabled(s, a) && SameHolders(s, m) && Allowed(m, Meaning(s, a), s.threshold)
    ensures SameHolders(Apply(s, a), After(m, Meaning(s, a), s.blank))
  {
    hide Apply, Meaning, CallerOf;
    var s', e, m' := Apply(s, a), Meaning(s, a), After(m, Meaning(s, a), s.blank);
    forall t, k
      ensures CallerOf(s', t, k) <==>
                e == Create(t, k) || e == Acquire(t, k) || (CallerOf(s, t, k) && e != GiveBack(t, k))
    {
      CallerFollowsEvent(s, a, t, k);
    }
  }

  /** Forward simulation: every step of the cache is an allowed event of the plain map, or invisible there. */
  lemma StepRefines<D>(s: State<D>, a: Action<D>, m: Plain<D>)
    requires Inv(s) && Enabled(s, a) && Refines(s, m)
    ensures Allowed(m, Meaning(s, a), s.threshold)
    ensures Refines(Apply(s, a), After(m, Meaning(s, a), s.blank))
  {
    hide Inv, Apply, After, Allowed, Meaning, SameData, SameHolders;
    MeaningIsAllowed(s, a, m);
    MeaningKeepsData(s, a, m);
    MeaningKeepsHolders(s, a, m);
  }

  /**
   * Every reference points to an entry that is in the cache, locked for its thread, save exactly one kind:
   * the sweep's guard on an entry it has just erased, through which the destructor still writes.
   */
  lemma ReferencesAreHeld<D>(s: State<D>, t: Thread, k: Key)
    requires Inv(s) && t in s.pcs && s.pcs[t].PointsTo(k)
    ensures k in s.cookies && s.cookies[k].refs == 1 && Owner(s, t, k) <==> !s.pcs[t].Dropping?
    ensures s.pcs[t].Dropping? ==> k !in s.cookies && s.writer == Some(t)
  {
    hide TimesMatch;
    assert s.pcs[t].Owns(k) ==> Owner(s, t, k);
    assert s.pcs[t].Dropping? ==> s.pcs[t].Exclusive();
  }

  // ---------------------------------------------------------------- runs

  predicate Legal<D>(s: State<D>, actions: seq<Action<D>>)
    decreases |actions|
  {
    actions == [] || (Enabled(s, actions[0]) && Legal(Apply(s, actions[0]), actions[1..]))
  }

  function Execute<D>(s: State<D>, actions: seq<Action<D>>): State<D>
    requires Legal(s, actions)
    decreases |actions|
  {
    if actions == [] then s else Execute(Apply(s, actions[0]), actions[1..])
  }

  ghost predicate AllAllowed<D>(m: Plain<D>, events: seq<Event<D>>, blank: D, threshold: Time)
    decreases |events|
  {
    events == []
    || (Allowed(m, events[0], threshold) && AllAllowed(After(m, events[0], blank), events[1..], blank, threshold))
  }

  ghost function AfterAll<D>(m: Plain<D>, events: seq<Event<D>>, blank: D): Plain<D>
    decreases |events|
  {
    if events == [] then m else AfterAll(After(m, events[0], blank), events[1..], blank)
  }

  /** What a run of the cache means for the plain map, event by event. */
  ghost function Meanings<D>(s: State<D>, actions: seq<Action<D>>): (events: seq<Event<D>>)
    requires Legal(s, actions)
    ensures |events| == |actions|
    decreases |actions|
  {
    if actions == [] then [] else [Meaning(s, actions[0])] + Meanings(Apply(s, actions[0]), actions[1..])
  }

  /** Refinement over whole runs: any schedule of gets, releases and sweeps is a run of the plain map. */
  lemma {:induction false} RunRefinesPlainMap<D>(s: State<D>, actions: seq<Action<D>>, m: Plain<D>)
    requires Inv(s) && Legal(s, actions) && Refines(s, m)
    ensures AllAllowed(m, Meanings(s, actions), s.blank, s.threshold)
    ensures Inv(Execute(s, actions)) && Refines(Execute(s, actions), AfterAll(m, Meanings(s, actions), s.blank))
    decreases |actions|
  {
    hide Inv, Refines, Apply, After, Meaning;
    if actions != [] {
      var a := actions[0];
      StepKeepsInv(s, a);
      StepRefines(s, a, m);
      ConstantsKept(s, a);
      RunRefinesPlainMap(Apply(s, a), actions[1..], After(m, Meaning(s, a), s.blank));
      assert Meanings(s, actions)[0] == Meaning(s, a);
      assert Meanings(s, actions)[1..] == Meanings(Apply(s, a), actions[1..]);
    }
  }

  lemma ConstantsKept<D>(s: State<D>, a: Action<D>)
    requires Enabled(s, a)
    ensures Apply(s, a).blank == s.blank && Apply(s, a).threshold == s.threshold
    ensures s.clock <= Apply(s, a).clock
  {
    hide NextPc, NextCookies, NextReaders, NextWriter;
  }

  /** In every reachable state counts are 0 or 1, two callers never hold one session, and a held one is there. */
  lemma MutualExclusion<D>(s: State<D>, actions: seq<Action<D>>, t: Thread, u: Thread)
    requires Start(s) && Legal(s, actions)
    ensures var s' := Execute(s, actions);
            && (forall k | k in s'.cookies :: s'.cookies[k].refs in {0, 1})
            && (t in s'.pcs && s'.pcs[t].Holding? ==>
                  && s'.pcs[t].k in s'.cookies
                  && (u in s'.pcs && u != t && s'.pcs[u].Holding? ==> s'.pcs[u].k != s'.pcs[t].k))
  {
    StartInv(s);
    var m := Plain(map[], map[], map[], s.clock);
    assert Refines(s, m);
    RunRefinesPlainMap(s, actions, m);
    var s' := Execute(s, actions);
    hide Execute, Legal, LocksMatch, TimesMatch, SweepsMatch;
    if t in s'.pcs && s'.pcs[t].Holding? {
      assert Owner(s', t, s'.pcs[t].k);
      assert u in s'.pcs && s'.pcs[u].Holding? && s'.pcs[u].k == s'.pcs[t].k ==> Owner(s', u, s'.pcs[t].k);
    }
  }

  predicate WritesTo<D>(s: State<D>, a: Action<D>, k: Key)
    requires Enabled(s, a)
  {
    a.Write? && s.pcs[a.t].k == k
  }

  predicate NeverWrites<D>(s: State<D>, actions: seq<Action<D>>, k: Key)
    requires Legal(s, actions)
    decreases |actions|
  {
    actions == [] || (!WritesTo(s, actions[0], k) && NeverWrites(Apply(s, actions[0]), actions[1..], k))
  }

  lemma FreshSurvivesStep<D>(s: State<D>, a: Action<D>, k: Key)
    requires Inv(s) && Enabled(s, a) && k in s.cookies
    requires s.clock <= s.cookies[k].touched + s.threshold
    ensures var s' := Apply(s, a);
            && k in s'.cookies && s.cookies[k].touched <= s'.cookies[k].touched
            && (!WritesTo(s, a, k) ==> s'.cookies[k].cookie == s.cookies[k].cookie)
  {
    hide LocksMatch, RefsMatch, SweepsMatch, NextPc, NextReaders, NextWriter;
  }

  /**
   * A session disappears only after more than the threshold without use: until that much time has passed
   * since it was last touched it stays, with the data its last holder left, whatever else goes on.
   */
  lemma {:induction false} FreshSessionSurvives<D>(s: State<D>, actions: seq<Action<D>>, k: Key)
    requires Inv(s) && Legal(s, actions) && k in s.cookies
    requires Execute(s, actions).clock <= s.cookies[k].touched + s.threshold
    ensures var s' := Execute(s, actions);
            && s.clock <= s'.clock && k in s'.cookies
            && (NeverWrites(s, actions, k) ==> s'.cookies[k].cookie == s.cookies[k].cookie)
    decreases |actions|
  {
    ClockAdvances(s, actions);
    if actions != [] {
      var s1 := Apply(s, actions[0]);
      StepKeepsInv(s, actions[0]);
      ConstantsKept(s, actions[0]);
      FreshSurvivesStep(s, actions[0], k);
      hide Inv, Apply;
      FreshSessionSurvives(s1, actions[1..], k);
    }
  }

  lemma {:induction false} ClockAdvances<D>(s: State<D>, actions: seq<Action<D>>)
    requires Legal(s, actions)
    ensures s.clock <= Execute(s, actions).clock
    decreases |actions|
  {
    if actions != [] {
      ConstantsKept(s, actions[0]);
      hide Apply;
      ClockAdvances(Apply(s, actions[0]), actions[1..]);
    }
  }

  /** A session that is given back, however long that takes, is free and counts as used when its holder let go. */
  lemma GivenBackIsFreshAndFree<D>(s: State<D>, t: Thread, k: Key, dt: Time)
    requires Inv(s) && t in s.pcs && s.pcs[t] == Holding(k)
    ensures Enabled<D>(s, Leave(t)) && Enabled<D>(Apply<D>(Apply<D>(s, Leave(t)), Tick(dt)), Release(t))
    ensures var s' := Apply<D>(Apply<D>(Apply<D>(s, Leave(t)), Tick(dt)), Release(t));
            && k in s.cookies && s'.cookies == s.cookies[k := Entry(s.cookies[k].cookie, 0, s.clock)]
            && s'.pcs == s.pcs[t := Idle] && s'.clock == s.clock + dt
  {
    assert Owner(s, t, k);
    hide Inv, NextReaders, NextWriter;
    var s1 := Apply<D>(s, Leave(t));
    assert s1.cookies[k] == Entry(s.cookies[k].cookie, 1, s.clock);
    assert Apply<D>(Apply<D>(s1, Tick(dt)), Release(t)).pcs == s.pcs[t := Idle];
  }

  // ---------------------------------------------------------------- how often the cache is swept

  /** A sweep under way was due when it began, and no sweep has been recorded since. */
  ghost predicate SweepsDue<D>(s: State<D>) {
    forall t | t in s.pcs && s.pcs[t].InSweep() :: s.prevStaleCheck + s.threshold < s.pcs[t].now
  }

  lemma SweepsDueKept<D>(s: State<D>, a: Action<D>)
    requires LocksMatch(s) && Enabled(s, a) && SweepsDue(s)
    ensures SweepsDue(Apply(s, a)) && s.prevStaleCheck <= Apply(s, a).prevStaleCheck
    ensures a.SweepEnd? ==> Apply(s, a).prevStaleCheck == s.pcs[a.t].now
  {
    hide NextCookies, NextReaders, NextWriter;
    if a.SweepEnd? {
      assert s.pcs[a.t].InSweep() && s.pcs[a.t].Exclusive();
    }
  }

  /** Whether the run's `i`-th step ends a sweep that began at `now`. */
  predicate EndsSweepOf<D>(s: State<D>, actions: seq<Action<D>>, i: nat, now: Time)
    requires Legal(s, actions) && i < |actions|
    decreases i
  {
    if i > 0 then EndsSweepOf(Apply(s, actions[0]), actions[1..], i - 1, now)
    else actions[0].SweepEnd? && s.pcs[actions[0].t].now == now
  }

  lemma {:induction false} LastCheckAdvances<D>(s: State<D>, actions: seq<Action<D>>)
    requires Inv(s) && Legal(s, actions) && SweepsDue(s)
    ensures SweepsDue(Execute(s, actions)) && s.prevStaleCheck <= Execute(s, actions).prevStaleCheck
    ensures Execute(s, actions).threshold == s.threshold
    ensures forall i: nat, now: Time | i < |actions| && EndsSweepOf(s, actions, i, now) ::
              now <= Execute(s, actions).prevStaleCheck
    decreases |actions|
  {
    if actions != [] {
      var s1 := Apply(s, actions[0]);
      StepKeepsInv(s, actions[0]);
      ConstantsKept(s, actions[0]);
      SweepsDueKept(s, actions[0]);
      hide Inv, Apply, Enabled, SweepsDue;
      LastCheckAdvances(s1, actions[1..]);
      forall i: nat, now: Time | i < |actions| && EndsSweepOf(s, actions, i, now)
        ensures now <= Execute(s, actions).prevStaleCheck
      {
        if i > 0 {
          assert EndsSweepOf(s1, actions[1..], i - 1, now);
        }
      }
    }
  }

  /**
   * Sweeps are more than the threshold apart: when one has ended that began at `now`, any thread seen
   * sweeping later in the run began at a time more than the threshold after it.
   */
  lemma SweepsAreSpaced<D>(s: State<D>, actions: seq<Action<D>>, i: nat, now: Time, u: Thread)
    requires Start(s) && Legal(s, actions) && i < |actions| && EndsSweepOf(s, actions, i, now)
    requires u in Execute(s, actions).pcs && Execute(s, actions).pcs[u].InSweep()
    ensures now + s.threshold < Execute(s, actions).pcs[u].now
  {
    StartInv(s);
    LastCheckAdvances(s, actions);
  }

  /**
   * And none is left out: whoever gets the exclusive lock sweeps exactly when the last sweep recorded is
   * more than the threshold before the time the call had read.
   */
  lemma SweepsWheneverDue<D>(s: State<D>, a: Action<D>)
    requires a.LockExclusive? && Enabled(s, a)
    ensures Apply(s, a).pcs[a.t].InSweep() <==> s.prevStaleCheck + s.threshold < s.pcs[a.t].now
    ensures Apply(s, a).pcs[a.t].InSweep() ==> Apply(s, a).pcs[a.t].todo == s.cookies.Keys - {s.pcs[a.t].k}
  {
  }
}

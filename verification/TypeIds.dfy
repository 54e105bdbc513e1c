/**
 * The type registry's double-checked insertion (src/system/type_id.cxx): a lookup under the shared lock,
 * then, after a miss, an insertion under the exclusive one, with other threads in between.
 */
module TypeIds {

  type Thread = nat

  datatype Pc = Idle | Missed(name: string) | Found(name: string, index: nat)

  datatype State = State(entries: map<string, nat>, next: nat, pcs: map<Thread, Pc>)

  datatype Action = LookUp(t: Thread, name: string) | Insert(t: Thread) | Return(t: Thread)

  predicate Enabled(s: State, a: Action) {
    a.t in s.pcs &&
    match a
    case LookUp(t, _) => s.pcs[t].Idle?
    case Insert(t) => s.pcs[t].Missed?
    case Return(t) => s.pcs[t].Found?
  }

  /** The insertion takes an id before it knows whether it will be used. */
  function Apply(s: State, a: Action): State
    requires Enabled(s, a)
  {
    match a
    case LookUp(t, name) =>
      s.(pcs := s.pcs[t := if name in s.entries then Found(name, s.entries[name]) else Missed(name)])
    case Insert(t) =>
      var name := s.pcs[t].name;
      var entries := if name in s.entries then s.entries else s.entries[name := s.next];
      State(entries, s.next + 1, s.pcs[t := Found(name, entries[name])])
    case Return(t) => s.(pcs := s.pcs[t := Idle])
  }

  ghost predicate Inv(s: State) {
    && (forall n | n in s.entries :: s.entries[n] < s.next)
    && (forall m, n | m in s.entries && n in s.entries && m != n :: s.entries[m] != s.entries[n])
    && (forall t | t in s.pcs && s.pcs[t].Found? ::
          s.pcs[t].name in s.entries && s.entries[s.pcs[t].name] == s.pcs[t].index)
  }

  predicate Legal(s: State, actions: seq<Action>)
    decreases |actions|
  {
    actions == [] || (Enabled(s, actions[0]) && Legal(Apply(s, actions[0]), actions[1..]))
  }

  function Execute(s: State, actions: seq<Action>): State
    requires Legal(s, actions)
    decreases |actions|
  {
    if actions == [] then s else Execute(Apply(s, actions[0]), actions[1..])
  }

  lemma StepKeepsIndices(s: State, a: Action)
    requires Inv(s) && Enabled(s, a)
    ensures var s' := Apply(s, a);
            && Inv(s') && s.next <= s'.next
            && (forall n | n in s.entries :: n in s'.entries && s'.entries[n] == s.entries[n])
  {
  }

  lemma {:induction false} RunKeepsIndices(s: State, actions: seq<Action>)
    requires Inv(s) && Legal(s, actions)
    ensures var s' := Execute(s, actions);
            && Inv(s') && s.next <= s'.next
            && (forall n | n in s.entries :: n in s'.entries && s'.entries[n] == s.entries[n])
    decreases |actions|
  {
    if actions != [] {
      StepKeepsIndices(s, actions[0]);
      hide Apply, Inv;
      RunKeepsIndices(Apply(s, actions[0]), actions[1..]);
    }
  }

  /**
   * Whenever two threads are answered, at whatever points of a run and however their lookups and
   * insertions interleave, the answers are equal exactly when the names are.
   */
  lemma SameNameSameIndex(s: State, actions: seq<Action>, t: Thread, u: Thread)
    requires Inv(s) && Legal(s, actions)
    requires t in s.pcs && s.pcs[t].Found?
    requires u in Execute(s, actions).pcs && Execute(s, actions).pcs[u].Found?
    ensures var early, late := s.pcs[t], Execute(s, actions).pcs[u];
            early.index == late.index <==> early.name == late.name
  {
    RunKeepsIndices(s, actions);
  }

  lemma StartInv(s: State)
    requires s.entries == map[] && forall t | t in s.pcs :: s.pcs[t].Idle?
    ensures Inv(s)
  {
  }

  /** A thread is answered for the name it asked for, at its lookup or at its insertion; nobody else is. */
  lemma AnswersTheName(s: State, a: Action)
    requires Inv(s) && Enabled(s, a)
    ensures var pc := Apply(s, a).pcs[a.t];
            && (a.LookUp? && a.name in s.entries ==> pc == Found(a.name, s.entries[a.name]))
            && (a.LookUp? && a.name !in s.entries ==> pc == Missed(a.name))
            && (a.Insert? ==> pc.Found? && pc.name == s.pcs[a.t].name)
            && (a.Insert? && s.pcs[a.t].name !in s.entries ==> pc.index == s.next)
            && (a.Return? ==> pc.Idle?)
    ensures forall u | u in s.pcs && u != a.t :: Apply(s, a).pcs[u] == s.pcs[u]
    ensures !a.Insert? ==> Apply(s, a).entries == s.entries && Apply(s, a).next == s.next
  {
  }

  function Insertions(actions: seq<Action>): nat
    decreases |actions|
  {
    if actions == [] then 0 else (if actions[0].Insert? then 1 else 0) + Insertions(actions[1..])
  }

  /** Every insertion uses an id up, one that finds the name there already as well; a lookup that hits uses none. */
  lemma {:induction false} EveryInsertionTakesAnId(s: State, actions: seq<Action>)
    requires Inv(s) && Legal(s, actions)
    ensures Execute(s, actions).next == s.next + Insertions(actions)
    decreases |actions|
  {
    if actions != [] {
      StepKeepsIndices(s, actions[0]);
      AnswersTheName(s, actions[0]);
      EveryInsertionTakesAnId(Apply(s, actions[0]), actions[1..]);
    }
  }
}

/**
 * How far the mapping protocol can make registries grow (src/system/property_info.cxx,
 * src/ipc/grpc/erebus_service.cxx, src/ipc/grpc/grpc_client.cxx): in a run in which nobody registers
 * anything, only by the names that were missing, however puts, gets, drops and calls are interleaved.
 */
module RegistryGrowth {
  import opened PropertyRegistry
  import opened PropertyMapping
  import opened MappingRuns

  function NamesOf(reg: RegistryState): set<string> {
    reg.persistent.Keys + reg.transients.Keys
  }

  /** The names known in any process. */
  ghost function AllNames(w: World): set<string> {
    set p, n | p in w.regs && n in NamesOf(w.regs[p]) :: n
  }

  ghost predicate NothingRegistered(actions: seq<Action>) {
    forall i | 0 <= i < |actions| :: !actions[i].Register?
  }

  /** `later` has gained one id for each name it has gained, and all it knows is among `names`. */
  ghost predicate GrownWithin(reg: RegistryState, later: RegistryState, names: set<string>) {
    && NamesOf(reg) <= NamesOf(later) <= names
    && later.unique - reg.unique == |NamesOf(later)| - |NamesOf(reg)|
  }

  lemma GrownWithinIsTransitive(a: RegistryState, b: RegistryState, c: RegistryState, names: set<string>)
    requires GrownWithin(a, b, names) && GrownWithin(b, c, names)
    ensures GrownWithin(a, c, names)
  {
  }

  lemma AllocationAddsName(reg: RegistryState, ty: PropertyType, name: string, readable: string)
    ensures match reg.AllocateTransient(ty, name, readable)
            case Err(_) => true
            case Ok((later, _)) =>
              if name in NamesOf(reg) then later == reg
              else NamesOf(later) == NamesOf(reg) + {name} && later.unique == reg.unique + 1
  {
    var transients := reg.transients[name := Info(reg.unique, ty, name, readable)];
    assert transients.Keys == reg.transients.Keys + {name};
    assert reg.persistent.Keys + transients.Keys == NamesOf(reg) + {name};
  }

  lemma ReceivedIsWithin(side: Side, reg: RegistryState, table: Table, version: nat, msg: Info, names: set<string>)
    requires NamesOf(reg) <= names && msg.name in names
    ensures GrownWithin(reg, Receive(side, reg, table, version, msg).reg, names)
  {
    AllocationAddsName(reg, msg.ty, msg.name, msg.readable);
    hide NamesOf, RegistryState.AllocateTransient, Widened;
  }

  lemma HeldNameIsKnown(reg: RegistryState, x: Info)
    requires reg.Holds(x)
    ensures x.name in NamesOf(reg)
  {
  }

  /** Every message on its way bears a name its sender knows. */
  lemma NextMessageIsKnown(t: Transfer, sender: RegistryState, names: set<string>)
    requires CarriesSnapshot(t, sender) && t.pending != [] && NamesOf(sender) <= names
    ensures t.pending[0].name in names
  {
    HeadIsHeld(t, sender);
    HeldNameIsKnown(sender, t.pending[0]);
  }

  ghost predicate WorldWithin(w: World, names: set<string>) {
    forall p | p in w.regs :: NamesOf(w.regs[p]) <= names
  }

  /** The registry that the next message of a put leaves; no table has a part in it. */
  function RegAfterPut(w: World, t: StreamId): RegistryState
    requires w.server in w.regs && t in w.puts && w.puts[t].pending != []
  {
    Receive(Server, w.ServerReg(), EMPTY_TABLE, w.puts[t].version, w.puts[t].pending[0]).reg
  }

  lemma RegsOfPut(w: World, t: StreamId)
    requires w.server in w.regs && t in w.puts && w.puts[t].pending != []
    ensures PutStep(w, t).regs == w.regs[w.server := RegAfterPut(w, t)]
  {
    hide RegistryState.AllocateTransient, Widened;
  }

  lemma StepWithin(w: World, a: Action, p: Process, names: set<string>)
    requires Inv(w) && Enabled(w, a) && !a.Register? && WorldWithin(w, names) && p in w.regs
    ensures p in Apply(w, a).regs && GrownWithin(w.regs[p], Apply(w, a).regs[p], names)
  {
    hide RegistryState.Valid, TablesSound, ProgressSound, CarriesSnapshot, Receive, NamesOf, PutStep, GetStep;
    StaysWithin(w.regs[p], names);
    match a
    case DeliverPut(t) =>
      NextMessageIsKnown(w.puts[t], w.ClientReg(w.puts[t].client), names);
      RegsOfPut(w, t);
      ReceivedIsWithin(Server, w.ServerReg(), EMPTY_TABLE, w.puts[t].version, w.puts[t].pending[0], names);
    case DeliverGet(t) =>
      var c := w.gets[t].client;
      NextMessageIsKnown(w.gets[t], w.ServerReg(), names);
      GetStepIs(w, t);
      ReceivedIsWithin(Client, w.ClientReg(c), w.tables[c], w.gets[t].version, w.gets[t].pending[0], names);
    case _ =>
  }

  lemma StaysWithin(reg: RegistryState, names: set<string>)
    requires NamesOf(reg) <= names
    ensures GrownWithin(reg, reg, names)
  {
  }

  /** Every registry has gained within `names`. */
  ghost predicate WorldGrown(w: World, later: World, names: set<string>) {
    forall p | p in w.regs :: p in later.regs && GrownWithin(w.regs[p], later.regs[p], names)
  }

  lemma WorldGrownReflexive(w: World, names: set<string>)
    requires WorldWithin(w, names)
    ensures WorldGrown(w, w, names)
  {
  }

  lemma WorldGrownIsTransitive(a: World, b: World, c: World, names: set<string>)
    requires WorldGrown(a, b, names) && WorldGrown(b, c, names)
    ensures WorldGrown(a, c, names)
  {
    hide NamesOf;
  }

  lemma StepKeepsRegs(w: World, a: Action)
    requires Inv(w) && w.WellFormed() && Enabled(w, a)
    ensures Apply(w, a).regs.Keys == w.regs.Keys
  {
    hide Inv, Apply, Enabled;
    StepKeepsInv(w, a);
  }

  lemma WorldStepWithin(w: World, a: Action, names: set<string>)
    requires Inv(w) && w.WellFormed() && Enabled(w, a) && !a.Register? && WorldWithin(w, names)
    ensures WorldGrown(w, Apply(w, a), names) && WorldWithin(Apply(w, a), names)
  {
    StepKeepsRegs(w, a);
    hide Inv, Enabled, NamesOf, GrownWithin, Apply;
    forall q | q in w.regs
      ensures GrownWithin(w.regs[q], Apply(w, a).regs[q], names)
    {
      StepWithin(w, a, q, names);
    }
    WithinIsKept(w, Apply(w, a), names);
  }

  lemma RunUnfolds(w: World, actions: seq<Action>)
    requires Inv(w) && Legal(w, actions) && actions != []
    ensures w.WellFormed() && Enabled(w, actions[0]) && Inv(Apply(w, actions[0]))
    ensures Legal(Apply(w, actions[0]), actions[1..])
    ensures Execute(w, actions) == Execute(Apply(w, actions[0]), actions[1..])
  {
    StepKeepsInv(w, actions[0]);
    hide Enabled, Apply, Grows;
  }

  lemma {:induction false} RunWithin(w: World, actions: seq<Action>, names: set<string>)
    requires Inv(w) && Legal(w, actions) && NothingRegistered(actions) && WorldWithin(w, names)
    ensures WorldGrown(w, Execute(w, actions), names)
    decreases |actions|
  {
    if actions == [] {
      hide Inv, WorldWithin, WorldGrown;
      WorldGrownReflexive(w, names);
    } else {
      hide Inv, Enabled, Apply, WorldWithin, Grows, WorldGrown, Legal, Execute;
      RunUnfolds(w, actions);
      WorldStepWithin(w, actions[0], names);
      RunWithin(Apply(w, actions[0]), actions[1..], names);
      WorldGrownIsTransitive(w, Apply(w, actions[0]), Execute(w, actions), names);
    }
  }

  lemma WithinIsKept(w: World, w': World, names: set<string>)
    requires w'.regs.Keys == w.regs.Keys && forall q | q in w.regs :: GrownWithin(w.regs[q], w'.regs[q], names)
    ensures WorldWithin(w', names)
  {
  }

  /**
   * Bounded growth: in any run in which nobody registers anything, a registry, and with it its version,
   * grows by no more than the number of names that it was missing at the start, and no new name appears
   * anywhere. So only so many transfers can outdate a version, whatever their order.
   */
  lemma GrowthIsBounded(w: World, actions: seq<Action>, p: Process)
    requires Inv(w) && Legal(w, actions) && NothingRegistered(actions) && p in w.regs
    ensures var reg, later := w.regs[p], Execute(w, actions).regs[p];
            && NamesOf(later) <= AllNames(w)
            && later.unique - reg.unique <= |AllNames(w) - NamesOf(reg)|
            && (later.unique == reg.unique + |AllNames(w) - NamesOf(reg)| <==> NamesOf(later) == AllNames(w))
  {
    hide Inv, Legal, Execute;
    assert WorldWithin(w, AllNames(w));
    RunWithin(w, actions, AllNames(w));
    GainIsBounded(w.regs[p], Execute(w, actions).regs[p], AllNames(w));
  }

  lemma SizeOfRest(part: set<string>, whole: set<string>)
    requires part <= whole
    ensures |whole| == |part| + |whole - part|
    ensures |whole - part| == 0 <==> part == whole
  {
    assert whole == part + (whole - part);
    assert whole - part == {} <==> part == whole;
  }

  lemma GainIsBounded(reg: RegistryState, later: RegistryState, names: set<string>)
    requires GrownWithin(reg, later, names)
    ensures later.unique - reg.unique <= |names - NamesOf(reg)|
    ensures later.unique == reg.unique + |names - NamesOf(reg)| <==> NamesOf(later) == names
  {
    hide NamesOf;
    SizeOfRest(NamesOf(reg), names);
    SizeOfRest(NamesOf(later), names);
  }
}

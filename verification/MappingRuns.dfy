/**
 * Whole runs of the mapping protocol: any number of processes and clients, with registrations,
 * half-finished transfers, session drops and calls interleaved freely.
 */
module MappingRuns {
  import opened Basics
  import opened PropertyRegistry
  import opened PropertyMapping
  import opened WireProtocol
  import opened RemoteCalls

  type Process = nat
  type ClientId = nat
  type StreamId = nat

  /** A session's table, and which of the successively created sessions it is. */
  datatype Session = Session(table: Table, born: nat)

  /**
   * A mapping stream: the snapshot split into the messages already received and those still to come.
   * `into` says for each received message of a put which session it went to; `clean` says no message has
   * raised an exception; an exception on the server leaves the stream `dead`.
   */
  datatype Transfer = Transfer(
    client: ClientId, version: nat, done: seq<Info>, pending: seq<Info>, into: seq<nat>, clean: bool, dead: bool)

  datatype World = World(
    server: Process,
    home: map<ClientId, Process>,
    regs: map<Process, RegistryState>,
    sessions: map<ClientId, Session>,
    births: nat,
    tables: map<ClientId, Table>,
    puts: map<StreamId, Transfer>,
    gets: map<StreamId, Transfer>)
  {
    ghost predicate WellFormed() {
      && server in regs
      && (forall c | c in home :: home[c] in regs)
      && tables.Keys == home.Keys
      && sessions.Keys <= home.Keys
      && (forall t | t in puts :: puts[t].client in home)
      && (forall t | t in gets :: gets[t].client in home)
    }

    function ServerReg(): RegistryState
      requires server in regs
    {
      regs[server]
    }

    function ClientReg(c: ClientId): RegistryState
      requires c in home && home[c] in regs
    {
      regs[home[c]]
    }

    /** Looking a session up creates it when it is missing. */
    function WithSession(c: ClientId): World {
      if c in sessions then this
      else this.(sessions := sessions[c := Session(EMPTY_TABLE, births)], births := births + 1)
    }
  }

  datatype Action =
    | Register(p: Process, what: Registration)
    | StartPut(t: StreamId, c: ClientId, order: seq<Info>)
    | DeliverPut(t: StreamId)
    | StartGet(t: StreamId, c: ClientId, order: seq<Info>)
    | DeliverGet(t: StreamId)
    | Touch(c: ClientId)
    | Expire(c: ClientId)

  ghost predicate Enabled(w: World, a: Action)
    requires w.WellFormed()
  {
    match a
    case Register(p, _) => p in w.regs
    case StartPut(t, c, order) => t !in w.puts && c in w.home && w.ClientReg(c).Enumerates(order)
    case DeliverPut(t) => t in w.puts && !w.puts[t].dead && w.puts[t].pending != []
    case StartGet(t, c, order) => t !in w.gets && c in w.home && w.ServerReg().Enumerates(order)
    case DeliverGet(t) => t in w.gets && w.gets[t].pending != []
    case Touch(c) => c in w.home
    case Expire(c) => c in w.sessions
  }

  function Received(t: Transfer, born: nat, thrown: bool): Transfer
    requires t.pending != []
  {
    t.(done := t.done + [t.pending[0]], pending := t.pending[1..], into := t.into + [born],
       clean := t.clean && !thrown)
  }

  function PutStep(w: World, t: StreamId): World
    requires w.server in w.regs && t in w.puts && w.puts[t].pending != []
  {
    var put := w.puts[t];
    var w1 := w.WithSession(put.client);
    var session := w1.sessions[put.client];
    var d := Receive(Server, w.ServerReg(), session.table, put.version, put.pending[0]);
    w1.(regs := w.regs[w.server := d.reg],
        sessions := w1.sessions[put.client := session.(table := d.table)],
        puts := w.puts[t := if d.thrown then put.(dead := true) else Received(put, session.born, false)])
  }

  function GetStep(w: World, t: StreamId): World
    requires t in w.gets && w.gets[t].pending != []
    requires var c := w.gets[t].client; c in w.home && w.home[c] in w.regs && c in w.tables
  {
    var get := w.gets[t];
    var d := Receive(Client, w.ClientReg(get.client), w.tables[get.client], get.version, get.pending[0]);
    w.(regs := w.regs[w.home[get.client] := d.reg],
       tables := w.tables[get.client := d.table],
       gets := w.gets[t := Received(get, 0, d.thrown)])
  }

  ghost function Apply(w: World, a: Action): World
    requires w.WellFormed() && Enabled(w, a)
  {
    match a
    case Register(p, what) => w.(regs := w.regs[p := w.regs[p].Registered(what)])
    case StartPut(t, c, order) =>
      w.(puts := w.puts[t := Transfer(c, w.ClientReg(c).unique, [], order, [], true, false)])
    case DeliverPut(t) => PutStep(w, t)
    case StartGet(t, c, order) =>
      w.(gets := w.gets[t := Transfer(c, w.ServerReg().unique, [], order, [], true, false)])
    case DeliverGet(t) => GetStep(w, t)
    case Touch(c) => w.WithSession(c)
    case Expire(c) => w.(sessions := w.sessions - {c})
  }

  // ---------------------------------------------------------------- the invariant

  /** `sender` holds a description with id `i` and the name and type of `x`. */
  ghost predicate Announced(sender: RegistryState, i: nat, x: Info) {
    exists y :: sender.Holds(y) && y.unique == i && y.name == x.name && y.ty == x.ty
  }

  /** Every filled slot holds the receiver's description of what the sender calls by that id. */
  ghost predicate SoundTable(table: Table, sender: RegistryState, receiver: RegistryState) {
    forall i: nat | table.Slot(i).Some? ::
      receiver.Holds(table.Slot(i).value) && Announced(sender, i, table.Slot(i).value)
  }

  ghost predicate FilledFor(table: Table, msgs: seq<Info>) {
    forall x | x in msgs :: table.Slot(x.unique).Some?
  }

  /** The stream's messages are the sender's descriptions with ids 0..version-1. */
  ghost predicate CarriesSnapshot(t: Transfer, sender: RegistryState) {
    && t.version <= sender.unique
    && (forall x | x in t.done + t.pending :: sender.Holds(x) && x.unique < t.version)
    && (forall i: nat | i < t.version :: HasIdIn(t.done + t.pending, i))
  }

  ghost predicate TablesSound(w: World)
    requires w.WellFormed()
  {
    && (forall c | c in w.sessions :: SoundTable(w.sessions[c].table, w.ClientReg(c), w.ServerReg()))
    && (forall c | c in w.tables :: SoundTable(w.tables[c], w.ServerReg(), w.ClientReg(c)))
  }

  ghost predicate StreamsSound(w: World)
    requires w.WellFormed()
  {
    && (forall t | t in w.puts :: CarriesSnapshot(w.puts[t], w.ClientReg(w.puts[t].client)))
    && (forall t | t in w.gets :: CarriesSnapshot(w.gets[t], w.ServerReg()))
  }

  /** The messages that went into session `born` have their slots filled in `table`. */
  ghost predicate FilledInto(table: Table, put: Transfer, born: nat) {
    forall k | 0 <= k < |put.done| && k < |put.into| && put.into[k] == born :: table.Slot(put.done[k].unique).Some?
  }

  ghost predicate PutProgress(w: World, put: Transfer) {
    && |put.into| == |put.done|
    && (forall k | 0 <= k < |put.into| :: put.into[k] < w.births)
    && (put.client in w.sessions ==> FilledInto(w.sessions[put.client].table, put, w.sessions[put.client].born))
  }

  /** The put has delivered a message for id `i` into session `born`. */
  ghost predicate DeliveredInto(put: Transfer, i: nat, born: nat) {
    exists k :: 0 <= k < |put.done| && k < |put.into| && put.done[k].unique == i && put.into[k] == born
  }

  /** Some put has delivered a message for id `i` into the present session of `c`. */
  ghost predicate PutSome(w: World, c: ClientId, i: nat)
    requires c in w.sessions
  {
    exists t :: t in w.puts && w.puts[t].client == c && DeliveredInto(w.puts[t], i, w.sessions[c].born)
  }

  /** A session's table holds nothing that puts did not bring into this very session. */
  ghost predicate SlotsPut(w: World) {
    forall c, i: nat | c in w.sessions && w.sessions[c].table.Slot(i).Some? :: PutSome(w, c, i)
  }

  ghost predicate PutsProgress(w: World) {
    && (forall c | c in w.sessions :: w.sessions[c].born < w.births)
    && (forall t | t in w.puts :: PutProgress(w, w.puts[t]))
    && SlotsPut(w)
  }

  /** Some get of `c` has received a message for id `i`. */
  ghost predicate ReadSome(w: World, c: ClientId, i: nat) {
    exists t :: t in w.gets && w.gets[t].client == c && HasIdIn(w.gets[t].done, i)
  }

  /** A client's table holds nothing its gets did not bring. */
  ghost predicate SlotsRead(w: World) {
    forall c, i: nat | c in w.tables && w.tables[c].Slot(i).Some? :: ReadSome(w, c, i)
  }

  ghost predicate GetsProgress(w: World)
    requires w.WellFormed()
  {
    forall t | t in w.gets && w.gets[t].clean :: FilledFor(w.tables[w.gets[t].client], w.gets[t].done)
  }

  ghost predicate ProgressSound(w: World)
    requires w.WellFormed()
  {
    PutsProgress(w) && GetsProgress(w) && SlotsRead(w)
  }

  ghost predicate Inv(w: World) {
    && w.WellFormed()
    && (forall p | p in w.regs :: w.regs[p].Valid())
    && TablesSound(w) && StreamsSound(w) && ProgressSound(w)
  }

  /** The later world runs on the same processes and clients, and every registry has only grown. */
  ghost predicate Grows(w: World, later: World) {
    && later.server == w.server && later.home == w.home && later.regs.Keys == w.regs.Keys
    && (forall p | p in w.regs :: w.regs[p].GrowsTo(later.regs[p]))
  }

  // ---------------------------------------------------------------- preservation, step by step

  lemma SoundTableGrows(
      table: Table, sender: RegistryState, receiver: RegistryState, sender': RegistryState, receiver': RegistryState)
    requires SoundTable(table, sender, receiver) && sender.GrowsTo(sender') && receiver.GrowsTo(receiver')
    ensures SoundTable(table, sender', receiver')
  {
    forall i: nat | table.Slot(i).Some?
      ensures receiver'.Holds(table.Slot(i).value) && Announced(sender', i, table.Slot(i).value)
    {
      var y :| sender.Holds(y) && y.unique == i && y.name == table.Slot(i).value.name && y.ty == table.Slot(i).value.ty;
      assert sender'.Holds(y);
    }
  }

  lemma SnapshotStaysHeld(t: Transfer, sender: RegistryState, sender': RegistryState)
    requires CarriesSnapshot(t, sender) && sender.GrowsTo(sender')
    ensures CarriesSnapshot(t, sender')
  {
  }

  /** Growing registries alone disturbs no table and no stream. */
  lemma GrowthKeepsTables(w: World, w': World)
    requires w.WellFormed() && TablesSound(w) && Grows(w, w') && w' == w.(regs := w'.regs)
    ensures w'.WellFormed() && TablesSound(w')
  {
    hide RegistryState.GrowsTo, SoundTable;
    forall c | c in w'.sessions
      ensures SoundTable(w'.sessions[c].table, w'.ClientReg(c), w'.ServerReg())
    {
      SoundTableGrows(w.sessions[c].table, w.ClientReg(c), w.ServerReg(), w'.ClientReg(c), w'.ServerReg());
    }
    forall c | c in w'.tables
      ensures SoundTable(w'.tables[c], w'.ServerReg(), w'.ClientReg(c))
    {
      SoundTableGrows(w.tables[c], w.ServerReg(), w.ClientReg(c), w'.ServerReg(), w'.ClientReg(c));
    }
  }

  lemma GrowthKeepsStreams(w: World, w': World)
    requires w.WellFormed() && StreamsSound(w) && Grows(w, w') && w' == w.(regs := w'.regs)
    ensures w'.WellFormed() && StreamsSound(w')
  {
    hide RegistryState.GrowsTo, CarriesSnapshot;
    forall t | t in w'.puts
      ensures CarriesSnapshot(w'.puts[t], w'.ClientReg(w'.puts[t].client))
    {
      SnapshotStaysHeld(w.puts[t], w.ClientReg(w.puts[t].client), w'.ClientReg(w.puts[t].client));
    }
    forall t | t in w'.gets
      ensures CarriesSnapshot(w'.gets[t], w'.ServerReg())
    {
      SnapshotStaysHeld(w.gets[t], w.ServerReg(), w'.ServerReg());
    }
  }

  lemma GrowthKeepsProgress(w: World, w': World)
    requires w.WellFormed() && ProgressSound(w) && w'.WellFormed() && w' == w.(regs := w'.regs)
    ensures ProgressSound(w')
  {
    ReadStays(w, w');
    PutStays(w, w');
    hide FilledFor, PutProgress, SlotsRead, SlotsPut;
    forall t | t in w'.puts
      ensures PutProgress(w', w'.puts[t])
    {
      ProgressStays(w, w', w.puts[t]);
    }
  }

  lemma OneRegistryGrows(w: World, p: Process, r: RegistryState)
    requires p in w.regs && w.regs[p].GrowsTo(r)
    ensures Grows(w, w.(regs := w.regs[p := r]))
  {
    hide RegistryState.GrowsTo;
    forall q | q in w.regs
      ensures w.regs[q].GrowsTo(w.regs[q])
    {
      GrowsToItself(w.regs[q]);
    }
  }

  lemma RegistryStepGrows(w: World, p: Process, r: RegistryState)
    requires Inv(w) && p in w.regs && r.Valid() && w.regs[p].GrowsTo(r)
    ensures Grows(w, w.(regs := w.regs[p := r])) && Inv(w.(regs := w.regs[p := r]))
  {
    hide RegistryState.Valid, RegistryState.GrowsTo, TablesSound, StreamsSound, ProgressSound, Grows;
    var w' := w.(regs := w.regs[p := r]);
    OneRegistryGrows(w, p, r);
    GrowthKeepsTables(w, w');
    GrowthKeepsStreams(w, w');
    GrowthKeepsProgress(w, w');
  }

  lemma StoringKeepsSound(
      table: Table, sender: RegistryState, receiver: RegistryState, version: nat, msg: Info, info: Info)
    requires SoundTable(table, sender, receiver)
    requires sender.Holds(msg) && receiver.Holds(info) && info.name == msg.name && info.ty == msg.ty
    ensures SoundTable(table.Store(version, msg.unique, info), sender, receiver)
  {
    var table' := table.Store(version, msg.unique, info);
    forall i: nat | table'.Slot(i).Some?
      ensures receiver.Holds(table'.Slot(i).value) && Announced(sender, i, table'.Slot(i).value)
    {
      if i != msg.unique {
        assert table'.Slot(i) == table.Slot(i);
      }
    }
  }

  /** A received message leaves the table sound, fills at most its own slot and empties none. */
  lemma ReceiveIsSound(
      side: Side, sender: RegistryState, receiver: RegistryState, table: Table, version: nat, msg: Info)
    requires receiver.Valid() && sender.Holds(msg) && SoundTable(table, sender, receiver)
    ensures var d := Receive(side, receiver, table, version, msg);
            && d.reg.Valid() && receiver.GrowsTo(d.reg)
            && SoundTable(d.table, sender, d.reg)
            && (forall i: nat | table.Slot(i).Some? :: d.table.Slot(i).Some?)
            && (forall i: nat | d.table.Slot(i).Some? && i != msg.unique :: table.Slot(i).Some?)
            && (!d.thrown ==> d.table.Slot(msg.unique).Some?)
            && (d.thrown ==> forall i: nat | d.table.Slot(i).Some? :: table.Slot(i).Some?)
  {
    AllocateTransientSafe(receiver, msg.ty, msg.name, msg.readable);
    var d := Receive(side, receiver, table, version, msg);
    SoundTableGrows(table, sender, receiver, sender, d.reg);
    if d.thrown {
      assert forall i: nat :: d.table.Slot(i) == table.Slot(i);
    } else {
      StoringKeepsSound(table, sender, d.reg, version, msg, d.reg.Lookup(msg.name).value);
    }
  }

  lemma GrowsReflexive(w: World)
    ensures Grows(w, w)
  {
    hide RegistryState.GrowsTo;
    forall p | p in w.regs
      ensures w.regs[p].GrowsTo(w.regs[p])
    {
      GrowsToItself(w.regs[p]);
    }
  }

  lemma EmptyTableIsSound(sender: RegistryState, receiver: RegistryState)
    ensures SoundTable(EMPTY_TABLE, sender, receiver)
  {
  }

  lemma NoProgressYet(w: World, put: Transfer)
    requires put.done == [] && put.into == []
    ensures PutProgress(w, put)
  {
  }

  lemma NothingToFill(table: Table)
    ensures FilledFor(table, [])
  {
  }

  lemma ProgressStays(w: World, w': World, put: Transfer)
    requires PutProgress(w, put) && w.births <= w'.births
    requires put.client in w'.sessions && w'.sessions[put.client].born < w.births ==>
               put.client in w.sessions && w'.sessions[put.client] == w.sessions[put.client]
    ensures PutProgress(w', put)
  {
  }

  /** Sessions as they were or new and empty, and every put still there: what was delivered was delivered. */
  lemma PutStays(w: World, w': World)
    requires SlotsPut(w)
    requires forall c | c in w'.sessions ::
               w'.sessions[c].table == EMPTY_TABLE || (c in w.sessions && w'.sessions[c] == w.sessions[c])
    requires forall t | t in w.puts :: t in w'.puts && w'.puts[t] == w.puts[t]
    ensures SlotsPut(w')
  {
    forall c, i: nat | c in w'.sessions && w'.sessions[c].table.Slot(i).Some?
      ensures PutSome(w', c, i)
    {
      assert PutSome(w, c, i);
    }
  }

  /** Tables as they were, and every get still there: what was read was read. */
  lemma ReadStays(w: World, w': World)
    requires SlotsRead(w) && w'.tables == w.tables
    requires forall t | t in w.gets :: t in w'.gets && w'.gets[t] == w.gets[t]
    ensures SlotsRead(w')
  {
    forall c, i: nat | c in w'.tables && w'.tables[c].Slot(i).Some?
      ensures ReadSome(w', c, i)
    {
      assert ReadSome(w, c, i);
    }
  }

  lemma NothingReceived(w: World, w': World)
    requires Grows(w, w) && w'.server == w.server && w'.home == w.home && w'.regs == w.regs
    ensures Grows(w, w')
  {
  }

  /** Sessions come, with an empty table, or go; all else stays. */
  ghost predicate SessionsChanged(w: World, w': World) {
    && w' == w.(sessions := w'.sessions, births := w'.births)
    && w.births <= w'.births && w'.sessions.Keys <= w.home.Keys
    && (forall c | c in w'.sessions && !(c in w.sessions && w'.sessions[c] == w.sessions[c]) ::
          w'.sessions[c].table == EMPTY_TABLE && w.births <= w'.sessions[c].born < w'.births)
  }

  lemma SessionsChangeKeepsSound(w: World, w': World)
    requires w.WellFormed() && TablesSound(w) && StreamsSound(w) && SessionsChanged(w, w')
    ensures w'.WellFormed() && w'.regs == w.regs && TablesSound(w') && StreamsSound(w')
  {
    hide SoundTable, CarriesSnapshot;
    forall c | c in w'.sessions && w'.sessions[c].table == EMPTY_TABLE
      ensures SoundTable(w'.sessions[c].table, w'.ClientReg(c), w'.ServerReg())
    {
      EmptyTableIsSound(w'.ClientReg(c), w'.ServerReg());
    }
  }

  lemma SessionsChangeKeepsProgress(w: World, w': World)
    requires w.WellFormed() && ProgressSound(w) && SessionsChanged(w, w')
    ensures w'.WellFormed() && ProgressSound(w')
  {
    ReadStays(w, w');
    PutStays(w, w');
    hide FilledFor, PutProgress, SlotsRead, SlotsPut;
    forall t | t in w'.puts
      ensures PutProgress(w', w'.puts[t])
    {
      ProgressStays(w, w', w.puts[t]);
    }
  }

  lemma SessionsChangeKeepsInv(w: World, w': World)
    requires Inv(w) && SessionsChanged(w, w')
    ensures Inv(w') && Grows(w, w')
  {
    hide RegistryState.Valid, TablesSound, StreamsSound, ProgressSound, Grows;
    SessionsChangeKeepsSound(w, w');
    SessionsChangeKeepsProgress(w, w');
    GrowsReflexive(w);
    NothingReceived(w, w');
  }

  lemma ReceivedCarriesSnapshot(t: Transfer, born: nat, thrown: bool, sender: RegistryState)
    requires CarriesSnapshot(t, sender) && t.pending != []
    ensures CarriesSnapshot(Received(t, born, thrown), sender)
    ensures CarriesSnapshot(t.(dead := true), sender)
  {
    assert t.done + t.pending == Received(t, born, thrown).done + Received(t, born, thrown).pending;
  }

  lemma HeadIsHeld(t: Transfer, sender: RegistryState)
    requires CarriesSnapshot(t, sender) && t.pending != []
    ensures sender.Holds(t.pending[0])
  {
    assert (t.done + t.pending)[|t.done|] == t.pending[0];
  }

  ghost predicate FillsNoLess(table: Table, table': Table) {
    forall i: nat | table.Slot(i).Some? :: table'.Slot(i).Some?
  }

  ghost predicate FillsOnly(table: Table, table': Table, id: nat) {
    forall i: nat | table'.Slot(i).Some? && i != id :: table.Slot(i).Some?
  }

  lemma FilledForKept(table: Table, table': Table, msgs: seq<Info>)
    requires FilledFor(table, msgs) && FillsNoLess(table, table')
    ensures FilledFor(table', msgs)
  {
  }

  /** The stream as it stands after its next message was taken, or raised an exception. */
  ghost predicate Advanced(t: Transfer, t': Transfer, born: nat, table': Table) {
    && t'.client == t.client
    && ( || (t'.done == t.done && t'.into == t.into)
         || ( && t.pending != [] && t'.done == t.done + [t.pending[0]] && t'.into == t.into + [born]
              && table'.Slot(t.pending[0].unique).Some?))
  }

  /** The refilled table has at most the slot more that the stream's advance accounts for. */
  ghost predicate FilledByAdvance(t: Transfer, t': Transfer, table: Table, table': Table) {
    forall i: nat | table'.Slot(i).Some? ::
      table.Slot(i).Some? || (t.pending != [] && t'.done == t.done + [t.pending[0]] && i == t.pending[0].unique)
  }

  /** A session's table is refilled, and the stream that did it advances. */
  ghost predicate SessionUpdated(w: World, t: StreamId, put': Transfer, table': Table, w': World)
    requires w.WellFormed()
  {
    && t in w.puts && w.puts[t].client in w.sessions
    && var c := w.puts[t].client; var session := w.sessions[c];
       && SoundTable(table', w.ClientReg(c), w.ServerReg())
       && FillsNoLess(session.table, table')
       && FilledByAdvance(w.puts[t], put', session.table, table')
       && CarriesSnapshot(put', w.ClientReg(c))
       && Advanced(w.puts[t], put', session.born, table')
       && w' == w.(sessions := w.sessions[c := session.(table := table')], puts := w.puts[t := put'])
  }

  lemma SessionUpdateKeepsSound(w: World, t: StreamId, put': Transfer, table': Table, w': World)
    requires w.WellFormed() && TablesSound(w) && StreamsSound(w) && SessionUpdated(w, t, put', table', w')
    ensures w'.WellFormed() && w'.regs == w.regs && TablesSound(w') && StreamsSound(w')
  {
    hide SoundTable, CarriesSnapshot, FillsNoLess;
  }

  lemma SessionUpdateKeepsPut(w: World, t: StreamId, put': Transfer, table': Table, w': World)
    requires w.WellFormed() && PutsProgress(w) && SessionUpdated(w, t, put', table', w')
    ensures SlotsPut(w')
  {
    hide SoundTable, CarriesSnapshot, FillsNoLess, FilledInto;
    var put, born := w.puts[t], w.sessions[w.puts[t].client].born;
    assert PutProgress(w, put);
    forall c, i: nat | c in w'.sessions && w'.sessions[c].table.Slot(i).Some?
      ensures PutSome(w', c, i)
    {
      if c == put.client && !w.sessions[c].table.Slot(i).Some? {
        assert put'.done[|put.done|] == put.pending[0] && put'.into[|put.into|] == born;
        assert DeliveredInto(w'.puts[t], i, born);
      } else {
        assert PutSome(w, c, i);
        var u :| u in w.puts && w.puts[u].client == c && DeliveredInto(w.puts[u], i, w.sessions[c].born);
        if u == t {
          AdvancedHasDelivered(put, put', born, table', i, w.sessions[c].born);
        }
        assert DeliveredInto(w'.puts[u], i, w'.sessions[c].born);
      }
    }
  }

  lemma AdvancedHasDelivered(t: Transfer, t': Transfer, born: nat, table': Table, i: nat, into: nat)
    requires Advanced(t, t', born, table') && |t.into| == |t.done| && DeliveredInto(t, i, into)
    ensures DeliveredInto(t', i, into)
  {
    var k :| 0 <= k < |t.done| && k < |t.into| && t.done[k].unique == i && t.into[k] == into;
    assert t'.done[k] == t.done[k] && t'.into[k] == t.into[k];
  }

  lemma PutProgressStays(w: World, t: StreamId, put': Transfer, table': Table, w': World, u: StreamId)
    requires w.WellFormed() && PutsProgress(w) && SessionUpdated(w, t, put', table', w') && u in w.puts
    ensures PutProgress(w', w'.puts[u])
  {
    hide SoundTable, CarriesSnapshot, FillsNoLess, FilledInto, SlotsPut, FilledByAdvance;
    var c := w.puts[t].client;
    assert PutProgress(w, w.puts[u]);
    if w.puts[u].client == c {
      FilledIntoKept(w.sessions[c].table, table', w.puts[u], w.sessions[c].born);
    }
    if u == t {
      AdvancedIsFilled(w.puts[t], put', w.sessions[c].born, table');
    }
  }

  lemma SessionUpdateKeepsProgress(w: World, t: StreamId, put': Transfer, table': Table, w': World)
    requires w.WellFormed() && ProgressSound(w) && SessionUpdated(w, t, put', table', w')
    ensures w'.WellFormed() && ProgressSound(w')
  {
    ReadStays(w, w');
    SessionUpdateKeepsPut(w, t, put', table', w');
    hide SoundTable, CarriesSnapshot, FillsNoLess, FilledFor, FilledInto, SlotsRead, SlotsPut, FilledByAdvance;
    hide Advanced, PutProgress;
    forall u | u in w'.puts
      ensures PutProgress(w', w'.puts[u])
    {
      PutProgressStays(w, t, put', table', w', u);
    }
  }

  lemma FilledIntoKept(table: Table, table': Table, put: Transfer, born: nat)
    requires FilledInto(table, put, born) && FillsNoLess(table, table')
    ensures FilledInto(table', put, born)
  {
  }

  lemma AdvancedIsFilled(t: Transfer, t': Transfer, born: nat, table': Table)
    requires Advanced(t, t', born, table')
    ensures FilledFor(table', t.done) ==> FilledFor(table', t'.done)
    ensures |t.into| == |t.done| && FilledInto(table', t, born) ==> FilledInto(table', t', born)
  {
  }

  lemma SessionUpdateKeepsInv(w: World, t: StreamId, put': Transfer, table': Table, w': World)
    requires Inv(w) && SessionUpdated(w, t, put', table', w')
    ensures Inv(w')
  {
    hide RegistryState.Valid, SessionUpdated, TablesSound, StreamsSound, ProgressSound;
    SessionUpdateKeepsSound(w, t, put', table', w');
    SessionUpdateKeepsProgress(w, t, put', table', w');
  }

  lemma SessionFacts(w: World, t: StreamId)
    requires Inv(w) && t in w.puts && w.puts[t].client in w.sessions
    ensures var c := w.puts[t].client;
            && w.ServerReg().Valid() && CarriesSnapshot(w.puts[t], w.ClientReg(c))
            && SoundTable(w.sessions[c].table, w.ClientReg(c), w.ServerReg())
  {
    hide RegistryState.Valid, SoundTable, CarriesSnapshot, ProgressSound;
  }

  function AfterPut(put: Transfer, born: nat, d: Delivery): Transfer
    requires put.pending != []
  {
    if d.thrown then put.(dead := true) else Received(put, born, false)
  }

  /** What one message does to a table and to the stream it came in, whatever world they are in. */
  lemma PutMessage(put: Transfer, session: Session, sender: RegistryState, receiver: RegistryState)
    requires put.pending != [] && CarriesSnapshot(put, sender) && receiver.Valid()
    requires SoundTable(session.table, sender, receiver)
    ensures var d := Receive(Server, receiver, session.table, put.version, put.pending[0]);
            && SoundTable(d.table, sender, d.reg) && FillsNoLess(session.table, d.table)
            && FilledByAdvance(put, AfterPut(put, session.born, d), session.table, d.table)
            && CarriesSnapshot(AfterPut(put, session.born, d), sender)
            && Advanced(put, AfterPut(put, session.born, d), session.born, d.table)
            && d.reg.Valid() && receiver.GrowsTo(d.reg)
  {
    HeadIsHeld(put, sender);
    ReceiveIsSound(Server, sender, receiver, session.table, put.version, put.pending[0]);
    ReceivedCarriesSnapshot(put, session.born, false, sender);
    hide RegistryState.Valid, RegistryState.GrowsTo, RegistryState.Holds, SoundTable, CarriesSnapshot, Receive;
  }

  lemma PutUpdatesSession(w: World, t: StreamId, c: ClientId, session: Session, d: Delivery, w1: World)
    requires w.WellFormed() && t in w.puts && w.puts[t].pending != [] && c == w.puts[t].client
    requires c in w.sessions && session == w.sessions[c]
    requires w.home[c] in w1.regs && w.ClientReg(c).GrowsTo(w1.regs[w.home[c]])
    requires w1 == w.(regs := w.regs[w.server := d.reg])
    requires d == Receive(Server, w.ServerReg(), session.table, w.puts[t].version, w.puts[t].pending[0])
    requires SoundTable(d.table, w.ClientReg(c), d.reg) && FillsNoLess(session.table, d.table)
    requires FilledByAdvance(w.puts[t], AfterPut(w.puts[t], session.born, d), session.table, d.table)
    requires CarriesSnapshot(AfterPut(w.puts[t], session.born, d), w.ClientReg(c))
    requires Advanced(w.puts[t], AfterPut(w.puts[t], session.born, d), session.born, d.table)
    ensures w1.WellFormed() && SessionUpdated(w1, t, AfterPut(w.puts[t], session.born, d), d.table, PutStep(w, t))
  {
    GrowsToItself(d.reg);
    hide RegistryState.GrowsTo, SoundTable, CarriesSnapshot, Receive, FillsNoLess, FilledByAdvance, Advanced, AfterPut;
    SoundTableGrows(d.table, w.ClientReg(c), d.reg, w1.ClientReg(c), d.reg);
    SnapshotStaysHeld(AfterPut(w.puts[t], session.born, d), w.ClientReg(c), w1.ClientReg(c));
    PutStepIs(w, t);
  }

  lemma PutStepIs(w: World, t: StreamId)
    requires w.server in w.regs && t in w.puts && w.puts[t].pending != [] && w.puts[t].client in w.sessions
    ensures var put, session := w.puts[t], w.sessions[w.puts[t].client];
            var d := Receive(Server, w.ServerReg(), session.table, put.version, put.pending[0]);
            PutStep(w, t) == w.(regs := w.regs[w.server := d.reg],
                                sessions := w.sessions[put.client := session.(table := d.table)],
                                puts := w.puts[t := AfterPut(put, session.born, d)])
  {
    hide Receive;
  }

  lemma ClientGrows(w: World, w1: World, c: ClientId)
    requires w.WellFormed() && Grows(w, w1) && c in w.home
    ensures w.home[c] in w1.regs && w.ClientReg(c).GrowsTo(w1.regs[w.home[c]])
    ensures w.ServerReg().GrowsTo(w1.regs[w.server])
  {
    hide RegistryState.GrowsTo;
  }

  /** One put message into an existing session. */
  lemma PutIntoSession(w: World, t: StreamId)
    requires Inv(w) && t in w.puts && w.puts[t].pending != [] && w.puts[t].client in w.sessions
    ensures Inv(PutStep(w, t)) && Grows(w, PutStep(w, t))
  {
    SessionFacts(w, t);
    InvIsWellFormed(w);
    var put, c := w.puts[t], w.puts[t].client;
    var session := w.sessions[c];
    var d := Receive(Server, w.ServerReg(), session.table, put.version, put.pending[0]);
    PutMessage(put, session, w.ClientReg(c), w.ServerReg());
    hide RegistryState.Valid, RegistryState.GrowsTo, RegistryState.Holds, SoundTable, CarriesSnapshot, Receive, Inv;
    hide SessionUpdated, TablesSound, StreamsSound, ProgressSound, Grows, FillsNoLess, FilledByAdvance;
    hide Advanced, AfterPut;
    var w1 := w.(regs := w.regs[w.server := d.reg]);
    RegistryStepGrows(w, w.server, d.reg);
    ClientGrows(w, w1, c);
    PutUpdatesSession(w, t, c, session, d, w1);
    SessionUpdateKeepsInv(w1, t, AfterPut(put, session.born, d), d.table, PutStep(w, t));
    PutStepIs(w, t);
    RegsDecideGrowth(w, w1, PutStep(w, t));
  }

  lemma RegsDecideGrowth(w: World, w1: World, w2: World)
    requires Grows(w, w1) && w2.regs == w1.regs && w2.server == w1.server && w2.home == w1.home
    ensures Grows(w, w2)
  {
  }

  lemma PutStepKeepsInv(w: World, t: StreamId)
    requires Inv(w) && t in w.puts && w.puts[t].pending != []
    ensures Inv(PutStep(w, t)) && Grows(w, PutStep(w, t))
  {
    hide RegistryState.Valid, SoundTable, CarriesSnapshot, FilledFor, Receive, Inv, PutProgress;
    assert w.WellFormed() && w.puts[t].client in w.home by {
      InvIsWellFormed(w);
    }
    var w1 := w.WithSession(w.puts[t].client);
    SessionsChangeKeepsInv(w, w1);
    PutIntoSession(w1, t);
    assert PutStep(w, t) == PutStep(w1, t);
  }

  lemma InvIsWellFormed(w: World)
    requires Inv(w)
    ensures w.WellFormed()
  {
  }

  /** A client's table is refilled, and the stream that did it advances. */
  ghost predicate TableUpdated(w: World, t: StreamId, get': Transfer, table': Table, w': World)
    requires w.WellFormed()
  {
    && t in w.gets
    && var c := w.gets[t].client;
       && SoundTable(table', w.ServerReg(), w.ClientReg(c))
       && FillsNoLess(w.tables[c], table')
       && w.gets[t].pending != [] && get'.done == w.gets[t].done + [w.gets[t].pending[0]]
       && FillsOnly(w.tables[c], table', w.gets[t].pending[0].unique)
       && CarriesSnapshot(get', w.ServerReg())
       && get'.client == c && (get'.clean ==> w.gets[t].clean && Advanced(w.gets[t], get', 0, table'))
       && w' == w.(tables := w.tables[c := table'], gets := w.gets[t := get'])
  }

  lemma TableUpdateKeepsSound(w: World, t: StreamId, get': Transfer, table': Table, w': World)
    requires w.WellFormed() && TablesSound(w) && StreamsSound(w) && TableUpdated(w, t, get', table', w')
    ensures w'.WellFormed() && w'.regs == w.regs && TablesSound(w') && StreamsSound(w')
  {
    hide SoundTable, CarriesSnapshot, FillsNoLess, Advanced;
  }

  lemma TableUpdateKeepsRead(w: World, t: StreamId, get': Transfer, table': Table, w': World)
    requires w.WellFormed() && SlotsRead(w) && TableUpdated(w, t, get', table', w')
    ensures SlotsRead(w')
  {
    hide SoundTable, CarriesSnapshot, FillsNoLess, Advanced;
    var msg := w.gets[t].pending[0];
    HasIdAppended(w.gets[t].done, msg);
    forall c, i: nat | c in w'.tables && w'.tables[c].Slot(i).Some?
      ensures ReadSome(w', c, i)
    {
      if c == w.gets[t].client && i == msg.unique {
        assert HasIdIn(w'.gets[t].done, i);
      } else {
        assert w.tables[c].Slot(i).Some?;
        var u :| u in w.gets && w.gets[u].client == c && HasIdIn(w.gets[u].done, i);
        assert HasIdIn(w'.gets[u].done, i);
      }
    }
  }

  lemma HasIdAppended(msgs: seq<Info>, msg: Info)
    ensures HasIdIn(msgs + [msg], msg.unique)
    ensures forall i: nat | HasIdIn(msgs, i) :: HasIdIn(msgs + [msg], i)
  {
    assert (msgs + [msg])[|msgs|] == msg;
    forall i: nat | HasIdIn(msgs, i)
      ensures HasIdIn(msgs + [msg], i)
    {
      var k :| 0 <= k < |msgs| && msgs[k].unique == i;
      assert (msgs + [msg])[k].unique == i;
    }
  }

  lemma TableUpdateKeepsProgress(w: World, t: StreamId, get': Transfer, table': Table, w': World)
    requires w.WellFormed() && ProgressSound(w) && TableUpdated(w, t, get', table', w')
    ensures w'.WellFormed() && ProgressSound(w')
  {
    PutStays(w, w');
    hide SoundTable, CarriesSnapshot, FillsNoLess, FilledFor, Advanced, PutProgress, SlotsRead, SlotsPut, FillsOnly;
    TableUpdateKeepsRead(w, t, get', table', w');
    var c := w.gets[t].client;
    forall u | u in w'.gets && w'.gets[u].clean
      ensures FilledFor(w'.tables[w'.gets[u].client], w'.gets[u].done)
    {
      if w.gets[u].client == c {
        FilledForKept(w.tables[c], table', w.gets[u].done);
      }
      if u == t {
        AdvancedIsFilled(w.gets[t], get', 0, table');
      }
    }
    forall u | u in w'.puts
      ensures PutProgress(w', w'.puts[u])
    {
      ProgressStays(w, w', w.puts[u]);
    }
  }

  lemma TableUpdateKeepsInv(w: World, t: StreamId, get': Transfer, table': Table, w': World)
    requires Inv(w) && TableUpdated(w, t, get', table', w')
    ensures Inv(w')
  {
    hide RegistryState.Valid, TableUpdated, TablesSound, StreamsSound, ProgressSound;
    TableUpdateKeepsSound(w, t, get', table', w');
    TableUpdateKeepsProgress(w, t, get', table', w');
  }

  lemma TableFacts(w: World, t: StreamId)
    requires Inv(w) && t in w.gets
    ensures var c := w.gets[t].client;
            && w.ClientReg(c).Valid() && CarriesSnapshot(w.gets[t], w.ServerReg())
            && SoundTable(w.tables[c], w.ServerReg(), w.ClientReg(c))
  {
    hide RegistryState.Valid, SoundTable, CarriesSnapshot, ProgressSound;
  }

  lemma GetMessage(get: Transfer, table: Table, sender: RegistryState, receiver: RegistryState)
    requires get.pending != [] && CarriesSnapshot(get, sender)
    requires receiver.Valid() && SoundTable(table, sender, receiver)
    ensures var d := Receive(Client, receiver, table, get.version, get.pending[0]);
            && SoundTable(d.table, sender, d.reg) && FillsNoLess(table, d.table)
            && FillsOnly(table, d.table, get.pending[0].unique)
            && CarriesSnapshot(Received(get, 0, d.thrown), sender)
            && (!d.thrown ==> Advanced(get, Received(get, 0, d.thrown), 0, d.table))
            && d.reg.Valid() && receiver.GrowsTo(d.reg)
  {
    HeadIsHeld(get, sender);
    ReceiveIsSound(Client, sender, receiver, table, get.version, get.pending[0]);
    ReceivedCarriesSnapshot(get, 0, Receive(Client, receiver, table, get.version, get.pending[0]).thrown, sender);
    hide RegistryState.Valid, RegistryState.GrowsTo, RegistryState.Holds, SoundTable, CarriesSnapshot, Receive;
  }

  lemma GetUpdatesTable(w: World, t: StreamId, c: ClientId, d: Delivery, w1: World)
    requires w.WellFormed() && t in w.gets && w.gets[t].pending != [] && c == w.gets[t].client
    requires w.server in w1.regs && w.ServerReg().GrowsTo(w1.regs[w.server])
    requires w1 == w.(regs := w.regs[w.home[c] := d.reg])
    requires d == Receive(Client, w.ClientReg(c), w.tables[c], w.gets[t].version, w.gets[t].pending[0])
    requires SoundTable(d.table, w.ServerReg(), d.reg) && FillsNoLess(w.tables[c], d.table)
    requires FillsOnly(w.tables[c], d.table, w.gets[t].pending[0].unique)
    requires CarriesSnapshot(Received(w.gets[t], 0, d.thrown), w.ServerReg())
    requires !d.thrown ==> Advanced(w.gets[t], Received(w.gets[t], 0, d.thrown), 0, d.table)
    ensures w1.WellFormed() && TableUpdated(w1, t, Received(w.gets[t], 0, d.thrown), d.table, GetStep(w, t))
  {
    GrowsToItself(d.reg);
    hide RegistryState.GrowsTo, SoundTable, CarriesSnapshot, Receive, FillsNoLess, FillsOnly, Advanced;
    SoundTableGrows(d.table, w.ServerReg(), d.reg, w1.ServerReg(), d.reg);
    SnapshotStaysHeld(Received(w.gets[t], 0, d.thrown), w.ServerReg(), w1.ServerReg());
  }

  lemma GetStepIs(w: World, t: StreamId)
    requires w.WellFormed() && t in w.gets && w.gets[t].pending != []
    ensures var c := w.gets[t].client;
            var d := Receive(Client, w.ClientReg(c), w.tables[c], w.gets[t].version, w.gets[t].pending[0]);
            GetStep(w, t).regs == w.regs[w.home[c] := d.reg]
    ensures GetStep(w, t).server == w.server && GetStep(w, t).home == w.home
  {
    hide Receive;
  }

  lemma GetStepKeepsInv(w: World, t: StreamId)
    requires Inv(w) && t in w.gets && w.gets[t].pending != []
    ensures Inv(GetStep(w, t)) && Grows(w, GetStep(w, t))
  {
    TableFacts(w, t);
    InvIsWellFormed(w);
    var get, c := w.gets[t], w.gets[t].client;
    var d := Receive(Client, w.ClientReg(c), w.tables[c], get.version, get.pending[0]);
    GetMessage(get, w.tables[c], w.ServerReg(), w.ClientReg(c));
    hide RegistryState.Valid, RegistryState.GrowsTo, RegistryState.Holds, SoundTable, CarriesSnapshot, Receive, Inv;
    hide TableUpdated, TablesSound, StreamsSound, ProgressSound, Grows, FillsNoLess, FillsOnly, Advanced, GetStep;
    var w1 := w.(regs := w.regs[w.home[c] := d.reg]);
    RegistryStepGrows(w, w.home[c], d.reg);
    ClientGrows(w, w1, c);
    GetUpdatesTable(w, t, c, d, w1);
    TableUpdateKeepsInv(w1, t, Received(get, 0, d.thrown), d.table, GetStep(w, t));
    GetStepIs(w, t);
    RegsDecideGrowth(w, w1, GetStep(w, t));
  }

  lemma FreshSnapshot(t: Transfer, sender: RegistryState)
    requires sender.Valid() && sender.Enumerates(t.pending) && t.done == [] && t.version == sender.unique
    ensures CarriesSnapshot(t, sender)
  {
    SnapshotHasVersionManyEntries(sender, t.pending);
    assert t.done + t.pending == t.pending;
    forall x | x in t.pending
      ensures x.unique < sender.unique
    {
      assert sender.Holds(x);
    }
  }

  /** New streams join, with nothing received; all else stays. */
  ghost predicate StreamStarted(w: World, w': World)
    requires w.WellFormed()
  {
    && w' == w.(puts := w'.puts, gets := w'.gets)
    && (forall t | t in w.gets :: t in w'.gets && w'.gets[t] == w.gets[t])
    && (forall t | t in w.puts :: t in w'.puts && w'.puts[t] == w.puts[t])
    && (forall t | t in w'.puts && !(t in w.puts && w'.puts[t] == w.puts[t]) ::
          && w'.puts[t].client in w.home && w'.puts[t].done == [] && w'.puts[t].into == []
          && CarriesSnapshot(w'.puts[t], w.ClientReg(w'.puts[t].client)))
    && (forall t | t in w'.gets && !(t in w.gets && w'.gets[t] == w.gets[t]) ::
          w'.gets[t].client in w.home && w'.gets[t].done == [] && CarriesSnapshot(w'.gets[t], w.ServerReg()))
  }

  lemma StartIsFresh(w: World, a: Action)
    requires Inv(w) && Enabled(w, a) && (a.StartPut? || a.StartGet?)
    ensures StreamStarted(w, Apply(w, a))
  {
    hide RegistryState.Valid, RegistryState.GrowsTo, RegistryState.Holds, RegistryState.Enumerates;
    hide CarriesSnapshot, TablesSound, StreamsSound, ProgressSound;
    if a.StartPut? {
      FreshSnapshot(Apply(w, a).puts[a.t], w.ClientReg(a.c));
    } else {
      FreshSnapshot(Apply(w, a).gets[a.t], w.ServerReg());
    }
  }

  lemma FreshStreamKeepsSound(w: World, w': World)
    requires w.WellFormed() && TablesSound(w) && StreamsSound(w) && StreamStarted(w, w')
    ensures w'.WellFormed() && w'.regs == w.regs && TablesSound(w') && StreamsSound(w')
  {
    hide SoundTable, CarriesSnapshot;
  }

  lemma FreshStreamKeepsProgress(w: World, w': World)
    requires w.WellFormed() && ProgressSound(w) && StreamStarted(w, w')
    ensures w'.WellFormed() && ProgressSound(w')
  {
    ReadStays(w, w');
    PutStays(w, w');
    hide CarriesSnapshot, FilledFor, PutProgress, SlotsRead, SlotsPut;
    forall t | t in w'.puts
      ensures PutProgress(w', w'.puts[t])
    {
      if t in w.puts && w'.puts[t] == w.puts[t] {
        ProgressStays(w, w', w.puts[t]);
      } else {
        NoProgressYet(w', w'.puts[t]);
      }
    }
    forall t | t in w'.gets && w'.gets[t].clean
      ensures FilledFor(w'.tables[w'.gets[t].client], w'.gets[t].done)
    {
      NothingToFill(w'.tables[w'.gets[t].client]);
    }
  }

  lemma StartKeepsInv(w: World, a: Action)
    requires Inv(w) && Enabled(w, a) && (a.StartPut? || a.StartGet?)
    ensures Inv(Apply(w, a)) && Grows(w, Apply(w, a))
  {
    hide RegistryState.Valid, StreamStarted, TablesSound, StreamsSound, ProgressSound, Grows, Enabled;
    var w' := Apply(w, a);
    StartIsFresh(w, a);
    FreshStreamKeepsSound(w, w');
    FreshStreamKeepsProgress(w, w');
    GrowsReflexive(w);
    NothingReceived(w, w');
  }

  lemma RegistrationKeepsInv(w: World, a: Action)
    requires Inv(w) && Enabled(w, a) && a.Register?
    ensures Inv(Apply(w, a)) && Grows(w, Apply(w, a))
  {
    RegisteredSafe(w.regs[a.p], a.what);
    RegistryStepGrows(w, a.p, w.regs[a.p].Registered(a.what));
  }

  /** Every step keeps the invariant and only grows the registries. */
  lemma StepKeepsInv(w: World, a: Action)
    requires Inv(w) && Enabled(w, a)
    ensures Inv(Apply(w, a)) && Grows(w, Apply(w, a))
  {
    hide Inv, Grows, PutStep, GetStep, RegistryState.Registered;
    InvIsWellFormed(w);
    match a
    case Register(_, _) => RegistrationKeepsInv(w, a);
    case StartPut(_, _, _) => StartKeepsInv(w, a);
    case DeliverPut(t) => PutStepKeepsInv(w, t);
    case StartGet(_, _, _) => StartKeepsInv(w, a);
    case DeliverGet(t) => GetStepKeepsInv(w, t);
    case Touch(c) => SessionsChangeKeepsInv(w, w.WithSession(c));
    case Expire(c) => SessionsChangeKeepsInv(w, w.(sessions := w.sessions - {c}));
  }

  // ---------------------------------------------------------------- runs

  /** Nothing registered, nobody connected. */
  ghost predicate Start(w: World) {
    && w.WellFormed()
    && (forall p | p in w.regs :: w.regs[p] == EMPTY_REGISTRY)
    && (forall c | c in w.tables :: w.tables[c] == EMPTY_TABLE)
    && w.sessions == map[] && w.puts == map[] && w.gets == map[]
  }

  lemma StartInv(w: World)
    requires Start(w)
    ensures Inv(w)
  {
  }

  ghost predicate Legal(w: World, actions: seq<Action>)
    requires Inv(w)
    decreases |actions|
  {
    actions == []
    || (Enabled(w, actions[0]) && (StepKeepsInv(w, actions[0]); Legal(Apply(w, actions[0]), actions[1..])))
  }

  lemma GrowsTransitive(a: World, b: World, c: World)
    requires Grows(a, b) && Grows(b, c)
    ensures Grows(a, c)
  {
  }

  /** The world after a run: the invariant holds in it, and every registry has only grown. */
  ghost function Execute(w: World, actions: seq<Action>): (later: World)
    requires Inv(w) && Legal(w, actions)
    ensures Inv(later) && Grows(w, later)
    decreases |actions|
  {
    if actions == [] then
      GrowsReflexive(w);
      w
    else
      StepKeepsInv(w, actions[0]);
      var later := Execute(Apply(w, actions[0]), actions[1..]);
      GrowsTransitive(w, Apply(w, actions[0]), later);
      later
  }

  /**
   * Mapping soundness: after any run a filled slot `i` of a session's table has the name and
   * type of the client's own description with id `i`, and the client's table mirrors this.
   */
  lemma SlotsAreSound(w: World, actions: seq<Action>, c: ClientId, i: nat)
    requires Inv(w) && Legal(w, actions) && c in w.home
    ensures var later := Execute(w, actions);
            && (c in later.sessions && later.sessions[c].table.Slot(i).Some? ==>
                  Announced(later.ClientReg(c), i, later.sessions[c].table.Slot(i).value))
            && (later.tables[c].Slot(i).Some? ==>
                  Announced(later.ServerReg(), i, later.tables[c].Slot(i).value))
  {
    hide RegistryState.Valid, RegistryState.Holds, RegistryState.GrowsTo, RegistryState.IdsDistinct;
    hide TablesSound, StreamsSound, ProgressSound, Announced;
    var later := Execute(w, actions);
    RunIngredients(w, later, c);
  }

  /** A process that shows the same version at two points of a run holds the same descriptions at both. */
  lemma VersionIdentifiesTable(w: World, actions: seq<Action>, p: Process)
    requires Inv(w) && Legal(w, actions) && p in w.regs
    ensures var later := Execute(w, actions);
            later.regs[p].unique == w.regs[p].unique ==> forall x :: w.regs[p].Holds(x) <==> later.regs[p].Holds(x)
  {
    hide TablesSound, StreamsSound, ProgressSound, RegistryState.Valid, RegistryState.GrowsTo;
    var later := Execute(w, actions);
    if later.regs[p].unique == w.regs[p].unique {
      VersionDeterminesTable(w.regs[p], later.regs[p]);
    }
  }

  /** A decoded property is the sent one: same name, type and value, on a description the receiver holds. */
  ghost predicate SameProperty(sent: Property, got: Property, receiver: RegistryState) {
    && receiver.Holds(got.info)
    && got.info.name == sent.info.name && got.info.ty == sent.info.ty
    && got.value == sent.value.Normalized() && got.WellTyped()
  }

  lemma DecodedIsSent(
      sent: Property, table: Table, before: RegistryState, sender: RegistryState, receiver: RegistryState)
    requires before.Holds(sent.info) && sent.WellTyped()
    requires before.GrowsTo(sender) && sender.IdsDistinct() && SoundTable(table, sender, receiver)
    ensures match GetProperty(AssignProperty(sent), table.Slot(sent.info.unique))
            case Ok(got) => SameProperty(sent, got, receiver)
            case Err(_) => true
  {
    var slot := table.Slot(sent.info.unique);
    ValueRoundTrip(sent, slot);
    if slot.Some? {
      var y :| sender.Holds(y) && y.unique == sent.info.unique && y.name == slot.value.name && y.ty == slot.value.ty;
      assert sender.Holds(sent.info);
    }
  }

  /**
   * Requests over all runs: an argument the client encoded at any time decodes at any later time, after
   * any registrations, partial transfers and session drops, to a property of the sent name, type and
   * value, or decoding fails.
   */
  lemma ArgumentNeverMistaken(w: World, actions: seq<Action>, c: ClientId, sent: Property)
    requires Inv(w) && Legal(w, actions) && c in w.home
    requires w.ClientReg(c).Holds(sent.info) && sent.WellTyped()
    ensures var later := Execute(w, actions);
            c in later.sessions ==>
              match GetProperty(AssignProperty(sent), later.sessions[c].table.Slot(sent.info.unique))
              case Ok(got) => SameProperty(sent, got, later.ServerReg())
              case Err(_) => true
  {
    hide RegistryState.Valid, RegistryState.Holds, RegistryState.GrowsTo, RegistryState.IdsDistinct;
    hide TablesSound, StreamsSound, ProgressSound, SoundTable, SameProperty, GetProperty;
    var later := Execute(w, actions);
    if c in later.sessions {
      RunIngredients(w, later, c);
      DecodedIsSent(sent, later.sessions[c].table, w.ClientReg(c), later.ClientReg(c), later.ServerReg());
    }
  }

  /** Replies over all runs: the same for a property of the server, read through the client's table. */
  lemma ReplyNeverMistaken(w: World, actions: seq<Action>, c: ClientId, sent: Property)
    requires Inv(w) && Legal(w, actions) && c in w.home
    requires w.ServerReg().Holds(sent.info) && sent.WellTyped()
    ensures var later := Execute(w, actions);
            match GetProperty(AssignProperty(sent), later.tables[c].Slot(sent.info.unique))
            case Ok(got) => SameProperty(sent, got, later.ClientReg(c))
            case Err(_) => true
  {
    hide RegistryState.Valid, RegistryState.Holds, RegistryState.GrowsTo, RegistryState.IdsDistinct;
    hide TablesSound, StreamsSound, ProgressSound, SoundTable, SameProperty, GetProperty;
    var later := Execute(w, actions);
    RunIngredients(w, later, c);
    DecodedIsSent(sent, later.tables[c], w.ServerReg(), later.ServerReg(), later.ClientReg(c));
  }

  lemma RunIngredients(w: World, later: World, c: ClientId)
    requires Inv(w) && Inv(later) && Grows(w, later) && c in w.home
    ensures w.ClientReg(c).GrowsTo(later.ClientReg(c)) && w.ServerReg().GrowsTo(later.ServerReg())
    ensures later.ClientReg(c).IdsDistinct() && later.ServerReg().IdsDistinct()
    ensures c in later.sessions ==> SoundTable(later.sessions[c].table, later.ClientReg(c), later.ServerReg())
    ensures SoundTable(later.tables[c], later.ServerReg(), later.ClientReg(c))
  {
    hide RegistryState.EntriesMatchKeys, RegistryState.IdsDense, RegistryState.IdsDistinct, RegistryState.GrowsTo;
    hide SoundTable, StreamsSound, ProgressSound;
  }

  /** Two mapping streams of one client stamped with the same version carry the same descriptions. */
  lemma SameVersionSameStream(w: World, t: StreamId, u: StreamId)
    requires Inv(w) && t in w.puts && u in w.puts
    requires w.puts[t].client == w.puts[u].client && w.puts[t].version == w.puts[u].version
    ensures forall x :: x in w.puts[t].done + w.puts[t].pending <==> x in w.puts[u].done + w.puts[u].pending
  {
    var sender := w.ClientReg(w.puts[t].client);
    assert sender.IdsDistinct() && CarriesSnapshot(w.puts[t], sender) && CarriesSnapshot(w.puts[u], sender);
    SameSnapshot(w.puts[t], w.puts[u], sender);
    SameSnapshot(w.puts[u], w.puts[t], sender);
  }

  lemma SameSnapshot(t: Transfer, u: Transfer, sender: RegistryState)
    requires sender.IdsDistinct() && CarriesSnapshot(t, sender) && CarriesSnapshot(u, sender) && t.version == u.version
    ensures forall x | x in t.done + t.pending :: x in u.done + u.pending
  {
    forall x | x in t.done + t.pending
      ensures x in u.done + u.pending
    {
      assert HasIdIn(u.done + u.pending, x.unique);
    }
  }

  /** Every message the put has delivered went into session `born`. */
  ghost predicate AllInto(put: Transfer, born: nat) {
    forall k | 0 <= k < |put.into| :: put.into[k] == born
  }

  /** A put of this version reached the current session of `c` in full, without an exception. */
  ghost predicate FullyReceived(w: World, c: ClientId, t: StreamId) {
    && t in w.puts && c in w.sessions
    && w.puts[t].client == c && w.puts[t].done != [] && w.puts[t].pending == []
    && AllInto(w.puts[t], w.sessions[c].born)
  }

  ghost predicate SameBag(sent: Bag, got: Bag, receiver: RegistryState) {
    && |got| == |sent|
    && forall i | 0 <= i < |sent| :: SameProperty(sent[i], got[i], receiver)
  }

  lemma {:induction false} BagDecodes(
      args: Bag, table: Table, before: RegistryState, sender: RegistryState, receiver: RegistryState)
    requires BuiltOn(args, before) && before.GrowsTo(sender) && sender.IdsDistinct()
    requires SoundTable(table, sender, receiver)
    requires forall i | 0 <= i < |args| :: table.Slot(args[i].info.unique).Some?
    ensures var r := DecodeAll(AssignBag(args), table);
            if NoEmpties(args) then r.Ok? && SameBag(args, r.value, receiver) else r == Err(UnsupportedType(SIZE_T - 2))
    decreases |args|
  {
    hide RegistryState.Holds, RegistryState.GrowsTo, RegistryState.IdsDistinct, SoundTable, SameProperty, GetProperty;
    if args != [] {
      assert AssignBag(args)[1..] == AssignBag(args[1..]);
      assert forall i | 0 <= i < |args[1..]| :: args[1..][i] == args[i + 1];
      BagDecodes(args[1..], table, before, sender, receiver);
      ValueRoundTrip(args[0], table.Slot(args[0].info.unique));
      DecodedIsSent(args[0], table, before, sender, receiver);
    }
  }

  lemma HeldIdIsBelowVersion(reg: RegistryState, x: Info)
    requires reg.Valid() && reg.Holds(x)
    ensures x.unique < reg.unique
  {
  }

  lemma SnapshotHasId(t: Transfer, sender: RegistryState, id: nat)
    requires CarriesSnapshot(t, sender) && t.pending == [] && id < t.version
    ensures HasIdIn(t.done, id)
  {
    assert t.done + t.pending == t.done;
  }

  lemma FullTableHasSlot(w: World, c: ClientId, t: StreamId, id: nat)
    requires Inv(w) && FullyReceived(w, c, t) && id < w.puts[t].version
    ensures w.sessions[c].table.Slot(id).Some?
  {
    hide RegistryState.Valid, RegistryState.Holds, TablesSound, GetsProgress;
    var put := w.puts[t];
    SnapshotHasId(put, w.ClientReg(c), id);
    assert PutProgress(w, put);
  }

  /**
   * Decoding completeness: arguments the client encoded under version v all resolve, at any later time,
   * once a put of version v or newer was received in full by the session that decodes them. The only
   * decoding failure left is an empty property.
   */
  lemma DecodingIsComplete(w: World, actions: seq<Action>, c: ClientId, args: Bag, t: StreamId)
    requires Inv(w) && Legal(w, actions) && c in w.home && BuiltOn(args, w.ClientReg(c))
    requires var later := Execute(w, actions);
             FullyReceived(later, c, t) && w.ClientReg(c).unique <= later.puts[t].version
    ensures var later := Execute(w, actions);
            var r := DecodeAll(AssignBag(args), later.sessions[c].table);
            if NoEmpties(args) then r.Ok? && SameBag(args, r.value, later.ServerReg())
            else r == Err(UnsupportedType(SIZE_T - 2))
  {
    hide RegistryState.Valid, RegistryState.Holds, RegistryState.GrowsTo, RegistryState.IdsDistinct;
    hide TablesSound, StreamsSound, ProgressSound, SoundTable, DecodeAll, NoEmpties, SameBag;
    var later := Execute(w, actions);
    RunIngredients(w, later, c);
    var client := w.ClientReg(c);
    forall i | 0 <= i < |args|
      ensures later.sessions[c].table.Slot(args[i].info.unique).Some?
    {
      HeldIdIsBelowVersion(client, args[i].info);
      FullTableHasSlot(later, c, t, args[i].info.unique);
    }
    BagDecodes(args, later.sessions[c].table, client, later.ClientReg(c), later.ServerReg());
  }

  /**
   * The slot of an id is filled in a session exactly when a put has delivered a message for it into this
   * very session.
   */
  lemma SlotFilledExactlyWhenPut(w: World, c: ClientId, i: nat)
    requires Inv(w) && c in w.sessions
    ensures w.sessions[c].table.Slot(i).Some? <==> PutSome(w, c, i)
  {
    hide RegistryState.Valid, TablesSound, StreamsSound, GetsProgress, SlotsRead;
    if PutSome(w, c, i) {
      var t :| t in w.puts && w.puts[t].client == c && DeliveredInto(w.puts[t], i, w.sessions[c].born);
      assert PutProgress(w, w.puts[t]);
    }
  }

  /**
   * The exact condition for decoding, at any time, through whatever puts, drops and partial transfers there
   * were: arguments the client encoded earlier decode, into what was sent, exactly when none is empty and a
   * put has delivered a message for each of their ids into the session that is there now.
   */
  lemma DecodesExactlyWhatWasPut(w: World, actions: seq<Action>, later: World, c: ClientId, args: Bag)
    requires Inv(w) && Legal(w, actions) && later == Execute(w, actions)
    requires c in w.home && BuiltOn(args, w.ClientReg(c)) && c in later.sessions
    ensures var r := DecodeAll(AssignBag(args), later.sessions[c].table);
            && (r.Ok? <==> NoEmpties(args) && forall i | 0 <= i < |args| :: PutSome(later, c, args[i].info.unique))
            && (r.Ok? ==> SameBag(args, r.value, later.ServerReg()))
  {
    hide RegistryState.Valid, RegistryState.Holds, RegistryState.GrowsTo, RegistryState.IdsDistinct;
    hide TablesSound, StreamsSound, ProgressSound, SoundTable, DecodeAll, NoEmpties, SameBag, BuiltOn;
    hide AssignBag, PutSome;
    RunIngredients(w, later, c);
    var table := later.sessions[c].table;
    DecodesExactly(args, table);
    forall i | 0 <= i < |args|
      ensures table.Slot(args[i].info.unique).Some? <==> PutSome(later, c, args[i].info.unique)
    {
      SlotFilledExactlyWhenPut(later, c, args[i].info.unique);
    }
    if AllMapped(args, table) {
      BagDecodes(args, table, w.ClientReg(c), later.ClientReg(c), later.ServerReg());
    }
  }

  /** A get of this version was read to its end by the client, no message having raised an exception. */
  ghost predicate FullyRead(w: World, c: ClientId, t: StreamId) {
    t in w.gets && w.gets[t].client == c && w.gets[t].pending == [] && w.gets[t].clean
  }

  lemma ReadTableHasSlot(w: World, c: ClientId, t: StreamId, id: nat)
    requires Inv(w) && FullyRead(w, c, t) && id < w.gets[t].version
    ensures w.tables[c].Slot(id).Some?
  {
    hide RegistryState.Valid, RegistryState.Holds, TablesSound, PutsProgress;
    var get := w.gets[t];
    SnapshotHasId(get, w.ServerReg(), id);
    assert FilledFor(w.tables[c], get.done);
  }

  /** The same for replies: after a clean get of the version the server marshalled under, every property resolves. */
  lemma ReplyDecodingIsComplete(w: World, actions: seq<Action>, c: ClientId, props: Bag, t: StreamId)
    requires Inv(w) && Legal(w, actions) && c in w.home && BuiltOn(props, w.ServerReg())
    requires var later := Execute(w, actions);
             FullyRead(later, c, t) && w.ServerReg().unique <= later.gets[t].version
    ensures var later := Execute(w, actions);
            var r := DecodeAll(AssignBag(props), later.tables[c]);
            if NoEmpties(props) then r.Ok? && SameBag(props, r.value, later.ClientReg(c))
            else r == Err(UnsupportedType(SIZE_T - 2))
  {
    hide RegistryState.Valid, RegistryState.Holds, RegistryState.GrowsTo, RegistryState.IdsDistinct;
    hide TablesSound, StreamsSound, ProgressSound, SoundTable, DecodeAll, NoEmpties, SameBag;
    var later := Execute(w, actions);
    RunIngredients(w, later, c);
    var server := w.ServerReg();
    forall i | 0 <= i < |props|
      ensures later.tables[c].Slot(props[i].info.unique).Some?
    {
      HeldIdIsBelowVersion(server, props[i].info);
      ReadTableHasSlot(later, c, t, props[i].info.unique);
    }
    BagDecodes(props, later.tables[c], server, later.ServerReg(), later.ClientReg(c));
  }

  /** No get of `c` that was started at a later version than `v` has delivered anything yet. */
  ghost predicate NoNewerRead(w: World, c: ClientId, v: nat) {
    forall t | t in w.gets && w.gets[t].client == c && w.gets[t].done != [] :: w.gets[t].version <= v
  }

  lemma NoSlotWithoutNewerRead(w: World, c: ClientId, v: nat)
    requires Inv(w) && c in w.tables && NoNewerRead(w, c, v)
    ensures NoSlotFrom(w.tables[c], v)
  {
    hide RegistryState.Valid, TablesSound, PutsProgress;
    forall i: nat | v <= i
      ensures w.tables[c].Slot(i).None?
    {
      if w.tables[c].Slot(i).Some? {
        assert ReadSome(w, c, i);
        var t :| t in w.gets && w.gets[t].client == c && HasIdIn(w.gets[t].done, i);
        DoneIsBelowVersion(w.gets[t], w.ServerReg(), i);
        assert false;
      }
    }
  }

  lemma DoneIsBelowVersion(t: Transfer, sender: RegistryState, i: nat)
    requires CarriesSnapshot(t, sender) && HasIdIn(t.done, i)
    ensures i < t.version && t.done != []
  {
    var k :| 0 <= k < |t.done| && t.done[k].unique == i;
    assert t.done[k] in t.done + t.pending;
  }

  /** A table with every id below `v` filled decodes exactly the bags without an unmapped newer id. */
  lemma FilledTableDecodes(
      bag: Bag, table: Table, v: nat, built: RegistryState, sender: RegistryState, receiver: RegistryState)
    requires BuiltOn(bag, built) && built.GrowsTo(sender) && sender.IdsDistinct() && SoundTable(table, sender, receiver)
    requires forall i | 0 <= i < |bag| && bag[i].info.unique < v :: table.Slot(bag[i].info.unique).Some?
    ensures DecodesFrom(bag, table, v, receiver)
  {
    hide RegistryState.Holds, RegistryState.GrowsTo, RegistryState.IdsDistinct, SoundTable, DecodeAll;
    hide NoEmpties, SameBag;
    hide BuiltOn, AssignBag;
    DecodesExactly(bag, table);
    if AllMapped(bag, table) {
      BagDecodes(bag, table, built, sender, receiver);
    }
  }

  /** How a bag decodes through a table in which every id below `v` is filled. */
  ghost predicate DecodesFrom(bag: Bag, table: Table, v: nat, receiver: RegistryState) {
    var r := DecodeAll(AssignBag(bag), table);
    && (r.Ok? <==> NoEmpties(bag) && MappedFrom(bag, table, v))
    && (r.Ok? ==> SameBag(bag, r.value, receiver))
    && (NoSlotFrom(table, v) ==> (r.Ok? <==> NoEmpties(bag) && AllBelow(bag, v)))
  }

  /** Each property is older than `v` or mapped all the same. */
  predicate MappedFrom(bag: Bag, table: Table, v: nat) {
    forall i | 0 <= i < |bag| :: bag[i].info.unique < v || table.Slot(bag[i].info.unique).Some?
  }

  /** What the caller is told of a reply that carries `bag` under `v`. */
  ghost predicate ToldOfBag(bag: Bag, table: Table, v: nat) {
    Complete(table, ReplyTo(Returned(bag), v))
    == if table.version != v then ClientMappingExpired
       else match DecodeAll(AssignBag(bag), table) case Ok(got) => OnReply(got) case Err(e) => Silent(e)
  }

  lemma CompleteTells(bag: Bag, table: Table, v: nat)
    ensures ToldOfBag(bag, table, v)
  {
    hide DecodeAll, AssignBag;
  }

  /**
   * A reply carries the version from before its answer was built. Stamped in one world of a run, built in
   * a later one and read in a still later one, by a client that has read a get of that version or a newer
   * one to its end, it decodes exactly when it has no empty property and each is either older than the
   * stamp or mapped by a newer get; and only then is the caller told anything. So without a newer get a
   * property registered between stamp and answer is exactly what makes it fail.
   */
  lemma StampedReplyDecodes(
      w: World, during: seq<Action>, built: World, after: seq<Action>, later: World, c: ClientId, t: StreamId, bag: Bag)
    requires Inv(w) && Legal(w, during) && built == Execute(w, during)
    requires Legal(built, after) && later == Execute(built, after)
    requires c in w.home && BuiltOn(bag, built.ServerReg())
    requires FullyRead(later, c, t) && w.ServerReg().unique <= later.gets[t].version
    ensures DecodesFrom(bag, later.tables[c], w.ServerReg().unique, later.ClientReg(c))
    ensures NoNewerRead(later, c, w.ServerReg().unique) ==> NoSlotFrom(later.tables[c], w.ServerReg().unique)
    ensures ToldOfBag(bag, later.tables[c], w.ServerReg().unique)
  {
    hide RegistryState.Valid, RegistryState.Holds, RegistryState.GrowsTo, RegistryState.IdsDistinct;
    hide TablesSound, StreamsSound, ProgressSound, SoundTable, BuiltOn, NoSlotFrom, NoNewerRead, DecodesFrom, ToldOfBag;
    var v := w.ServerReg().unique;
    RunIngredients(built, later, c);
    forall i | 0 <= i < |bag| && bag[i].info.unique < v
      ensures later.tables[c].Slot(bag[i].info.unique).Some?
    {
      ReadTableHasSlot(later, c, t, bag[i].info.unique);
    }
    FilledTableDecodes(bag, later.tables[c], v, built.ServerReg(), later.ServerReg(), later.ClientReg(c));
    if NoNewerRead(later, c, v) {
      NoSlotWithoutNewerRead(later, c, v);
    }
    CompleteTells(bag, later.tables[c], v);
  }

  // ---------------------------------------------------------------- uninterrupted transfers

  function DeliverRest(a: Action, n: nat): seq<Action> {
    seq(n, _ => a)
  }

  lemma RunOfDeliveries(w: World, a: Action, n: nat)
    requires Inv(w) && Enabled(w, a) && Inv(Apply(w, a)) && n > 0
    requires Legal(Apply(w, a), DeliverRest(a, n - 1))
    ensures Legal(w, DeliverRest(a, n))
    ensures Execute(w, DeliverRest(a, n)) == Execute(Apply(w, a), DeliverRest(a, n - 1))
  {
    hide Inv, Enabled, Apply;
    assert DeliverRest(a, n)[0] == a && DeliverRest(a, n)[1..] == DeliverRest(a, n - 1);
  }

  lemma NoDeliveries(w: World, a: Action)
    requires Inv(w)
    ensures Legal(w, DeliverRest(a, 0)) && Execute(w, DeliverRest(a, 0)) == w
  {
    hide Inv;
  }

  /** The rest of a put, received by the session it belongs to. */
  function RestOfPut(w: World, t: StreamId): Delivery
    requires w.server in w.regs && t in w.puts && w.puts[t].client in w.sessions
  {
    var put := w.puts[t];
    ReceiveAll(Server, w.ServerReg(), w.sessions[put.client].table, put.version, put.pending)
  }

  ghost predicate PutUnderWay(w: World, t: StreamId) {
    && t in w.puts && !w.puts[t].dead && w.puts[t].client in w.sessions
    && AllInto(w.puts[t], w.sessions[w.puts[t].client].born)
  }

  lemma PutAdvances(w: World, t: StreamId)
    requires Inv(w) && PutUnderWay(w, t) && w.puts[t].pending != [] && !RestOfPut(w, t).thrown
    ensures var w1 := PutStep(w, t);
            && w1.server == w.server && w1.server in w1.regs
            && PutUnderWay(w1, t) && RestOfPut(w1, t) == RestOfPut(w, t)
            && w1.puts[t].client == w.puts[t].client
            && w1.puts[t].done != [] && w1.puts[t].pending == w.puts[t].pending[1..]
  {
    hide RegistryState.Valid, TablesSound, StreamsSound, ProgressSound, Receive;
  }

  lemma NothingLeftOfPut(w: World, t: StreamId)
    requires w.server in w.regs && PutUnderWay(w, t) && w.puts[t].pending == [] && w.puts[t].done != []
    ensures FullyReceived(w, w.puts[t].client, t)
    ensures RestOfPut(w, t) == Delivery(w.ServerReg(), w.sessions[w.puts[t].client].table, false)
  {
  }

  /**
   * A put whose remaining messages arrive with nothing in between ends fully received, with the session
   * and the server's registry of the whole stream.
   */
  lemma {:induction false} UninterruptedPut(w: World, t: StreamId)
    requires Inv(w) && PutUnderWay(w, t) && !RestOfPut(w, t).thrown
    requires w.puts[t].done != [] || w.puts[t].pending != []
    ensures var actions := DeliverRest(DeliverPut(t), |w.puts[t].pending|);
            Legal(w, actions)
            && var later, c := Execute(w, actions), w.puts[t].client;
               FullyReceived(later, c, t)
               && Delivery(later.ServerReg(), later.sessions[c].table, false) == RestOfPut(w, t)
    decreases |w.puts[t].pending|
  {
    hide Inv, PutStep, ReceiveAll, Legal, Execute, FullyReceived, RestOfPut, Grows;
    InvIsWellFormed(w);
    if w.puts[t].pending == [] {
      NoDeliveries(w, DeliverPut(t));
      NothingLeftOfPut(w, t);
    } else {
      StepKeepsInv(w, DeliverPut(t));
      PutAdvances(w, t);
      UninterruptedPut(PutStep(w, t), t);
      RunOfDeliveries(w, DeliverPut(t), |w.puts[t].pending|);
    }
  }

  /** The rest of a get, received by its client. */
  function RestOfGet(w: World, t: StreamId): Delivery
    requires t in w.gets && w.gets[t].client in w.home && w.home[w.gets[t].client] in w.regs
    requires w.gets[t].client in w.tables
  {
    var get := w.gets[t];
    ReceiveAll(Client, w.ClientReg(get.client), w.tables[get.client], get.version, get.pending)
  }

  lemma GetAdvances(w: World, t: StreamId)
    requires Inv(w) && t in w.gets && w.gets[t].pending != [] && w.gets[t].clean && !RestOfGet(w, t).thrown
    ensures var w1 := GetStep(w, t);
            && w1.WellFormed() && t in w1.gets && RestOfGet(w1, t) == RestOfGet(w, t)
            && w1.gets[t].client == w.gets[t].client
            && w1.gets[t].clean && w1.gets[t].pending == w.gets[t].pending[1..]
  {
    hide RegistryState.Valid, TablesSound, StreamsSound, ProgressSound, Receive;
  }

  lemma NothingLeftOfGet(w: World, t: StreamId)
    requires w.WellFormed() && t in w.gets && w.gets[t].pending == [] && w.gets[t].clean
    ensures var c := w.gets[t].client;
            FullyRead(w, c, t) && RestOfGet(w, t) == Delivery(w.ClientReg(c), w.tables[c], false)
  {
  }

  /** The same for a get: it ends fully read, with the table and the client's registry of the whole stream. */
  lemma {:induction false} UninterruptedGet(w: World, t: StreamId)
    requires Inv(w) && t in w.gets && w.gets[t].clean && !RestOfGet(w, t).thrown
    ensures var actions := DeliverRest(DeliverGet(t), |w.gets[t].pending|);
            Legal(w, actions)
            && var later, c := Execute(w, actions), w.gets[t].client;
               FullyRead(later, c, t)
               && Delivery(later.ClientReg(c), later.tables[c], false) == RestOfGet(w, t)
    decreases |w.gets[t].pending|
  {
    hide Inv, GetStep, ReceiveAll, Legal, Execute, FullyRead, RestOfGet, Grows;
    InvIsWellFormed(w);
    if w.gets[t].pending == [] {
      NoDeliveries(w, DeliverGet(t));
      NothingLeftOfGet(w, t);
    } else {
      StepKeepsInv(w, DeliverGet(t));
      GetAdvances(w, t);
      UninterruptedGet(GetStep(w, t), t);
      RunOfDeliveries(w, DeliverGet(t), |w.gets[t].pending|);
    }
  }

  // ---------------------------------------------------------------- what a step leaves alone

  /** A registry changes by a registration in its process, or by a mapping message it takes in. */
  lemma RegistriesChangeOnlyBy(w: World, a: Action, p: Process)
    requires w.WellFormed() && Enabled(w, a) && p in w.regs
    ensures var w' := Apply(w, a);
            && w'.regs.Keys == w.regs.Keys
            && (w'.regs[p] != w.regs[p] ==>
                  || (a.Register? && p == a.p)
                  || (a.DeliverPut? && p == w.server)
                  || (a.DeliverGet? && p == w.home[w.gets[a.t].client]))
  {
    hide Receive, RegistryState.Registered, RegistryState.Enumerates;
  }

  /** A session changes by a put message of its client, comes empty, and goes only by expiring. */
  lemma SessionsChangeOnlyBy(w: World, a: Action, c: ClientId)
    requires w.WellFormed() && Enabled(w, a)
    ensures var w' := Apply(w, a);
            && (c in w.sessions && c !in w'.sessions ==> a == Expire(c))
            && (c in w.sessions && c in w'.sessions && w'.sessions[c] != w.sessions[c] ==>
                  a.DeliverPut? && c == w.puts[a.t].client)
            && (c !in w.sessions && c in w'.sessions ==>
                  (a.DeliverPut? && c == w.puts[a.t].client) || (a == Touch(c) && w'.sessions[c].table == EMPTY_TABLE))
  {
    hide Receive, RegistryState.Registered, RegistryState.Enumerates;
  }

  /** A client's table changes by a message of one of its gets. */
  lemma TablesChangeOnlyBy(w: World, a: Action, c: ClientId)
    requires w.WellFormed() && Enabled(w, a) && c in w.tables
    ensures var w' := Apply(w, a);
            c in w'.tables && (w'.tables[c] != w.tables[c] ==> a.DeliverGet? && c == w.gets[a.t].client)
  {
    hide Receive, RegistryState.Registered, RegistryState.Enumerates;
  }

  /** A stream changes by a delivery of its own. */
  lemma StreamsChangeOnlyBy(w: World, a: Action, t: StreamId)
    requires w.WellFormed() && Enabled(w, a)
    ensures var w' := Apply(w, a);
            && (t in w.puts ==> t in w'.puts && (w'.puts[t] != w.puts[t] ==> a == DeliverPut(t)))
            && (t in w.gets ==> t in w'.gets && (w'.gets[t] != w.gets[t] ==> a == DeliverGet(t)))
  {
    hide Receive, RegistryState.Registered, RegistryState.Enumerates;
  }

  /**
   * A put ends, and no message of it is taken any more, exactly when the server knows a name by another
   * type; the session is under the put's version either way, and has a description for the id if not.
   */
  lemma PutDiesExactlyOnClash(w: World, t: StreamId)
    requires w.WellFormed() && Enabled(w, DeliverPut(t))
    ensures var put, server, w' := w.puts[t], w.ServerReg(), Apply(w, DeliverPut(t));
            var msg := put.pending[0];
            && w'.server in w'.regs && t in w'.puts
            && (w'.puts[t].dead <==> Knows(server, msg.name) && server.Lookup(msg.name).value.ty != msg.ty)
            && (w'.puts[t].dead ==> w'.puts[t].done == put.done && w'.ServerReg() == server)
            && (!w'.puts[t].dead ==> w'.puts[t].done == put.done + [msg] && w'.puts[t].pending == put.pending[1..])
            && put.client in w'.sessions && w'.sessions[put.client].table.version == put.version
            && (!w'.puts[t].dead ==>
                  && Knows(w'.ServerReg(), msg.name)
                  && w'.sessions[put.client].table.Slot(msg.unique) == w'.ServerReg().Lookup(msg.name))
  {
    ClashLeaves(Server, w.ServerReg(), w.WithSession(w.puts[t].client).sessions[w.puts[t].client].table,
                w.puts[t].version, w.puts[t].pending[0]);
    MessageStores(Server, w.ServerReg(), w.WithSession(w.puts[t].client).sessions[w.puts[t].client].table,
                  w.puts[t].version, w.puts[t].pending[0]);
    hide Receive;
  }

  /**
   * A get reads on whatever happens, and stays clean exactly as long as no message clashes with the client;
   * a clashing one leaves the client's table alone, another puts it under the get's version.
   */
  lemma GetReadsOn(w: World, t: StreamId)
    requires w.WellFormed() && Enabled(w, DeliverGet(t))
    ensures var get, client, w' := w.gets[t], w.ClientReg(w.gets[t].client), Apply(w, DeliverGet(t));
            var msg := get.pending[0];
            && t in w'.gets && w'.gets[t].done == get.done + [msg] && w'.gets[t].pending == get.pending[1..]
            && get.client in w'.tables && get.client in w'.home && w'.home[get.client] in w'.regs
            && var clash := Knows(client, msg.name) && client.Lookup(msg.name).value.ty != msg.ty;
               var table := w'.tables[get.client];
               && (w'.gets[t].clean <==> get.clean && !clash)
               && (clash ==> table == w.tables[get.client] && w'.ClientReg(get.client) == client)
               && (!clash ==> table.version == get.version && Knows(w'.ClientReg(get.client), msg.name)
                              && table.Slot(msg.unique) == w'.ClientReg(get.client).Lookup(msg.name))
  {
    ClashLeaves(Client, w.ClientReg(w.gets[t].client), w.tables[w.gets[t].client], w.gets[t].version,
                w.gets[t].pending[0]);
    MessageStores(Client, w.ClientReg(w.gets[t].client), w.tables[w.gets[t].client], w.gets[t].version,
                  w.gets[t].pending[0]);
    hide Receive;
  }

  lemma DeadPutStays(w: World, a: Action, t: StreamId)
    requires w.WellFormed() && Enabled(w, a) && t in w.puts && w.puts[t].dead
    ensures t in Apply(w, a).puts && Apply(w, a).puts[t] == w.puts[t]
  {
    StreamsChangeOnlyBy(w, a, t);
    hide Apply;
  }

  /** A put that has ended stays as it is in every later world. */
  lemma {:induction false} DeadPutsStayDead(w: World, actions: seq<Action>, t: StreamId)
    requires Inv(w) && Legal(w, actions) && t in w.puts && w.puts[t].dead
    ensures var later := Execute(w, actions); t in later.puts && later.puts[t] == w.puts[t]
    decreases |actions|
  {
    hide Inv, Apply, Enabled, Grows, World.WellFormed;
    if actions != [] {
      InvIsWellFormed(w);
      StepKeepsInv(w, actions[0]);
      DeadPutStays(w, actions[0], t);
      DeadPutsStayDead(Apply(w, actions[0]), actions[1..], t);
    }
  }

  /**
   * A session that has expired is forgotten: when its client is next heard of it gets a new, empty one,
   * against which no version is valid, so every request with arguments is refused until the next put.
   */
  lemma ExpiredSessionIsForgotten(w: World, c: ClientId, request: Request)
    requires Inv(w) && Enabled(w, Expire(c)) && request.args != []
    ensures var w1 := Apply(w, Expire(c));
            && c !in w1.sessions && w1.WellFormed() && Enabled(w1, Touch(c))
            && c in Apply(w1, Touch(c)).sessions
            && Apply(w1, Touch(c)).sessions[c].table == EMPTY_TABLE
            && Apply(w1, Touch(c)).sessions[c].born != w.sessions[c].born
            && request.Expired(Apply(w1, Touch(c)).sessions[c].table)
  {
    hide TablesSound, StreamsSound, RegistryState.Valid;
  }

  /** A registration makes its name known to its process, and no other name. */
  lemma RegistrationTakesEffect(w: World, p: Process, what: Registration, n: string)
    requires Inv(w) && Enabled(w, Register(p, what))
    ensures var w' := Apply(w, Register(p, what));
            && p in w'.regs && Knows(w'.regs[p], what.name)
            && (n != what.name ==> (Knows(w'.regs[p], n) <==> Knows(w.regs[p], n)))
  {
    RegisteredIsKnown(w.regs[p], what);
    hide TablesSound, StreamsSound, ProgressSound, RegistryState.Valid, RegistryState.Registered;
  }

  /** A stream starts with all of the sender's descriptions still to come, under the sender's version. */
  lemma StreamsStartWhole(w: World, a: Action)
    requires Inv(w) && Enabled(w, a)
    ensures a.StartPut? ==>
              var w', put := Apply(w, a), Apply(w, a).puts[a.t];
              && put.client == a.c && put.version == w.ClientReg(a.c).unique
              && w.ClientReg(a.c).Enumerates(put.pending) && put.done == [] && put.clean && !put.dead
              && (put.pending != [] ==> w'.WellFormed() && Enabled(w', DeliverPut(a.t)))
    ensures a.StartGet? ==>
              var w', get := Apply(w, a), Apply(w, a).gets[a.t];
              && get.client == a.c && get.version == w.ServerReg().unique
              && w.ServerReg().Enumerates(get.pending) && get.done == [] && get.clean
              && (get.pending != [] ==> w'.WellFormed() && Enabled(w', DeliverGet(a.t)))
  {
    hide TablesSound, StreamsSound, ProgressSound, RegistryState.Valid, RegistryState.Enumerates;
  }
}

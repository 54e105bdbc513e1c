/**
 * Translation tables between two processes: how one side's snapshot fills the other side's table, and
 * what a complete handshake achieves (src/ipc/grpc/erebus_service.cxx, src/ipc/grpc/grpc_client.cxx).
 */
module PropertyMapping {
  import opened Basics
  import opened PropertyRegistry

  const NO_VERSION: nat := 0xFFFF_FFFF

  function Widened(slots: seq<Option<Info>>, id: nat): (wide: seq<Option<Info>>)
    ensures |wide| == if id < |slots| then |slots| else id + 1
    ensures forall i: nat :: i < |wide| ==> wide[i] == if i < |slots| then slots[i] else None
  {
    if id < |slots| then slots else slots + seq(id + 1 - |slots|, _ => None)
  }

  /** One side's table of the other side's ids, and the version it was last stamped with. */
  datatype Table = Table(slots: seq<Option<Info>>, version: nat) {

    function Slot(id: nat): Option<Info> {
      if id < |slots| then slots[id] else None
    }

    function Store(version: nat, id: nat, info: Info): (t: Table)
      ensures t.version == version && t.slots != []
      ensures forall i: nat :: t.Slot(i) == if i == id then Some(info) else Slot(i)
    {
      Table(Widened(slots, id)[id := Some(info)], version)
    }
  }

  const EMPTY_TABLE := Table([], NO_VERSION)

  datatype Side = Server | Client

  datatype Delivery = Delivery(reg: RegistryState, table: Table, thrown: bool)

  /**
   * One mapping message arrives. The server stamps the version and widens the table before it allocates;
   * the client allocates first, so a type conflict there leaves its table alone.
   */
  function Receive(side: Side, reg: RegistryState, table: Table, version: nat, msg: Info): Delivery {
    match reg.AllocateTransient(msg.ty, msg.name, msg.readable)
    case Ok((reg', info)) => Delivery(reg', table.Store(version, msg.unique, info), false)
    case Err(_) =>
      var table' := if side.Server? then Table(Widened(table.slots, msg.unique), version) else table;
      Delivery(reg, table', true)
  }

  /** A whole stream arrives. An exception ends the server's reading; the client logs it and reads on. */
  function ReceiveAll(side: Side, reg: RegistryState, table: Table, version: nat, msgs: seq<Info>): Delivery
    decreases |msgs|
  {
    if msgs == [] then Delivery(reg, table, false)
    else
      var d := Receive(side, reg, table, version, msgs[0]);
      if d.thrown && side.Server? then d
      else
        var rest := ReceiveAll(side, d.reg, d.table, version, msgs[1..]);
        rest.(thrown := d.thrown || rest.thrown)
  }

  ghost predicate Knows(reg: RegistryState, name: string) {
    reg.Lookup(name).Some?
  }

  ghost predicate KnowsAll(reg: RegistryState, msgs: seq<Info>) {
    forall x | x in msgs :: Knows(reg, x.name)
  }

  /** No name carries two types, neither within the messages nor between them and the receiver's lookups. */
  ghost predicate Agreeable(reg: RegistryState, msgs: seq<Info>) {
    && (forall x | x in msgs && Knows(reg, x.name) :: reg.Lookup(x.name).value.ty == x.ty)
    && (forall x, y | x in msgs && y in msgs && x.name == y.name :: x.ty == y.ty)
  }

  ghost predicate IdsDistinct(msgs: seq<Info>) {
    forall x, y | x in msgs && y in msgs && x.unique == y.unique :: x == y
  }

  /** `reg'` is `reg` after it was asked for the name and type of `x`. */
  ghost predicate Learned(reg: RegistryState, reg': RegistryState, x: Info) {
    && Knows(reg', x.name) && reg'.Lookup(x.name).value.ty == x.ty
    && (forall n | n != x.name || Knows(reg, n) :: reg'.Lookup(n) == reg.Lookup(n))
    && (Knows(reg, x.name) ==> reg' == reg)
    && (!Knows(reg, x.name) ==> reg.unique < reg'.unique)
    && reg.GrowsTo(reg')
    && (forall y | reg'.Holds(y) :: reg.Holds(y) || (y.name == x.name && y.ty == x.ty))
  }

  lemma ReceiveLearns(side: Side, reg: RegistryState, table: Table, version: nat, msg: Info)
    requires reg.Valid()
    ensures var d := Receive(side, reg, table, version, msg);
            && d.reg.Valid()
            && (d.thrown <==> Knows(reg, msg.name) && reg.Lookup(msg.name).value.ty != msg.ty)
            && (d.thrown ==> d.reg == reg)
            && (!d.thrown ==>
                  && Learned(reg, d.reg, msg)
                  && d.table == table.Store(version, msg.unique, d.reg.Lookup(msg.name).value))
  {
    AllocateTransientSafe(reg, msg.ty, msg.name, msg.readable);
  }

  /**
   * What a message leaves behind when it clashes in type: no description on either side. The client's table
   * is as it was; the server's carries the message's version and has room for its id, every slot being as
   * it was.
   */
  lemma ClashLeaves(side: Side, reg: RegistryState, table: Table, version: nat, msg: Info)
    ensures var d := Receive(side, reg, table, version, msg);
            && (d.thrown <==> Knows(reg, msg.name) && reg.Lookup(msg.name).value.ty != msg.ty)
            && (d.thrown ==>
                  && d.reg == reg && (forall i: nat :: d.table.Slot(i) == table.Slot(i))
                  && (side.Client? ==> d.table == table)
                  && (side.Server? ==>
                        && d.table.version == version
                        && |d.table.slots| == if msg.unique < |table.slots| then |table.slots| else msg.unique + 1))
  {
  }

  /** What a message without a clash stores: its version, and the receiver's description in the slot of its id. */
  lemma MessageStores(side: Side, reg: RegistryState, table: Table, version: nat, msg: Info)
    ensures var d := Receive(side, reg, table, version, msg);
            !d.thrown ==>
              && Knows(d.reg, msg.name) && d.reg.Lookup(msg.name).value.ty == msg.ty
              && d.table.version == version
              && |d.table.slots| == (if msg.unique < |table.slots| then |table.slots| else msg.unique + 1)
              && (forall i: nat :: d.table.Slot(i) == if i == msg.unique then d.reg.Lookup(msg.name) else table.Slot(i))
              && (!Knows(reg, msg.name) ==>
                    d.reg.Lookup(msg.name) == Some(Info(reg.unique, msg.ty, msg.name, msg.readable)))
  {
    AllocateTransientLands(reg, msg.ty, msg.name, msg.readable);
  }

  /** The server's reading ends with the first message that clashes: those after it might not have been sent. */
  lemma {:induction false} ServerStopsAtClash(
      reg: RegistryState, table: Table, version: nat, before: seq<Info>, msg: Info, after: seq<Info>)
    requires !ReceiveAll(Server, reg, table, version, before).thrown
    requires var d := ReceiveAll(Server, reg, table, version, before);
             Receive(Server, d.reg, d.table, version, msg).thrown
    ensures var d := ReceiveAll(Server, reg, table, version, before);
            && ReceiveAll(Server, reg, table, version, before + [msg] + after)
               == Receive(Server, d.reg, d.table, version, msg)
            && ReceiveAll(Server, reg, table, version, before + [msg] + after).reg == d.reg
            && ReceiveAll(Server, reg, table, version, before + [msg] + after).table.version == version
    decreases |before|
  {
    if before == [] {
      assert (before + [msg] + after)[0] == msg;
      ClashLeaves(Server, reg, table, version, msg);
    } else {
      var d := Receive(Server, reg, table, version, before[0]);
      assert (before + [msg] + after)[0] == before[0];
      assert (before + [msg] + after)[1..] == before[1..] + [msg] + after;
      hide Receive;
      ServerStopsAtClash(d.reg, d.table, version, before[1..], msg, after);
    }
  }

  /** The client reads on, whatever has clashed: the messages after some others find what those have left. */
  lemma {:induction false} ClientReadsOn(
      reg: RegistryState, table: Table, version: nat, before: seq<Info>, after: seq<Info>)
    ensures var d, whole := ReceiveAll(Client, reg, table, version, before),
                            ReceiveAll(Client, reg, table, version, before + after);
            var rest := ReceiveAll(Client, d.reg, d.table, version, after);
            whole.reg == rest.reg && whole.table == rest.table && (whole.thrown <==> d.thrown || rest.thrown)
    decreases |before|
  {
    hide Receive;
    if before == [] {
      assert before + after == after;
    } else {
      var d := Receive(Client, reg, table, version, before[0]);
      assert (before + after)[1..] == before[1..] + after;
      ClientReadsOn(d.reg, d.table, version, before[1..], after);
    }
  }

  /** One message makes a stream of one. */
  lemma StreamOfOne(side: Side, reg: RegistryState, table: Table, version: nat, msg: Info)
    ensures ReceiveAll(side, reg, table, version, [msg]) == Receive(side, reg, table, version, msg)
  {
    assert [msg][1..] == [];
  }

  lemma AgreeableStep(reg: RegistryState, reg': RegistryState, msgs: seq<Info>)
    requires msgs != [] && Learned(reg, reg', msgs[0])
    ensures Agreeable(reg, msgs) <==> Agreeable(reg', msgs[1..])
  {
    var head, tail := msgs[0], msgs[1..];
    assert forall x :: x in msgs <==> x == head || x in tail;
    assert Knows(reg, head.name) ==> reg.Lookup(head.name).value.ty == head.ty;
    if Agreeable(reg', tail) {
      forall x | x in msgs && Knows(reg, x.name)
        ensures reg.Lookup(x.name).value.ty == x.ty
      {
        assert Knows(reg', x.name);
      }
      forall x, y | x in msgs && y in msgs && x.name == y.name
        ensures x.ty == y.ty
      {
        if x.name == head.name {
          assert Knows(reg', head.name);
        }
      }
    }
    if Agreeable(reg, msgs) {
      forall x | x in tail && Knows(reg', x.name)
        ensures reg'.Lookup(x.name).value.ty == x.ty
      {
        assert head in msgs && x in msgs;
      }
    }
  }

  /** A stream raises an exception exactly when some name in it clashes in type. */
  lemma {:induction false} ThrowsExactlyOnTypeClash(
      side: Side, reg: RegistryState, table: Table, version: nat, msgs: seq<Info>)
    requires reg.Valid()
    ensures ReceiveAll(side, reg, table, version, msgs).thrown <==> !Agreeable(reg, msgs)
    decreases |msgs|
  {
    if msgs != [] {
      var d := Receive(side, reg, table, version, msgs[0]);
      ReceiveLearns(side, reg, table, version, msgs[0]);
      if d.thrown {
        assert msgs[0] in msgs;
      } else {
        AgreeableStep(reg, d.reg, msgs);
        ThrowsExactlyOnTypeClash(side, d.reg, d.table, version, msgs[1..]);
      }
    }
  }

  ghost predicate Names(msgs: seq<Info>, n: string) {
    exists x :: x in msgs && x.name == n
  }

  ghost predicate Describes(msgs: seq<Info>, y: Info) {
    exists x :: x in msgs && x.name == y.name && x.ty == y.ty
  }

  /** The registry after a stream without type clashes: exactly the unknown names are added, no lookup changes. */
  ghost predicate Grown(reg: RegistryState, msgs: seq<Info>, reg': RegistryState) {
    && reg.GrowsTo(reg')
    && (forall n | Knows(reg, n) :: reg'.Lookup(n) == reg.Lookup(n))
    && (forall n :: Knows(reg', n) <==> Knows(reg, n) || Names(msgs, n))
    && (forall y | reg'.Holds(y) :: reg.Holds(y) || Describes(msgs, y))
    && (forall x | x in msgs :: Knows(reg', x.name) && reg'.Lookup(x.name).value.ty == x.ty)
    && (KnowsAll(reg, msgs) ==> reg' == reg)
    && (!KnowsAll(reg, msgs) ==> reg.unique < reg'.unique)
  }

  /** The table after such a stream: the slot of each sent id holds the receiver's description of its name. */
  ghost predicate Filled(table: Table, version: nat, msgs: seq<Info>, reg': RegistryState, table': Table) {
    && (forall x | x in msgs :: table'.Slot(x.unique) == reg'.Lookup(x.name))
    && (forall i: nat | (forall x | x in msgs :: x.unique != i) :: table'.Slot(i) == table.Slot(i))
    && (msgs != [] ==> table'.version == version && table'.slots != [])
    && (msgs == [] ==> table' == table)
  }

  lemma GrownStep(reg: RegistryState, mid: RegistryState, msgs: seq<Info>, reg': RegistryState)
    requires msgs != [] && Learned(reg, mid, msgs[0]) && Grown(mid, msgs[1..], reg')
    ensures Grown(reg, msgs, reg')
  {
    var head, tail := msgs[0], msgs[1..];
    assert forall x :: x in msgs <==> x == head || x in tail;
    forall n
      ensures Names(msgs, n) <==> n == head.name || Names(tail, n)
      ensures Knows(mid, n) <==> Knows(reg, n) || n == head.name
    {
      assert head in msgs;
    }
    forall y | reg'.Holds(y)
      ensures reg.Holds(y) || Describes(msgs, y)
    {
      if !reg.Holds(y) && mid.Holds(y) {
        assert head in msgs && head.name == y.name && head.ty == y.ty;
      }
    }
    if KnowsAll(reg, msgs) {
      assert Knows(reg, head.name) && KnowsAll(mid, tail);
    } else if Knows(reg, head.name) {
      assert !KnowsAll(mid, tail);
    }
  }

  lemma FilledStep(
      reg: RegistryState, mid: RegistryState, reg': RegistryState, table: Table, version: nat, msgs: seq<Info>,
      table': Table)
    requires msgs != [] && IdsDistinct(msgs) && Learned(reg, mid, msgs[0]) && Grown(mid, msgs[1..], reg')
    requires Filled(table.Store(version, msgs[0].unique, mid.Lookup(msgs[0].name).value), version, msgs[1..], reg',
                    table')
    ensures Filled(table, version, msgs, reg', table')
  {
    var head, tail := msgs[0], msgs[1..];
    assert forall x :: x in msgs <==> x == head || x in tail;
    if head !in tail {
      assert forall y | y in tail :: y in msgs && y.unique != head.unique;
      assert table'.Slot(head.unique) == reg'.Lookup(head.name);
    }
  }

  lemma {:induction false} StreamIsAbsorbed(side: Side, reg: RegistryState, table: Table, version: nat, msgs: seq<Info>)
    requires reg.Valid() && Agreeable(reg, msgs) && IdsDistinct(msgs)
    ensures var d := ReceiveAll(side, reg, table, version, msgs);
            !d.thrown && d.reg.Valid() && Grown(reg, msgs, d.reg) && Filled(table, version, msgs, d.reg, d.table)
    decreases |msgs|
  {
    if msgs != [] {
      var head, tail := msgs[0], msgs[1..];
      assert head in msgs;
      ReceiveLearns(side, reg, table, version, head);
      var d := Receive(side, reg, table, version, head);
      AgreeableStep(reg, d.reg, msgs);
      assert IdsDistinct(tail) by {
        assert forall x | x in tail :: x in msgs;
      }
      StreamIsAbsorbed(side, d.reg, d.table, version, tail);
      var last := ReceiveAll(side, d.reg, d.table, version, tail);
      GrownStep(reg, d.reg, msgs, last.reg);
      FilledStep(reg, d.reg, last.reg, table, version, msgs, last.table);
    }
  }

  /** The two ends of one connection: both registries, the server's session table, the client's table. */
  datatype Link = Link(client: RegistryState, server: RegistryState, session: Table, table: Table) {

    /** The client sends its snapshot. */
    function Put(order: seq<Info>): Link {
      var d := ReceiveAll(Server, server, session, client.unique, order);
      this.(server := d.reg, session := d.table)
    }

    /** The client asks for the server's snapshot. */
    function Get(order: seq<Info>): Link {
      var d := ReceiveAll(Client, client, table, server.unique, order);
      this.(client := d.reg, table := d.table)
    }

    /** The server's check of a request with arguments sent now. */
    predicate ServerAccepts() {
      session.slots != [] && session.version == client.unique
    }

    /** The client's check of a reply produced now. */
    predicate ClientAccepts() {
      table.version == server.unique
    }

    ghost predicate Consistent() {
      client.Valid() && server.Valid() && SameTypes(client, server)
    }

    /** Both checks pass and both tables translate every id to the receiver's description of its name. */
    ghost predicate Settled() {
      && Consistent() && ServerAccepts() && ClientAccepts()
      && Translates(session, client, server)
      && Translates(table, server, client)
    }
  }

  ghost predicate HeldByEither(a: RegistryState, b: RegistryState, x: Info) {
    a.Holds(x) || b.Holds(x)
  }

  /** No name carries two types in either registry or across them. */
  ghost predicate SameTypes(a: RegistryState, b: RegistryState) {
    forall x, y | HeldByEither(a, b, x) && HeldByEither(a, b, y) && x.name == y.name :: x.ty == y.ty
  }

  /** `table` sends every id of `sender` to what `receiver` looks up under that name, of the same type. */
  ghost predicate Translates(table: Table, sender: RegistryState, receiver: RegistryState) {
    forall x | sender.Holds(x) ::
      && Knows(receiver, x.name)
      && receiver.Lookup(x.name).value.ty == x.ty
      && table.Slot(x.unique) == receiver.Lookup(x.name)
  }

  lemma LookupIsHeld(reg: RegistryState, name: string)
    requires reg.Valid()
    ensures Knows(reg, name) ==> reg.Holds(reg.Lookup(name).value) && reg.Lookup(name).value.name == name
    ensures Knows(reg, name) <==> exists x :: reg.Holds(x) && x.name == name
  {
    if Knows(reg, name) {
      assert reg.Holds(reg.Lookup(name).value);
    }
  }

  lemma SnapshotIsEmptyOnlyForEmptyRegistry(reg: RegistryState, order: seq<Info>)
    requires reg.Valid() && reg.Enumerates(order)
    ensures order == [] <==> reg.unique == 0
  {
    SnapshotHasVersionManyEntries(reg, order);
  }

  lemma SnapshotIsAgreeable(sender: RegistryState, receiver: RegistryState, order: seq<Info>)
    requires sender.Valid() && receiver.Valid() && SameTypes(sender, receiver) && sender.Enumerates(order)
    ensures Agreeable(receiver, order) && IdsDistinct(order)
  {
    forall x | x in order
      ensures HeldByEither(sender, receiver, x)
      ensures Knows(receiver, x.name) ==> receiver.Lookup(x.name).value.ty == x.ty
    {
      LookupIsHeld(receiver, x.name);
      if Knows(receiver, x.name) {
        assert HeldByEither(sender, receiver, x);
        assert HeldByEither(sender, receiver, receiver.Lookup(x.name).value);
      }
    }
  }

  lemma GrowthKeepsTypes(sender: RegistryState, receiver: RegistryState, order: seq<Info>, grown: RegistryState)
    requires SameTypes(sender, receiver) && sender.Enumerates(order) && Grown(receiver, order, grown)
    ensures SameTypes(sender, grown) && SameTypes(grown, sender)
  {
    forall x | HeldByEither(sender, grown, x)
      ensures exists x' :: HeldByEither(sender, receiver, x') && x'.name == x.name && x'.ty == x.ty
    {
      if HeldByEither(sender, receiver, x) {
      } else {
        assert Describes(order, x);
        var x' :| x' in order && x'.name == x.name && x'.ty == x.ty;
        assert HeldByEither(sender, receiver, x');
      }
    }
    assert forall x :: HeldByEither(grown, sender, x) <==> HeldByEither(sender, grown, x);
  }

  /** The receiver of a whole snapshot of a consistent peer translates all of the peer's ids. */
  lemma SnapshotIsAbsorbed(side: Side, sender: RegistryState, receiver: RegistryState, table: Table, order: seq<Info>)
    requires sender.Valid() && receiver.Valid() && SameTypes(sender, receiver) && sender.Enumerates(order)
    ensures var d := ReceiveAll(side, receiver, table, sender.unique, order);
            && d.reg.Valid() && Grown(receiver, order, d.reg) && Filled(table, sender.unique, order, d.reg, d.table)
            && SameTypes(sender, d.reg) && SameTypes(d.reg, sender)
            && Translates(d.table, sender, d.reg)
            && (forall n :: Knows(d.reg, n) <==> Knows(receiver, n) || Knows(sender, n))
            && (KnowsAll(receiver, order) <==> forall n | Knows(sender, n) :: Knows(receiver, n))
  {
    SnapshotIsAgreeable(sender, receiver, order);
    StreamIsAbsorbed(side, receiver, table, sender.unique, order);
    var d := ReceiveAll(side, receiver, table, sender.unique, order);
    GrowthKeepsTypes(sender, receiver, order, d.reg);
    hide ReceiveAll, SameTypes, Agreeable, IdsDistinct;
    FilledTranslates(sender, receiver, order, table, d.table, d.reg);
    SnapshotNames(sender, order);
    hide RegistryState.Valid, RegistryState.Enumerates, Filled, Translates;
    if KnowsAll(receiver, order) {
      forall n | Knows(sender, n)
        ensures Knows(receiver, n)
      {
        assert Names(order, n);
      }
    } else {
      var x :| x in order && !Knows(receiver, x.name);
      assert Names(order, x.name);
    }
  }

  lemma SnapshotNames(sender: RegistryState, order: seq<Info>)
    requires sender.Valid() && sender.Enumerates(order)
    ensures forall n :: Knows(sender, n) <==> Names(order, n)
  {
    forall n
      ensures Knows(sender, n) <==> Names(order, n)
    {
      LookupIsHeld(sender, n);
    }
  }

  lemma FilledTranslates(
      sender: RegistryState, receiver: RegistryState, order: seq<Info>, table: Table, table': Table,
      reg': RegistryState)
    requires sender.Enumerates(order) && Grown(receiver, order, reg')
    requires Filled(table, sender.unique, order, reg', table')
    ensures Translates(table', sender, reg')
  {
  }

  lemma PutAbsorbs(l: Link, order: seq<Info>)
    requires l.Consistent() && l.client.Enumerates(order)
    ensures var l' := l.Put(order);
            && l'.Consistent() && l'.client == l.client && l'.table == l.table
            && Translates(l'.session, l.client, l'.server)
            && (forall n :: Knows(l'.server, n) <==> Knows(l.server, n) || Knows(l.client, n))
            && ((forall n | Knows(l.client, n) :: Knows(l.server, n)) ==> l'.server == l.server)
            && (l.client.unique > 0 ==> l'.ServerAccepts())
  {
    SnapshotIsAbsorbed(Server, l.client, l.server, l.session, order);
    SnapshotIsEmptyOnlyForEmptyRegistry(l.client, order);
  }

  lemma GetAbsorbs(l: Link, order: seq<Info>)
    requires l.Consistent() && l.server.Enumerates(order)
    ensures var l' := l.Get(order);
            && l'.Consistent() && l'.server == l.server && l'.session == l.session
            && Translates(l'.table, l.server, l'.client)
            && (forall n :: Knows(l'.client, n) <==> Knows(l.server, n) || Knows(l.client, n))
            && ((forall n | Knows(l.server, n) :: Knows(l.client, n)) ==> l'.client == l.client)
            && (!(forall n | Knows(l.server, n) :: Knows(l.client, n)) ==> l'.client.unique > l.client.unique)
            && (l.server.unique > 0 ==> l'.ClientAccepts())
  {
    assert SameTypes(l.server, l.client) by {
      assert forall x :: HeldByEither(l.server, l.client, x) <==> HeldByEither(l.client, l.server, x);
    }
    SnapshotIsAbsorbed(Client, l.server, l.client, l.table, order);
    SnapshotIsEmptyOnlyForEmptyRegistry(l.server, order);
  }

  lemma KnownNameMeansNonEmpty(reg: RegistryState, name: string)
    requires reg.Valid() && Knows(reg, name)
    ensures reg.unique > 0
  {
    LookupIsHeld(reg, name);
  }

  lemma NonEmptyMeansKnownName(reg: RegistryState) returns (name: string)
    requires reg.Valid() && reg.unique > 0
    ensures Knows(reg, name)
  {
    assert reg.HasId(0);
    var x :| reg.Holds(x) && x.unique == 0;
    LookupIsHeld(reg, x.name);
    return x.name;
  }

  /**
   * Handshake convergence: from any tables and any two registries without a type clash, put, get and
   * put settle the connection, whatever order each snapshot is sent in, unless both registries are empty.
   * The second put no longer grows the server's registry.
   */
  lemma HandshakeConverges(l: Link, o1: seq<Info>, o2: seq<Info>, o3: seq<Info>)
    requires l.Consistent()
    requires l.client.unique > 0 || l.server.unique > 0
    requires l.client.Enumerates(o1)
    requires l.Put(o1).server.Enumerates(o2)
    requires l.Put(o1).Get(o2).client.Enumerates(o3)
    ensures l.Put(o1).Get(o2).Put(o3).Settled()
    ensures l.Put(o1).Get(o2).Put(o3).server == l.Put(o1).server
  {
    var l1 := l.Put(o1);
    PutAbsorbs(l, o1);
    var l2 := l1.Get(o2);
    GetAbsorbs(l1, o2);
    PutAbsorbs(l2, o3);
    var name := NonEmptyMeansKnownName(if l.client.unique > 0 then l.client else l.server);
    KnownNameMeansNonEmpty(l1.server, name);
    KnownNameMeansNonEmpty(l2.client, name);
  }

  /**
   * Why the handshake needs one description somewhere: with nothing registered on either side it never
   * makes the server accept arguments. A process that links the library registers nine before it starts.
   */
  lemma EmptyRegistriesNeverSettle(o1: seq<Info>, o2: seq<Info>, o3: seq<Info>)
    requires var l := Link(EMPTY_REGISTRY, EMPTY_REGISTRY, EMPTY_TABLE, EMPTY_TABLE);
             l.client.Enumerates(o1) && l.Put(o1).server.Enumerates(o2) && l.Put(o1).Get(o2).client.Enumerates(o3)
    ensures var l := Link(EMPTY_REGISTRY, EMPTY_REGISTRY, EMPTY_TABLE, EMPTY_TABLE);
            !l.Put(o1).Get(o2).Put(o3).ServerAccepts()
  {
    var l := Link(EMPTY_REGISTRY, EMPTY_REGISTRY, EMPTY_TABLE, EMPTY_TABLE);
    SnapshotIsEmptyOnlyForEmptyRegistry(l.client, o1);
    SnapshotIsEmptyOnlyForEmptyRegistry(l.server, o2);
    SnapshotIsEmptyOnlyForEmptyRegistry(l.client, o3);
  }

  lemma SettledKnowsSameNames(l: Link)
    requires l.Settled()
    ensures forall n :: Knows(l.client, n) <==> Knows(l.server, n)
    ensures l.client.unique == 0 <==> l.server.unique == 0
  {
    forall n
      ensures Knows(l.client, n) <==> Knows(l.server, n)
    {
      LookupIsHeld(l.client, n);
      LookupIsHeld(l.server, n);
    }
    if l.client.unique > 0 {
      var n := NonEmptyMeansKnownName(l.client);
      KnownNameMeansNonEmpty(l.server, n);
    }
    if l.server.unique > 0 {
      var n := NonEmptyMeansKnownName(l.server);
      KnownNameMeansNonEmpty(l.client, n);
    }
  }

  /** A settled connection is a fixed point of a further put: the server's registry does not change again. */
  lemma SettledPutIsFixed(l: Link, order: seq<Info>)
    requires l.Settled() && l.client.Enumerates(order)
    ensures l.Put(order).Settled() && l.Put(order).server == l.server && l.Put(order).client == l.client
  {
    SettledKnowsSameNames(l);
    PutAbsorbs(l, order);
    SnapshotIsEmptyOnlyForEmptyRegistry(l.client, order);
  }

  /** A settled connection is a fixed point of a further get: the client's registry does not change again. */
  lemma SettledGetIsFixed(l: Link, order: seq<Info>)
    requires l.Settled() && l.server.Enumerates(order)
    ensures l.Get(order).Settled() && l.Get(order).server == l.server && l.Get(order).client == l.client
  {
    SettledKnowsSameNames(l);
    GetAbsorbs(l, order);
    SnapshotIsEmptyOnlyForEmptyRegistry(l.server, order);
  }

  /**
   * After a first put and get the server still accepts the client's version exactly when the server
   * had no name that was new to the client; otherwise the get has outdated the put.
   */
  lemma SecondPutNeededExactlyForNewNames(l: Link, o1: seq<Info>, o2: seq<Info>)
    requires l.Consistent() && l.client.unique > 0
    requires l.client.Enumerates(o1) && l.Put(o1).server.Enumerates(o2)
    ensures l.Put(o1).Get(o2).ServerAccepts() <==> forall n | Knows(l.server, n) :: Knows(l.client, n)
  {
    PutAbsorbs(l, o1);
    GetAbsorbs(l.Put(o1), o2);
  }

  ghost predicate NoSlotFrom(table: Table, version: nat) {
    forall i: nat | version <= i :: table.Slot(i).None?
  }

  lemma SnapshotIsBelowVersion(reg: RegistryState, order: seq<Info>)
    requires reg.Valid() && reg.Enumerates(order)
    ensures forall x | x in order :: x.unique < reg.unique
  {
    forall x | x in order
      ensures x.unique < reg.unique
    {
      assert reg.Holds(x);
    }
  }

  lemma FilledMapsNoFurther(table: Table, version: nat, order: seq<Info>, reg': RegistryState, table': Table)
    requires Filled(table, version, order, reg', table') && NoSlotFrom(table, version)
    requires forall x | x in order :: x.unique < version
    ensures NoSlotFrom(table', version)
  {
    forall i: nat | version <= i
      ensures table'.Slot(i).None?
    {
      assert table'.Slot(i) == table.Slot(i);
    }
  }

  /** A client that reads nothing but whole snapshots never maps an id its last one did not have. */
  lemma GetMapsNoFurther(l: Link, order: seq<Info>)
    requires l.Consistent() && l.server.Enumerates(order) && NoSlotFrom(l.table, l.server.unique)
    ensures NoSlotFrom(l.Get(order).table, l.server.unique)
  {
    assert SameTypes(l.server, l.client) by {
      assert forall x :: HeldByEither(l.server, l.client, x) <==> HeldByEither(l.client, l.server, x);
    }
    hide RegistryState.Valid, RegistryState.Enumerates, SameTypes, Translates, Grown, Filled, Knows, KnowsAll;
    hide NoSlotFrom;
    hide ReceiveAll;
    SnapshotIsAbsorbed(Client, l.server, l.client, l.table, order);
    SnapshotIsBelowVersion(l.server, order);
    var d := ReceiveAll(Client, l.client, l.table, l.server.unique, order);
    FilledMapsNoFurther(l.table, l.server.unique, order, d.reg, d.table);
  }
}

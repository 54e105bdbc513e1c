/**
 * The handshake of any number of clients with one server (src/ipc/grpc/erebus_service.cxx,
 * src/ipc/grpc/grpc_client.cxx), each in a process of its own: a round in which every client puts, one in
 * which every client gets, and one in which every client puts again.
 */
module ManyClients {
  import opened PropertyRegistry
  import opened PropertyMapping

  datatype Net = Net(server: RegistryState, clients: seq<RegistryState>, sessions: seq<Table>, tables: seq<Table>) {

    ghost predicate WellFormed() {
      |sessions| == |clients| && |tables| == |clients|
    }

    function LinkOf(i: nat): Link
      requires i < |clients| && i < |sessions| && i < |tables|
    {
      Link(clients[i], server, sessions[i], tables[i])
    }

    function With(i: nat, l: Link): Net
      requires i < |clients| && i < |sessions| && i < |tables|
    {
      Net(l.server, clients[i := l.client], sessions[i := l.session], tables[i := l.table])
    }

    /** The first `k` clients put, one after the other. */
    function PutRound(orders: seq<seq<Info>>, k: nat): (net: Net)
      requires |sessions| == |clients| && |tables| == |clients| && k <= |clients| && k <= |orders|
      ensures |net.clients| == |clients| && |net.sessions| == |clients| && |net.tables| == |clients|
      decreases k
    {
      if k == 0 then this
      else
        var net := PutRound(orders, k - 1);
        net.With(k - 1, net.LinkOf(k - 1).Put(orders[k - 1]))
    }

    /** The first `k` clients get, one after the other. */
    function GetRound(orders: seq<seq<Info>>, k: nat): (net: Net)
      requires |sessions| == |clients| && |tables| == |clients| && k <= |clients| && k <= |orders|
      ensures |net.clients| == |clients| && |net.sessions| == |clients| && |net.tables| == |clients|
      decreases k
    {
      if k == 0 then this
      else
        var net := GetRound(orders, k - 1);
        net.With(k - 1, net.LinkOf(k - 1).Get(orders[k - 1]))
    }

    /** Each client's messages in the round are its own snapshot. */
    ghost predicate OwnSnapshots(orders: seq<seq<Info>>) {
      |orders| == |clients| && forall i | 0 <= i < |clients| :: clients[i].Enumerates(orders[i])
    }

    ghost predicate ServerSnapshots(orders: seq<seq<Info>>) {
      |orders| == |clients| && forall i | 0 <= i < |orders| :: server.Enumerates(orders[i])
    }

    /** Every registry is valid, and across all of them no name has two types: `types` says which it has. */
    ghost predicate Agrees(types: map<string, PropertyType>) {
      && WellFormed() && server.Valid() && Typed(server, types)
      && forall i | 0 <= i < |clients| :: clients[i].Valid() && Typed(clients[i], types)
    }
  }

  ghost predicate Typed(reg: RegistryState, types: map<string, PropertyType>) {
    forall x | reg.Holds(x) :: x.name in types && types[x.name] == x.ty
  }

  ghost predicate KnowsNamesOf(a: RegistryState, b: RegistryState) {
    forall n | Knows(b, n) :: Knows(a, n)
  }

  /** Every lookup that gave an answer still gives the same. */
  ghost predicate LookupsKept(reg: RegistryState, later: RegistryState) {
    forall n | Knows(reg, n) :: later.Lookup(n) == reg.Lookup(n)
  }

  lemma TypedIsSameTypes(a: RegistryState, b: RegistryState, types: map<string, PropertyType>)
    requires Typed(a, types) && Typed(b, types)
    ensures SameTypes(a, b)
  {
    hide RegistryState.Holds;
  }

  lemma GrowthIsTyped(
      sender: RegistryState, reg: RegistryState, order: seq<Info>, reg': RegistryState,
      types: map<string, PropertyType>)
    requires Typed(sender, types) && Typed(reg, types) && sender.Enumerates(order) && Grown(reg, order, reg')
    ensures Typed(reg', types)
  {
    hide RegistryState.Holds;
    forall y | reg'.Holds(y)
      ensures y.name in types && types[y.name] == y.ty
    {
      if !reg.Holds(y) {
        assert Describes(order, y);
        var x :| x in order && x.name == y.name && x.ty == y.ty;
        assert sender.Holds(x);
      }
    }
  }

  lemma TranslatesKept(table: Table, sender: RegistryState, reg: RegistryState, later: RegistryState)
    requires Translates(table, sender, reg) && LookupsKept(reg, later)
    ensures Translates(table, sender, later)
  {
    hide RegistryState.Holds;
  }

  lemma TranslatesKnows(table: Table, sender: RegistryState, reg: RegistryState)
    requires sender.Valid() && Translates(table, sender, reg)
    ensures KnowsNamesOf(reg, sender)
  {
    forall n | Knows(sender, n)
      ensures Knows(reg, n)
    {
      LookupIsHeld(sender, n);
    }
  }

  /** What one put of a typed client does, typing included. */
  lemma TypedPut(l: Link, order: seq<Info>, types: map<string, PropertyType>)
    requires l.client.Valid() && l.server.Valid() && Typed(l.client, types) && Typed(l.server, types)
    requires l.client.Enumerates(order)
    ensures var l' := l.Put(order);
            && l'.client == l.client && l'.table == l.table
            && l'.server.Valid() && Typed(l'.server, types) && LookupsKept(l.server, l'.server)
            && Translates(l'.session, l.client, l'.server) && KnowsNamesOf(l'.server, l.client)
            && (KnowsNamesOf(l.server, l.client) ==> l'.server == l.server)
            && (l.client.unique > 0 ==> l'.ServerAccepts())
  {
    TypedIsSameTypes(l.client, l.server, types);
    PutAbsorbs(l, order);
    SnapshotIsAbsorbed(Server, l.client, l.server, l.session, order);
    GrowthIsTyped(l.client, l.server, order, l.Put(order).server, types);
    TranslatesKnows(l.Put(order).session, l.client, l.Put(order).server);
    hide RegistryState.Valid, Translates, Typed, SameTypes, ReceiveAll, RegistryState.Enumerates;
  }

  lemma TypedGet(l: Link, order: seq<Info>, types: map<string, PropertyType>)
    requires l.client.Valid() && l.server.Valid() && Typed(l.client, types) && Typed(l.server, types)
    requires l.server.Enumerates(order) && KnowsNamesOf(l.server, l.client)
    ensures var l' := l.Get(order);
            && l'.server == l.server && l'.session == l.session
            && l'.client.Valid() && Typed(l'.client, types)
            && Translates(l'.table, l.server, l'.client) && KnowsNamesOf(l.server, l'.client)
            && KnowsNamesOf(l'.client, l.server)
            && (l.server.unique > 0 ==> l'.ClientAccepts())
  {
    TypedIsSameTypes(l.client, l.server, types);
    TypedIsSameTypes(l.server, l.client, types);
    GetAbsorbs(l, order);
    SnapshotIsAbsorbed(Client, l.server, l.client, l.table, order);
    GrowthIsTyped(l.server, l.client, order, l.Get(order).client, types);
    hide RegistryState.Valid, Translates, Typed, SameTypes, ReceiveAll, RegistryState.Enumerates;
  }

  /** After a round of puts the server translates every client's ids, and nothing else has changed. */
  lemma {:induction false} PutRoundAbsorbs(net: Net, orders: seq<seq<Info>>, k: nat, types: map<string, PropertyType>)
    requires net.Agrees(types) && net.OwnSnapshots(orders) && k <= |net.clients|
    ensures var net' := net.PutRound(orders, k);
            && net'.Agrees(types) && net'.clients == net.clients && net'.tables == net.tables
            && LookupsKept(net.server, net'.server)
            && (forall i: nat | i < k ::
                  && Translates(net'.sessions[i], net.clients[i], net'.server)
                  && KnowsNamesOf(net'.server, net.clients[i])
                  && (net.clients[i].unique > 0 ==> net'.LinkOf(i).ServerAccepts()))
            && ((forall i | 0 <= i < |net.clients| :: KnowsNamesOf(net.server, net.clients[i])) ==>
                  net'.server == net.server)
    decreases k
  {
    hide RegistryState.Valid, RegistryState.Enumerates, Typed, Translates, Link.Put, KnowsNamesOf, LookupsKept;
    if k == 0 {
      LookupsReflexive(net.server);
    } else {
      PutRoundAbsorbs(net, orders, k - 1, types);
      var before := net.PutRound(orders, k - 1);
      var l := before.LinkOf(k - 1);
      TypedPut(l, orders[k - 1], types);
      var net' := net.PutRound(orders, k);
      assert net'.clients == net.clients && net'.tables == net.tables;
      LookupsTransitive(net.server, before.server, net'.server);
      forall i: nat | i < k
        ensures Translates(net'.sessions[i], net.clients[i], net'.server) && KnowsNamesOf(net'.server, net.clients[i])
      {
        if i < k - 1 {
          TranslatesKept(before.sessions[i], net.clients[i], before.server, net'.server);
          NamesKept(before.server, net'.server, net.clients[i]);
        }
      }
    }
  }

  lemma LookupsReflexive(reg: RegistryState)
    ensures LookupsKept(reg, reg)
  {
  }

  lemma LookupsTransitive(a: RegistryState, b: RegistryState, c: RegistryState)
    requires LookupsKept(a, b) && LookupsKept(b, c)
    ensures LookupsKept(a, c)
  {
  }

  lemma NamesKept(reg: RegistryState, later: RegistryState, other: RegistryState)
    requires LookupsKept(reg, later) && KnowsNamesOf(reg, other)
    ensures KnowsNamesOf(later, other)
  {
  }

  /** After a round of gets every client translates the server's ids and knows exactly the server's names. */
  lemma {:induction false} GetRoundAbsorbs(net: Net, orders: seq<seq<Info>>, k: nat, types: map<string, PropertyType>)
    requires net.Agrees(types) && net.ServerSnapshots(orders) && k <= |net.clients|
    requires forall i | 0 <= i < |net.clients| :: KnowsNamesOf(net.server, net.clients[i])
    ensures var net' := net.GetRound(orders, k);
            && net'.Agrees(types) && net'.server == net.server && net'.sessions == net.sessions
            && (forall i | 0 <= i < |net.clients| :: KnowsNamesOf(net.server, net'.clients[i]))
            && (forall i: nat | i < k ::
                  && Translates(net'.tables[i], net.server, net'.clients[i])
                  && KnowsNamesOf(net'.clients[i], net.server)
                  && (net.server.unique > 0 ==> net'.LinkOf(i).ClientAccepts()))
    decreases k
  {
    hide RegistryState.Valid, RegistryState.Enumerates, Typed, Translates, Link.Get, KnowsNamesOf;
    if k > 0 {
      GetRoundAbsorbs(net, orders, k - 1, types);
      var before := net.GetRound(orders, k - 1);
      TypedGet(before.LinkOf(k - 1), orders[k - 1], types);
      assert net.GetRound(orders, k).sessions == net.sessions;
    }
  }

  lemma NonEmptyKnower(reg: RegistryState, other: RegistryState)
    requires reg.Valid() && other.Valid() && KnowsNamesOf(reg, other) && other.unique > 0
    ensures reg.unique > 0
  {
    var name := NonEmptyMeansKnownName(other);
    KnownNameMeansNonEmpty(reg, name);
  }

  /**
   * Convergence for all clients at once: from any tables and any registries that agree on types, not all
   * empty, after every client has put, then every client has got, then every client has put again, every
   * connection is settled, and the last round has added nothing to the server.
   */
  lemma AllClientsSettle(
      net: Net, o1: seq<seq<Info>>, o2: seq<seq<Info>>, o3: seq<seq<Info>>, types: map<string, PropertyType>)
    requires net.Agrees(types) && net.OwnSnapshots(o1)
    requires net.server.unique > 0 || exists i :: 0 <= i < |net.clients| && net.clients[i].unique > 0
    requires net.PutRound(o1, |net.clients|).ServerSnapshots(o2)
    requires net.PutRound(o1, |net.clients|).GetRound(o2, |net.clients|).OwnSnapshots(o3)
    ensures var n := |net.clients|;
            var last := net.PutRound(o1, n).GetRound(o2, n).PutRound(o3, n);
            && (forall i: nat | i < n :: last.LinkOf(i).Settled())
            && last.server == net.PutRound(o1, n).server
  {
    var n := |net.clients|;
    PutRoundAbsorbs(net, o1, n, types);
    var put := net.PutRound(o1, n);
    GetRoundAbsorbs(put, o2, n, types);
    var got := put.GetRound(o2, n);
    PutRoundAbsorbs(got, o3, n, types);
    var last := got.PutRound(o3, n);
    assert put.server.unique > 0 by {
      ServerIsNonEmpty(net, put);
    }
    hide RegistryState.Valid, RegistryState.Enumerates, Typed, Translates, Link.Get, Link.Put, KnowsNamesOf;
    hide LookupsKept;
    forall i: nat | i < n
      ensures last.LinkOf(i).Settled()
    {
      NonEmptyKnower(got.clients[i], put.server);
      TypedIsSameTypes(last.clients[i], last.server, types);
      assert last.LinkOf(i).ClientAccepts() by {
        assert got.LinkOf(i).ClientAccepts();
      }
    }
  }

  lemma ServerIsNonEmpty(net: Net, put: Net)
    requires net.server.Valid() && put.server.Valid()
    requires put.clients == net.clients && LookupsKept(net.server, put.server)
    requires forall i | 0 <= i < |net.clients| :: net.clients[i].Valid() && KnowsNamesOf(put.server, net.clients[i])
    requires net.server.unique > 0 || exists i :: 0 <= i < |net.clients| && net.clients[i].unique > 0
    ensures put.server.unique > 0
  {
    if net.server.unique > 0 {
      NonEmptyKnower(put.server, net.server);
    } else {
      var i :| 0 <= i < |net.clients| && net.clients[i].unique > 0;
      NonEmptyKnower(put.server, net.clients[i]);
    }
  }
}

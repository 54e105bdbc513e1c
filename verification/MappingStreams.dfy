/** The two mapping streams from end to end: the writer's messages are what the reading side takes in. */
module MappingStreams {
  import opened Basics
  import opened PropertyRegistry
  import opened PropertyMapping
  import opened ServerSide
  import opened ClientSide
  import opened StreamReactors

  /** Writes the whole snapshot; every write succeeds. */
  method WriteSnapshot(side: Side, registry: Registry) returns (msgs: seq<MappingMessage>, ghost order: seq<Info>)
    requires registry.State().Valid()
    ensures registry.State().Enumerates(order) && |msgs| == |order|
    ensures forall k | 0 <= k < |order| :: msgs[k] == MappingMessage(registry.unique, order[k])
  {
    var writer := new SnapshotWriter(side, registry);
    if writer.end.None? {
      writer.WriteAll();
    }
    StampedKeepsInfos(writer.version, writer.properties);
    assert writer.properties[..|writer.properties|] == writer.properties;
    return writer.sent, writer.properties;
  }

  /**
   * A put: the server takes in the client's messages until one raises an exception. What it then knows is
   * what the put of the specification says, for some order of the client's descriptions.
   */
  method PutThrough(client: ClientImpl, server: ErebusService) returns (thrown: bool, ghost order: seq<Info>)
    requires client.registry.State().Valid()
    modifies server`sessions, server.registry
    ensures old(client.registry.State()).Enumerates(order)
    ensures var l := old(LinkOf(client, server)).Put(order);
            server.registry.State() == l.server && server.SessionOf(client.clientId) == l.session
    ensures thrown <==> ReceiveAll(Server, old(server.registry.State()), old(server.SessionOf(client.clientId)),
                                   old(client.registry.unique), order).thrown
  {
    hide Receive, RegistryState.Enumerates, RegistryState.Valid;
    var msgs;
    msgs, order := WriteSnapshot(Side.Client, client.registry);
    ghost var version := client.registry.unique;
    ghost var whole := ReceiveAll(Server, server.registry.State(), server.SessionOf(client.clientId), version, order);
    for i := 0 to |msgs|
      invariant ReceiveAll(Server, server.registry.State(), server.SessionOf(client.clientId), version, order[i..])
             == whole
    {
      assert order[i..][0] == order[i] && order[i..][1..] == order[i + 1..];
      thrown := server.RegisterPropertyMapping(msgs[i].version, client.clientId, msgs[i].info);
      if thrown {
        return;
      }
    }
    thrown := false;
  }

  /** A get: the client takes in all the server's messages, whatever some of them raise. */
  method GetThrough(client: ClientImpl, server: ErebusService) returns (ghost order: seq<Info>)
    requires server.registry.State().Valid()
    modifies client`mapping, client.registry
    ensures old(server.registry.State()).Enumerates(order)
    ensures var l := old(LinkOf(client, server)).Get(order);
            client.registry.State() == l.client && client.mapping == l.table
  {
    hide Receive, RegistryState.Enumerates, RegistryState.Valid;
    var msgs;
    msgs, order := WriteSnapshot(Side.Server, server.registry);
    ghost var version := server.registry.unique;
    ghost var whole := ReceiveAll(Side.Client, client.registry.State(), client.mapping, version, order);
    for i := 0 to |msgs|
      invariant ReceiveAll(Side.Client, client.registry.State(), client.mapping, version, order[i..]).reg == whole.reg
      invariant ReceiveAll(Side.Client, client.registry.State(), client.mapping, version, order[i..]).table
             == whole.table
    {
      assert order[i..][0] == order[i] && order[i..][1..] == order[i + 1..];
      var _ := client.PutPropertyMapping(msgs[i].version, msgs[i].info);
    }
  }
}

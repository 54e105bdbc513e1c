/** The client object (src/ipc/grpc/grpc_client.cxx), run one operation at a time. */
module ClientSide {
  import opened Basics
  import opened PropertyRegistry
  import opened PropertyMapping
  import opened WireProtocol
  import opened RemoteCalls
  import opened ServerSide

  class ClientImpl {
    const registry: Registry
    const clientId: nat
    var mapping: Table

    constructor (registry: Registry, clientId: nat)
      ensures this.registry == registry && this.clientId == clientId && mapping == EMPTY_TABLE
    {
      this.registry, this.clientId, mapping := registry, clientId, EMPTY_TABLE;
    }

    method MapProperty(id: nat) returns (slot: Option<Info>)
      ensures slot == mapping.Slot(id)
      ensures slot.Some? ==> id < |mapping.slots|
    {
      if id < |mapping.slots| {
        return mapping.slots[id];
      }
      return None;
    }

    /** Allocates first; an exception leaves the table and its version alone. */
    method PutPropertyMapping(version: nat, msg: Info) returns (thrown: bool)
      modifies this`mapping, registry
      ensures Delivery(registry.State(), mapping, thrown)
           == Receive(Side.Client, old(registry.State()), old(mapping), version, msg)
      ensures thrown ==> mapping == old(mapping) && registry.State() == old(registry.State())
      ensures !thrown ==> mapping.version == version && mapping.Slot(msg.unique) == registry.State().Lookup(msg.name)
      ensures forall i: nat | thrown || i != msg.unique :: mapping.Slot(i) == old(mapping).Slot(i)
    {
      ClashLeaves(Side.Client, registry.State(), mapping, version, msg);
      MessageStores(Side.Client, registry.State(), mapping, version, msg);
      var info := registry.AllocateTransientProperty(msg.ty, msg.name, msg.readable);
      if info.Err? {
        return true;
      }
      var slots := mapping.slots;
      if |slots| <= msg.unique {
        slots := Widened(slots, msg.unique);
      }
      slots := slots[msg.unique := Some(info.value)];
      mapping := Table(slots, version);
      return false;
    }

    /** Reads a get stream to its end; an exception is logged and reading goes on. */
    method ReadGetStream(version: nat, msgs: seq<Info>) returns (thrown: bool)
      modifies this`mapping, registry
      ensures Delivery(registry.State(), mapping, thrown)
           == ReceiveAll(Side.Client, old(registry.State()), old(mapping), version, msgs)
    {
      ghost var whole := ReceiveAll(Side.Client, registry.State(), mapping, version, msgs);
      thrown := false;
      for i := 0 to |msgs|
        invariant ReceiveAll(Side.Client, registry.State(), mapping, version, msgs[i..]).reg == whole.reg
        invariant ReceiveAll(Side.Client, registry.State(), mapping, version, msgs[i..]).table == whole.table
        invariant whole.thrown
             <==> thrown || ReceiveAll(Side.Client, registry.State(), mapping, version, msgs[i..]).thrown
      {
        assert msgs[i..][0] == msgs[i] && msgs[i..][1..] == msgs[i + 1..];
        var failed := PutPropertyMapping(version, msgs[i]);
        thrown := thrown || failed;
      }
    }

    method MakeCall(args: Bag) returns (request: Request)
      ensures request == MakeRequest(registry.State(), clientId, args)
      ensures |request.args| == |args| && request.version == registry.unique
    {
      var out := [];
      for i := 0 to |args|
        invariant out == AssignBag(args[..i])
      {
        out := out + [AssignProperty(args[i])];
      }
      assert args[..|args|] == args;
      return Request(Some(clientId), registry.unique, out);
    }

    method Unmarshal(props: seq<WireProperty>) returns (res: Result<Bag>)
      ensures res == DecodeAll(props, mapping)
      ensures res.Ok? ==> |res.value| == |props|
    {
      var bag: Bag := [];
      assert props[0..] == props;
      ResumedAtEnds(DecodeAll(props, mapping), []);
      for i := 0 to |props|
        invariant |bag| == i
        invariant DecodeAll(props, mapping) == Resumed(bag, DecodeAll(props[i..], mapping))
      {
        var slot := MapProperty(props[i].id);
        var p := GetProperty(props[i], slot);
        assert props[i..][0] == props[i] && props[i..][1..] == props[i + 1..];
        if p.Err? {
          return Err(p.error);
        }
        ghost var rest := DecodeAll(props[i + 1..], mapping);
        assert rest.Ok? ==> bag + ([p.value] + rest.value) == (bag + [p.value]) + rest.value;
        bag := bag + [p.value];
      }
      ResumedAtEnds(Ok([]), bag);
      return Ok(bag);
    }

    method CompleteCall(reply: Reply) returns (outcome: Outcome)
      ensures outcome == Complete(mapping, reply)
      ensures outcome.OnReply? ==> reply.result == SUCCESS && reply.version == mapping.version
    {
      if reply.result != SUCCESS {
        if reply.result == PROPERTY_MAPPING_EXPIRED {
          return ServerMappingExpired;
        } else if reply.exception.None? {
          return TransportError;
        }
      }
      if reply.version != mapping.version {
        return ClientMappingExpired;
      }
      if reply.exception.Some? {
        var props := Unmarshal(reply.exception.value.props);
        match props {
          case Err(e) => return Silent(e);
          case Ok(bag) => return OnException(reply.exception.value.message, bag);
        }
      }
      var props := Unmarshal(reply.props);
      match props {
        case Err(e) => return Silent(e);
        case Ok(bag) => return OnReply(bag);
      }
    }
  }

  function LinkOf(client: ClientImpl, server: ErebusService): Link
    reads client, client.registry, server, server.registry
  {
    Link(client.registry.State(), server.registry.State(), server.SessionOf(client.clientId), client.mapping)
  }

  /** Put, get and put settle the connection of a client and a server, in two processes or in one. */
  method Handshake(client: ClientImpl, server: ErebusService)
    requires LinkOf(client, server).Consistent()
    requires client.registry.unique > 0 || server.registry.unique > 0
    modifies client`mapping, client.registry, server`sessions, server.registry
    ensures LinkOf(client, server).Settled()
    ensures forall c | c in old(server.sessions) && c != client.clientId ::
              c in server.sessions && server.sessions[c] == old(server.sessions[c])
  {
    hide RegistryState.Valid, RegistryState.Enumerates, ReceiveAll, SameTypes, Translates, Knows, Link.Settled;
    ghost var l := LinkOf(client, server);
    var o1, v1 := client.registry.EnumerateProperties();
    PutAbsorbs(l, o1);
    var _ := server.ReadPutStream(v1, client.clientId, o1);
    assert client.registry == server.registry ==> l.Put(o1).server == l.server;
    assert LinkOf(client, server) == l.Put(o1);
    var o2, v2 := server.registry.EnumerateProperties();
    GetAbsorbs(l.Put(o1), o2);
    var _ := client.ReadGetStream(v2, o2);
    assert client.registry == server.registry ==> l.Put(o1).Get(o2).client == l.client;
    assert LinkOf(client, server) == l.Put(o1).Get(o2);
    var o3, v3 := client.registry.EnumerateProperties();
    HandshakeConverges(l, o1, o2, o3);
    var _ := server.ReadPutStream(v3, client.clientId, o3);
    assert LinkOf(client, server) == l.Put(o1).Get(o2).Put(o3);
  }

  /**
   * A whole call through both objects is the call of the specification; only the service can change anything.
   * A call to an address without a service fails in transport and changes nothing.
   */
  method RoundTrip(client: ClientImpl, server: ErebusService, uri: string, args: Bag) returns (outcome: Outcome)
    modifies server`sessions, server.registry
    ensures uri !in server.services ==>
              outcome == TransportError && server.sessions == old(server.sessions)
              && server.registry.State() == old(server.registry.State())
    ensures uri in server.services ==>
              var l, service := old(LinkOf(client, server)), server.services[uri];
              && outcome == Call(l, client.clientId, args, service)
              && server.registry.State()
                 == Serve(l.server, l.session, MakeRequest(l.client, client.clientId, args), service).reg
    ensures LinkOf(client, server).session == old(LinkOf(client, server)).session
    ensures client.mapping == old(client.mapping)
  {
    var request := client.MakeCall(args);
    var reply := server.GenericCall(uri, request);
    match reply {
      case None => outcome := TransportError;
      case Some(r) => outcome := client.CompleteCall(r);
    }
  }
}

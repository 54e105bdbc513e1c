/** The server object (src/ipc/grpc/erebus_service.cxx), run one operation at a time. */
module ServerSide {
  import opened Basics
  import opened PropertyRegistry
  import opened PropertyMapping
  import opened WireProtocol
  import opened RemoteCalls

  /** Decoding goes on after `done` was decoded from the first `|done|` properties. */
  function Resumed(done: Bag, rest: Result<Bag>): Result<Bag> {
    match rest
    case Ok(bag) => Ok(done + bag)
    case Err(e) => Err(e)
  }

  lemma ResumedAtEnds(all: Result<Bag>, done: Bag)
    ensures Resumed([], all) == all
    ensures Resumed(done, Ok([])) == Ok(done)
  {
    assert done + [] == done;
    if all.Ok? {
      assert [] + all.value == all.value;
    }
  }

  class ErebusService {
    const registry: Registry
    var sessions: map<nat, Table>
    var services: map<string, Service>

    constructor (registry: Registry)
      ensures this.registry == registry && sessions == map[] && services == map[]
    {
      this.registry := registry;
      sessions, services := map[], map[];
    }

    function SessionOf(clientId: nat): Table
      reads this
    {
      if clientId in sessions then sessions[clientId] else EMPTY_TABLE
    }

    /** The other clients' sessions are as they were, and this client has one. */
    twostate predicate OnlySessionOf(clientId: nat)
      reads this
    {
      && services == old(services)
      && sessions == old(sessions)[clientId := SessionOf(clientId)]
    }

    /** Finds the client's session, creating an empty one when there is none. */
    method GetSession(clientId: nat)
      modifies this`sessions
      ensures OnlySessionOf(clientId) && SessionOf(clientId) == old(SessionOf(clientId))
    {
      if clientId !in sessions {
        sessions := sessions[clientId := EMPTY_TABLE];
      }
    }

    method RegisterService(uri: string, service: Service) returns (registered: bool)
      modifies this`services
      ensures registered <==> uri !in old(services)
      ensures services == if registered then old(services)[uri := service] else old(services)
    {
      if uri in services {
        return false;
      }
      services := services[uri := service];
      return true;
    }

    method MapProperty(id: nat, clientId: nat) returns (slot: Option<Info>)
      modifies this`sessions
      ensures OnlySessionOf(clientId) && SessionOf(clientId) == old(SessionOf(clientId))
      ensures slot == SessionOf(clientId).Slot(id)
    {
      GetSession(clientId);
      var slots := sessions[clientId].slots;
      if id < |slots| {
        return slots[id];
      }
      return None;
    }

    method PropertyMappingValid(clientId: nat, version: nat) returns (valid: bool, known: nat)
      modifies this`sessions
      ensures OnlySessionOf(clientId) && SessionOf(clientId) == old(SessionOf(clientId))
      ensures valid <==> MappingValid(SessionOf(clientId), version)
      ensures known == if SessionOf(clientId).slots == [] then NO_VERSION else SessionOf(clientId).version
    {
      GetSession(clientId);
      var session := sessions[clientId];
      if session.slots == [] {
        return false, NO_VERSION;
      }
      return session.version == version, session.version;
    }

    /** Stamps the version, makes room for the id, and only then allocates; an exception leaves it there. */
    method RegisterPropertyMapping(version: nat, clientId: nat, msg: Info) returns (thrown: bool)
      modifies this`sessions, registry
      ensures OnlySessionOf(clientId)
      ensures Delivery(registry.State(), SessionOf(clientId), thrown)
           == Receive(Server, old(registry.State()), old(SessionOf(clientId)), version, msg)
      ensures SessionOf(clientId).version == version && msg.unique < |SessionOf(clientId).slots|
      ensures thrown <==> Knows(old(registry.State()), msg.name)
                          && old(registry.State()).Lookup(msg.name).value.ty != msg.ty
      ensures thrown ==> registry.State() == old(registry.State())
      ensures forall i: nat | thrown || i != msg.unique ::
                SessionOf(clientId).Slot(i) == old(SessionOf(clientId)).Slot(i)
      ensures !thrown ==> SessionOf(clientId).Slot(msg.unique) == registry.State().Lookup(msg.name)
    {
      ClashLeaves(Server, registry.State(), SessionOf(clientId), version, msg);
      MessageStores(Server, registry.State(), SessionOf(clientId), version, msg);
      GetSession(clientId);
      var id := msg.unique;
      sessions := sessions[clientId := Table(Widened(sessions[clientId].slots, id), version)];
      var info := registry.AllocateTransientProperty(msg.ty, msg.name, msg.readable);
      if info.Err? {
        return true;
      }
      var slots := sessions[clientId].slots[id := Some(info.value)];
      sessions := sessions[clientId := Table(slots, version)];
      return false;
    }

    /** Reads a put stream until it ends or a message raises an exception. */
    method ReadPutStream(version: nat, clientId: nat, msgs: seq<Info>) returns (thrown: bool)
      modifies this`sessions, registry
      ensures msgs != [] ==> OnlySessionOf(clientId)
      ensures msgs == [] ==> !thrown && sessions == old(sessions)
      ensures Delivery(registry.State(), SessionOf(clientId), thrown)
           == ReceiveAll(Server, old(registry.State()), old(SessionOf(clientId)), version, msgs)
    {
      hide Receive;
      ghost var whole := ReceiveAll(Server, registry.State(), SessionOf(clientId), version, msgs);
      for i := 0 to |msgs|
        invariant i > 0 ==> sessions == old(sessions)[clientId := SessionOf(clientId)]
        invariant i == 0 ==> sessions == old(sessions)
        invariant ReceiveAll(Server, registry.State(), SessionOf(clientId), version, msgs[i..]) == whole
      {
        thrown := RegisterPropertyMapping(version, clientId, msgs[i]);
        assert msgs[i..][0] == msgs[i] && msgs[i..][1..] == msgs[i + 1..];
        if thrown {
          return;
        }
      }
      return false;
    }

    method UnmarshalArgs(args: seq<WireProperty>, clientId: nat) returns (res: Result<Bag>)
      modifies this`sessions
      ensures args != [] ==> OnlySessionOf(clientId)
      ensures args == [] ==> sessions == old(sessions)
      ensures SessionOf(clientId) == old(SessionOf(clientId))
      ensures res == DecodeAll(args, SessionOf(clientId))
    {
      var bag: Bag := [];
      assert args[0..] == args;
      ResumedAtEnds(DecodeAll(args, SessionOf(clientId)), []);
      for i := 0 to |args|
        invariant i > 0 ==> sessions == old(sessions)[clientId := SessionOf(clientId)]
        invariant i == 0 ==> sessions == old(sessions)
        invariant SessionOf(clientId) == old(SessionOf(clientId))
        invariant DecodeAll(args, SessionOf(clientId)) == Resumed(bag, DecodeAll(args[i..], SessionOf(clientId)))
      {
        var slot := MapProperty(args[i].id, clientId);
        var p := GetProperty(args[i], slot);
        assert args[i..][0] == args[i] && args[i..][1..] == args[i + 1..];
        if p.Err? {
          return Err(p.error);
        }
        ghost var rest := DecodeAll(args[i + 1..], SessionOf(clientId));
        assert rest.Ok? ==> bag + ([p.value] + rest.value) == (bag + [p.value]) + rest.value;
        bag := bag + [p.value];
      }
      ResumedAtEnds(Ok([]), bag);
      return Ok(bag);
    }

    method MarshalReplyProps(bag: Bag) returns (out: seq<WireProperty>)
      ensures out == AssignBag(bag)
      ensures |out| == |bag| && forall i | 0 <= i < |bag| :: out[i].id == bag[i].info.unique
    {
      out := [];
      for i := 0 to |bag|
        invariant out == AssignBag(bag[..i])
      {
        out := out + [AssignProperty(bag[i])];
      }
      assert bag[..|bag|] == bag;
    }

    /** Handles one call; no reply means the request was refused as unimplemented. */
    method GenericCall(uri: string, request: Request) returns (reply: Option<Reply>)
      modifies this`sessions, registry
      ensures reply.None? <==> uri !in services
      ensures reply.Some? ==>
                Served(reply.value, registry.State())
                == Serve(old(registry.State()), old(SessionOf(request.Client())), request, services[uri])
      ensures reply.None? ==> sessions == old(sessions) && registry.State() == old(registry.State())
      ensures reply.Some? ==> OnlySessionOf(request.Client())
      ensures SessionOf(request.Client()) == old(SessionOf(request.Client()))
    {
      if uri !in services {
        return None;
      }
      var service := services[uri];
      var version := registry.unique;
      var clientId := request.Client();
      var valid, _ := PropertyMappingValid(clientId, request.version);
      if |request.args| > 0 && (clientId == NO_CLIENT || !valid) {
        return Some(Reply(PROPERTY_MAPPING_EXPIRED, None, version, []));
      }
      var args := UnmarshalArgs(request.args, clientId);
      match args {
        case Err(e) =>
          return Some(Reply(FAILURE, Some(MarshalException(Raised(e), [])), version, []));
        case Ok(bag) =>
          var result := RunService(service, bag);
          match result {
            case Threw(message, props) =>
              return Some(Reply(FAILURE, Some(MarshalException(message, props)), version, []));
            case Failed(what) =>
              return Some(Reply(FAILURE, Some(WireException(Text(what), [])), version, []));
            case Returned(out) =>
              var props := MarshalReplyProps(out);
              return Some(Reply(SUCCESS, None, version, props));
          }
      }
    }

    /** The service runs in the server's process: what it registers, it registers here. */
    method RunService(service: Service, args: Bag) returns (result: ServiceResult)
      modifies registry
      ensures registry.State() == old(registry.State()).RegisteredAll(service(args).registrations)
      ensures result == service(args).answer(registry.State())
    {
      var work := service(args);
      registry.RegisterAll(work.registrations);
      result := work.answer(registry.State());
    }
  }
}

/**
 * One remote call: the client's request, the server's checks and reply, the client's checks
 * (src/ipc/grpc/erebus_service.cxx, src/ipc/grpc/grpc_client.cxx).
 */
module RemoteCalls {
  import opened Basics
  import opened PropertyRegistry
  import opened PropertyMapping
  import opened WireProtocol

  /** The text of an exception: the service's own, or that of an error raised while decoding. */
  datatype Message = Text(text: string) | Raised(error: Error)

  /** `Failed` is an exception that is not the program's own, of which only a text is known. */
  datatype ServiceResult = Returned(bag: Bag) | Threw(message: Message, props: Bag) | Failed(what: string)

  /**
   * What a service does with its arguments: it may register descriptions while it runs, and builds its
   * answer, or its exception, from the registry as it then is.
   */
  datatype Work = Work(registrations: seq<Registration>, answer: RegistryState -> ServiceResult)

  type Service = Bag -> Work

  /** What a request leaves behind: the reply, and the server's registry after the service ran. */
  datatype Served = Served(reply: Reply, reg: RegistryState)

  /** The client id a request without one is handled under. */
  const NO_CLIENT: nat := 0xFFFF_FFFF

  datatype Request = Request(clientId: Option<nat>, version: nat, args: seq<WireProperty>) {
    function Client(): nat {
      clientId.GetOr(NO_CLIENT)
    }

    /** The server will not decode arguments it has no valid mapping for. */
    predicate Expired(session: Table) {
      args != [] && (Client() == NO_CLIENT || !MappingValid(session, version))
    }
  }

  datatype CallResult = SUCCESS | PROPERTY_MAPPING_EXPIRED | FAILURE

  datatype WireException = WireException(message: Message, props: seq<WireProperty>)

  datatype Reply = Reply(result: CallResult, exception: Option<WireException>, version: nat, props: seq<WireProperty>)

  /** What the caller of the client is told. `Silent` is an error swallowed before any callback. */
  datatype Outcome =
    | OnReply(bag: Bag)
    | OnException(message: Message, props: Bag)
    | ServerMappingExpired
    | ClientMappingExpired
    | TransportError
    | Silent(error: Error)

  /** Properties are decoded in order; the first failure ends the decoding. */
  function DecodeAll(wire: seq<WireProperty>, table: Table): Result<Bag> {
    if wire == [] then Ok([])
    else match GetProperty(wire[0], table.Slot(wire[0].id))
      case Err(e) => Err(e)
      case Ok(p) =>
        match DecodeAll(wire[1..], table)
        case Err(e) => Err(e)
        case Ok(rest) => Ok([p] + rest)
  }

  /** An exception with an empty message goes out under a fixed one. */
  function MarshalException(message: Message, props: Bag): WireException {
    WireException(if message == Text("") then Text("Er::Exception") else message, AssignBag(props))
  }

  function ReplyTo(result: ServiceResult, version: nat): Reply {
    match result
    case Returned(bag) => Reply(SUCCESS, None, version, AssignBag(bag))
    case Threw(message, props) => Reply(FAILURE, Some(MarshalException(message, props)), version, [])
    case Failed(what) => Reply(FAILURE, Some(WireException(Text(what), [])), version, [])
  }

  predicate MappingValid(session: Table, version: nat) {
    session.slots != [] && session.version == version
  }

  /** The server's handling of a request to an existing service. The version is read before the service runs. */
  function Serve(server: RegistryState, session: Table, request: Request, service: Service): Served {
    var version := server.unique;
    if request.Expired(session) then
      Served(Reply(PROPERTY_MAPPING_EXPIRED, None, version, []), server)
    else match DecodeAll(request.args, session)
      case Err(e) => Served(ReplyTo(Threw(Raised(e), []), version), server)
      case Ok(args) =>
        var reg := server.RegisteredAll(service(args).registrations);
        Served(ReplyTo(service(args).answer(reg), version), reg)
  }

  /** The client's handling of a reply that arrived. */
  function Complete(table: Table, reply: Reply): Outcome {
    if reply.result == PROPERTY_MAPPING_EXPIRED then ServerMappingExpired
    else if reply.result == FAILURE && reply.exception.None? then TransportError
    else if reply.version != table.version then ClientMappingExpired
    else match reply.exception
      case Some(e) =>
        (match DecodeAll(e.props, table)
         case Err(error) => Silent(error)
         case Ok(props) => OnException(e.message, props))
      case None =>
        (match DecodeAll(reply.props, table)
         case Err(error) => Silent(error)
         case Ok(bag) => OnReply(bag))
  }

  function MakeRequest(client: RegistryState, clientId: nat, args: Bag): Request {
    Request(Some(clientId), client.unique, AssignBag(args))
  }

  function Call(l: Link, clientId: nat, args: Bag, service: Service): Outcome {
    Complete(l.table, Serve(l.server, l.session, MakeRequest(l.client, clientId, args), service).reply)
  }

  /** A bag whose properties are built on descriptions of `reg` and hold values of the described types. */
  ghost predicate BuiltOn(bag: Bag, reg: RegistryState) {
    forall i | 0 <= i < |bag| :: reg.Holds(bag[i].info) && bag[i].WellTyped()
  }

  predicate NoEmpties(bag: Bag) {
    forall i | 0 <= i < |bag| :: !bag[i].value.VEmpty?
  }

  /** The same properties as another process sees them: attached to its own descriptions of the same names. */
  function Translated(bag: Bag, reg: RegistryState): (out: Bag)
    requires forall i | 0 <= i < |bag| :: reg.Lookup(bag[i].info.name).Some?
    ensures |out| == |bag|
  {
    seq(|bag|, i requires 0 <= i < |bag| =>
      Property(reg.Lookup(bag[i].info.name).value, bag[i].value.Normalized()))
  }

  ghost predicate Translatable(bag: Bag, reg: RegistryState) {
    forall i | 0 <= i < |bag| :: reg.Lookup(bag[i].info.name).Some?
  }

  /** A bag decodes through a complete table exactly when it has no empty property, and then into its translation. */
  lemma {:induction false} BagTravels(bag: Bag, table: Table, sender: RegistryState, receiver: RegistryState)
    requires Translates(table, sender, receiver) && BuiltOn(bag, sender)
    ensures Translatable(bag, receiver)
    ensures DecodeAll(AssignBag(bag), table)
         == if NoEmpties(bag) then Ok(Translated(bag, receiver)) else Err(UnsupportedType(SIZE_T - 2))
    decreases |bag|
  {
    if bag != [] {
      var wire := AssignBag(bag);
      assert wire[1..] == AssignBag(bag[1..]);
      assert forall i | 0 <= i < |bag[1..]| :: bag[1..][i] == bag[i + 1];
      BagTravels(bag[1..], table, sender, receiver);
      ValueRoundTrip(bag[0], table.Slot(bag[0].info.unique));
      forall i | 0 <= i < |bag|
        ensures receiver.Lookup(bag[i].info.name).Some?
      {
        assert sender.Holds(bag[i].info);
      }
      if NoEmpties(bag) {
        assert Translated(bag, receiver) == [Translated(bag, receiver)[0]] + Translated(bag[1..], receiver);
      }
    }
  }

  lemma TranslationIsBuilt(bag: Bag, sender: RegistryState, receiver: RegistryState, table: Table)
    requires receiver.Valid() && BuiltOn(bag, sender) && Translates(table, sender, receiver)
    ensures Translatable(bag, receiver) && BuiltOn(Translated(bag, receiver), receiver)
  {
    forall i | 0 <= i < |bag|
      ensures receiver.Lookup(bag[i].info.name).Some?
      ensures receiver.Holds(receiver.Lookup(bag[i].info.name).value)
    {
      assert sender.Holds(bag[i].info);
      LookupIsHeld(receiver, bag[i].info.name);
    }
  }

  /** The properties of a service's answer or exception. */
  function AnswerBag(result: ServiceResult): Bag {
    match result
    case Returned(bag) => bag
    case Threw(_, props) => props
    case Failed(_) => []
  }

  /** Every property is built on a description that was there when the version was `version`. */
  predicate AllBelow(bag: Bag, version: nat) {
    forall i | 0 <= i < |bag| :: bag[i].info.unique < version
  }

  predicate AllMapped(bag: Bag, table: Table) {
    forall i | 0 <= i < |bag| :: table.Slot(bag[i].info.unique).Some?
  }

  /** Through any table at all, a bag decodes exactly when it has no empty property and every id is mapped. */
  lemma {:induction false} DecodesExactly(bag: Bag, table: Table)
    ensures DecodeAll(AssignBag(bag), table).Ok? <==> NoEmpties(bag) && AllMapped(bag, table)
    decreases |bag|
  {
    if bag != [] {
      assert AssignBag(bag)[1..] == AssignBag(bag[1..]);
      assert forall i | 0 <= i < |bag[1..]| :: bag[1..][i] == bag[i + 1];
      DecodesExactly(bag[1..], table);
      ValueRoundTrip(bag[0], table.Slot(bag[0].info.unique));
      assert NoEmpties(bag) <==> !bag[0].value.VEmpty? && NoEmpties(bag[1..]);
      assert AllMapped(bag, table) <==> table.Slot(bag[0].info.unique).Some? && AllMapped(bag[1..], table);
    }
  }

  /** What a table makes of a bag that it maps: its own descriptions for the ids, with the values that came. */
  function Resolved(bag: Bag, table: Table): (out: Bag)
    requires AllMapped(bag, table)
    ensures |out| == |bag|
  {
    seq(|bag|, i requires 0 <= i < |bag| =>
      Property(table.Slot(bag[i].info.unique).value, bag[i].value.Normalized()))
  }

  /** And it decodes into just that. */
  lemma {:induction false} DecodesToResolved(bag: Bag, table: Table)
    requires NoEmpties(bag) && AllMapped(bag, table)
    ensures DecodeAll(AssignBag(bag), table) == Ok(Resolved(bag, table))
    decreases |bag|
  {
    if bag != [] {
      var rest := bag[1..];
      assert AssignBag(bag)[1..] == AssignBag(rest);
      assert forall i | 0 <= i < |rest| :: rest[i] == bag[i + 1];
      DecodesToResolved(rest, table);
      ValueRoundTrip(bag[0], table.Slot(bag[0].info.unique));
      assert Resolved(bag, table) == [Resolved(bag, table)[0]] + Resolved(rest, table);
    }
  }

  /** The local meaning of a service result for the client. */
  ghost function Delivered(result: ServiceResult, client: RegistryState): Outcome
    requires Translatable(AnswerBag(result), client)
  {
    match result
    case Returned(bag) =>
      if NoEmpties(bag) then OnReply(Translated(bag, client)) else Silent(UnsupportedType(SIZE_T - 2))
    case Threw(message, props) =>
      if NoEmpties(props)
      then OnException(if message == Text("") then Text("Er::Exception") else message, Translated(props, client))
      else Silent(UnsupportedType(SIZE_T - 2))
    case Failed(what) => OnException(Text(what), [])
  }

  lemma BuiltBelowWasBuilt(bag: Bag, before: RegistryState, now: RegistryState)
    requires before.Valid() && now.Valid() && before.GrowsTo(now) && BuiltOn(bag, now)
    ensures AllBelow(bag, before.unique) <==> BuiltOn(bag, before)
  {
    hide RegistryState.Valid, RegistryState.GrowsTo, RegistryState.Holds;
    forall i | 0 <= i < |bag|
      ensures bag[i].info.unique < before.unique <==> before.Holds(bag[i].info)
    {
      OldIdWasHeld(before, now, bag[i].info);
    }
  }

  lemma TableMapsOldIds(bag: Bag, table: Table, before: RegistryState, now: RegistryState, receiver: RegistryState)
    requires before.Valid() && now.Valid() && before.GrowsTo(now) && BuiltOn(bag, now)
    requires Translates(table, before, receiver)
    ensures AllMapped(bag, table)
            <==> forall i | 0 <= i < |bag| ::
                   bag[i].info.unique < before.unique || table.Slot(bag[i].info.unique).Some?
    ensures NoSlotFrom(table, before.unique) ==> (AllMapped(bag, table) <==> AllBelow(bag, before.unique))
  {
    hide RegistryState.Valid, RegistryState.GrowsTo, RegistryState.Holds;
    forall i | 0 <= i < |bag| && bag[i].info.unique < before.unique
      ensures table.Slot(bag[i].info.unique).Some?
    {
      OldIdWasHeld(before, now, bag[i].info);
    }
  }

  /** The reply carries `result`, complete, to the caller. */
  predicate Handed(outcome: Outcome, result: ServiceResult) {
    if result.Returned? then outcome.OnReply? else outcome.OnException?
  }

  /** What the client makes of a reply is what it makes of the properties in it. */
  lemma CompleteDecodes(table: Table, result: ServiceResult)
    ensures var outcome := Complete(table, ReplyTo(result, table.version));
            match DecodeAll(AssignBag(AnswerBag(result)), table)
            case Err(error) => outcome == Silent(error)
            case Ok(bag) =>
              outcome == (match result
                          case Returned(_) => OnReply(bag)
                          case Threw(message, _) =>
                            OnException(if message == Text("") then Text("Er::Exception") else message, bag)
                          case Failed(what) => OnException(Text(what), bag))
  {
    assert AssignBag([]) == [];
    hide DecodeAll, AssignBag;
  }

  /**
   * An answer built on `built`, the server's registry after the service ran, stamped with the version
   * from before. What the client could already name arrives translated. The caller is told anything at
   * all exactly when no property is empty and each is mapped; and a client that has read no further than
   * the stamp maps exactly those built on descriptions older than the stamp.
   */
  lemma AnswerArrives(
      table: Table, server: RegistryState, built: RegistryState, client: RegistryState, result: ServiceResult)
    requires server.Valid() && built.Valid() && server.GrowsTo(built) && BuiltOn(AnswerBag(result), built)
    requires table.version == server.unique && Translates(table, server, client)
    ensures var outcome, bag := Complete(table, ReplyTo(result, server.unique)), AnswerBag(result);
            && (AllBelow(bag, server.unique) ==> Translatable(bag, client) && outcome == Delivered(result, client))
            && (Handed(outcome, result) <==> NoEmpties(bag) && AllMapped(bag, table))
            && (Handed(outcome, result) || outcome.Silent?)
            && (NoSlotFrom(table, server.unique) ==> (AllMapped(bag, table) <==> AllBelow(bag, server.unique)))
  {
    var bag := AnswerBag(result);
    DecodesExactly(bag, table);
    TableMapsOldIds(bag, table, server, built, client);
    BuiltBelowWasBuilt(bag, server, built);
    if AllBelow(bag, server.unique) {
      BagTravels(bag, table, server, client);
    }
    CompleteDecodes(table, result);
    hide RegistryState.Valid, RegistryState.GrowsTo, RegistryState.Holds, BuiltOn, Translates, AllMapped;
    hide AllBelow, NoSlotFrom;
    hide DecodeAll, AssignBag, Complete, ReplyTo, Translatable, NoEmpties;
  }

  lemma RequestArrives(
      session: Table, client: RegistryState, server: RegistryState, clientId: nat, args: Bag, service: Service)
    requires MappingValid(session, client.unique) && Translates(session, client, server) && BuiltOn(args, client)
    requires clientId != NO_CLIENT
    ensures Translatable(args, server)
    ensures Serve(server, session, MakeRequest(client, clientId, args), service)
         == if NoEmpties(args) then LocalRun(server, Translated(args, server), service)
            else Served(ReplyTo(Threw(Raised(UnsupportedType(SIZE_T - 2)), []), server.unique), server)
  {
    BagTravels(args, session, client, server);
  }

  /** The service run where it is, its answer under the version from before. */
  function LocalRun(server: RegistryState, args: Bag, service: Service): Served {
    var reply := ReplyTo(LocalResult(server, args, service), server.unique);
    Served(reply, server.RegisteredAll(service(args).registrations))
  }

  function LocalResult(server: RegistryState, args: Bag, service: Service): ServiceResult {
    service(args).answer(server.RegisteredAll(service(args).registrations))
  }

  /** The service answers with properties it can build: on descriptions held when it answers. */
  ghost predicate AnswersOwn(server: RegistryState, args: Bag, service: Service) {
    BuiltOn(AnswerBag(LocalResult(server, args, service)), server.RegisteredAll(service(args).registrations))
  }

  /**
   * Over a settled connection a remote call is the local call: the service runs on the translated
   * arguments, and the caller gets its answer, or its exception, translated back, as long as that uses no
   * description registered during the call. Neither version check fails. An empty argument is answered by
   * an exception instead. The caller is told nothing exactly when the answer has an empty property or one
   * that is not mapped, which, for a client that has read no further, is one registered during the call.
   */
  lemma CallRefinesLocalCall(l: Link, clientId: nat, args: Bag, service: Service)
    requires l.Settled() && BuiltOn(args, l.client) && clientId != NO_CLIENT
    requires Translatable(args, l.server) && NoEmpties(args) ==>
               AnswersOwn(l.server, Translated(args, l.server), service)
    ensures Translatable(args, l.server)
    ensures !NoEmpties(args) ==>
              Call(l, clientId, args, service) == OnException(Raised(UnsupportedType(SIZE_T - 2)), [])
    ensures NoEmpties(args) ==>
              var result := LocalResult(l.server, Translated(args, l.server), service);
              var outcome, bag := Call(l, clientId, args, service), AnswerBag(result);
              && (AllBelow(bag, l.server.unique) ==>
                    Translatable(bag, l.client) && outcome == Delivered(result, l.client))
              && (Handed(outcome, result) <==> NoEmpties(bag) && AllMapped(bag, l.table))
              && (Handed(outcome, result) || outcome.Silent?)
              && (NoSlotFrom(l.table, l.server.unique) ==>
                    (AllMapped(bag, l.table) <==> AllBelow(bag, l.server.unique)))
  {
    RequestArrives(l.session, l.client, l.server, clientId, args, service);
    if NoEmpties(args) {
      var there := Translated(args, l.server);
      RegisteredAllSafe(l.server, service(there).registrations);
      AnswerArrives(l.table, l.server, l.server.RegisteredAll(service(there).registrations), l.client,
                    LocalResult(l.server, there, service));
    } else {
      EmptyAnswerArrives(l);
    }
  }

  lemma EmptyAnswerArrives(l: Link)
    requires l.Settled()
    ensures var e := Raised(UnsupportedType(SIZE_T - 2));
            Complete(l.table, ReplyTo(Threw(e, []), l.server.unique)) == OnException(e, [])
  {
    assert AssignBag([]) == [];
  }

  /**
   * The server refuses a call exactly when it has arguments and either carries the reserved client id or
   * a version other than its session's. The client refuses the answer to any other call exactly when the
   * server's version is not the one the client last read.
   */
  lemma RefusedExactlyWhenVersionsDiffer(l: Link, clientId: nat, args: Bag, service: Service)
    ensures Call(l, clientId, args, service) == ServerMappingExpired
            <==> args != [] && (clientId == NO_CLIENT || !l.ServerAccepts())
    ensures Call(l, clientId, args, service) == ClientMappingExpired
            <==> !(args != [] && (clientId == NO_CLIENT || !l.ServerAccepts())) && !l.ClientAccepts()
  {
    hide DecodeAll;
    assert AssignBag(args) == [] <==> args == [];
  }

  /**
   * A message that clashes in type has stamped the session all the same: from then on the server accepts
   * requests under its version, and their arguments decode as they did before.
   */
  lemma ClashStampsSession(reg: RegistryState, session: Table, version: nat, msg: Info, args: seq<WireProperty>)
    requires Receive(Server, reg, session, version, msg).thrown
    ensures var session' := Receive(Server, reg, session, version, msg).table;
            && MappingValid(session', version)
            && (forall v | v != version :: !MappingValid(session', v))
            && DecodeAll(args, session') == DecodeAll(args, session)
  {
    ClashLeaves(Server, reg, session, version, msg);
    SameSlotsDecode(args, session, Receive(Server, reg, session, version, msg).table);
  }

  lemma {:induction false} SameSlotsDecode(wire: seq<WireProperty>, a: Table, b: Table)
    requires forall i: nat :: a.Slot(i) == b.Slot(i)
    ensures DecodeAll(wire, a) == DecodeAll(wire, b)
    decreases |wire|
  {
    if wire != [] {
      SameSlotsDecode(wire[1..], a, b);
    }
  }

  /**
   * An id below the reserved one is never refused for itself: the server's answer to a call then depends
   * only on the version.
   */
  lemma OrdinaryIdIsNotRefused(l: Link, clientId: nat, args: Bag, service: Service)
    requires clientId < 0xFFFF_FFFF
    ensures Call(l, clientId, args, service) == ServerMappingExpired <==> args != [] && !l.ServerAccepts()
  {
    RefusedExactlyWhenVersionsDiffer(l, clientId, args, service);
  }

  /**
   * A client that has read nothing refuses every answer, of any server that holds fewer descriptions than
   * the largest 32-bit number, and a server to which nothing was put refuses every call with arguments.
   */
  lemma NothingReadNothingAccepted(l: Link, clientId: nat, args: Bag, service: Service)
    requires l.table == EMPTY_TABLE
    ensures l.server.unique < 0xFFFF_FFFF ==>
              Call(l, clientId, args, service) in {ServerMappingExpired, ClientMappingExpired}
    ensures l.session == EMPTY_TABLE && args != [] ==> Call(l, clientId, args, service) == ServerMappingExpired
  {
    RefusedExactlyWhenVersionsDiffer(l, clientId, args, service);
  }

  /** The first property that does not decode decides the error, and nothing after it matters. */
  lemma {:induction false} FirstFailureDecides(
      done: Bag, table: Table, bad: WireProperty, error: Error, rest: seq<WireProperty>)
    requires NoEmpties(done) && AllMapped(done, table) && GetProperty(bad, table.Slot(bad.id)) == Err(error)
    ensures DecodeAll(AssignBag(done) + [bad] + rest, table) == Err(error)
    decreases |done|
  {
    var wire := AssignBag(done) + [bad] + rest;
    if done == [] {
      assert wire[0] == bad;
    } else {
      assert wire[0] == AssignProperty(done[0]);
      assert wire[1..] == AssignBag(done[1..]) + [bad] + rest;
      ValueRoundTrip(done[0], table.Slot(done[0].info.unique));
      assert forall i | 0 <= i < |done[1..]| :: done[1..][i] == done[i + 1];
      FirstFailureDecides(done[1..], table, bad, error, rest);
    }
  }

  /** A request whose arguments do not decode is answered by that error as an exception, and runs no service. */
  lemma UndecodableRequestIsAnswered(
      server: RegistryState, session: Table, request: Request, service: Service, error: Error)
    requires !request.Expired(session) && DecodeAll(request.args, session) == Err(error)
    ensures Serve(server, session, request, service)
         == Served(Reply(FAILURE, Some(WireException(Raised(error), [])), server.unique, []), server)
  {
    assert AssignBag([]) == [];
    hide DecodeAll;
  }

  /** A failure without an exception, which only a foreign server sends, is a transport error under any version. */
  lemma BareFailureIsTransportError(table: Table, reply: Reply)
    requires reply.result == FAILURE && reply.exception.None?
    ensures Complete(table, reply) == TransportError
  {
  }

  /** A bag comes back from an echoing service exactly as it left. */
  ghost predicate ReturnsUnchanged(bag: Bag, back: Bag, client: RegistryState) {
    && |back| == |bag|
    && forall i | 0 <= i < |bag| ::
         && client.Lookup(bag[i].info.name) == Some(back[i].info)
         && back[i].info.ty == bag[i].info.ty
         && back[i].value == bag[i].value.Normalized()
         && back[i].WellTyped()
  }

  /** Translating to the peer and back gives the sent bag, on the sender's own descriptions. */
  lemma ThereAndBack(bag: Bag, l: Link)
    requires l.Settled() && BuiltOn(bag, l.client)
    ensures Translatable(bag, l.server) && BuiltOn(Translated(bag, l.server), l.server)
    ensures Translatable(Translated(bag, l.server), l.client)
    ensures ReturnsUnchanged(bag, Translated(Translated(bag, l.server), l.client), l.client)
    ensures NoEmpties(bag) <==> NoEmpties(Translated(bag, l.server))
  {
    TranslationIsBuilt(bag, l.client, l.server, l.session);
    var there := Translated(bag, l.server);
    TranslationIsBuilt(there, l.server, l.client, l.table);
    forall i | 0 <= i < |bag|
      ensures there[i].info.name == bag[i].info.name && there[i].info.ty == bag[i].info.ty
      ensures there[i].value.VEmpty? <==> bag[i].value.VEmpty?
      ensures l.client.Lookup(bag[i].info.name).value.ty == bag[i].info.ty
    {
      LookupIsHeld(l.server, bag[i].info.name);
      assert l.client.Holds(bag[i].info) && l.server.Holds(there[i].info);
    }
  }

  /** A service that returns its arguments, one that throws them, and one that answers under a new name. */
  const ECHO: Service := bag => Work([], _ => Returned(bag))

  function Thrower(message: string): Service {
    bag => Work([], _ => Threw(Text(message), bag))
  }

  function Introducer(name: string, readable: string, value: Value): Service {
    bag => Work([Transient(value.Type(), name, readable)],
                (reg: RegistryState) => Returned(OnKnownName(reg, name, value)))
  }

  function OnKnownName(reg: RegistryState, name: string, value: Value): Bag {
    match reg.Lookup(name)
    case Some(info) => [Property(info, value)]
    case None => []
  }

  lemma NothingRegistered(reg: RegistryState)
    ensures reg.RegisteredAll([]) == reg
  {
  }

  /**
   * Echo round trip: the bag comes back with the same length, order, types and values, each property on
   * the client's registered description of its name, exactly when it has no empty property.
   */
  lemma EchoRoundTrip(l: Link, clientId: nat, args: Bag)
    requires l.Settled() && BuiltOn(args, l.client) && clientId != NO_CLIENT
    ensures var outcome := Call(l, clientId, args, ECHO);
            if NoEmpties(args) then outcome.OnReply? && ReturnsUnchanged(args, outcome.bag, l.client)
            else outcome.OnException?
  {
    ThereAndBack(args, l);
    NothingRegistered(l.server);
    BuiltBelowWasBuilt(Translated(args, l.server), l.server, l.server);
    CallRefinesLocalCall(l, clientId, args, ECHO);
  }

  /**
   * The properties an echoing service throws back arrive with its exception, unchanged as well, and so does
   * its message, an empty one under the fixed text.
   */
  lemma ThrownPropertiesRoundTrip(l: Link, clientId: nat, args: Bag, message: string)
    requires l.Settled() && BuiltOn(args, l.client) && NoEmpties(args) && clientId != NO_CLIENT
    ensures var outcome := Call(l, clientId, args, Thrower(message));
            && outcome.OnException? && ReturnsUnchanged(args, outcome.props, l.client)
            && outcome.message == Text(if message == "" then "Er::Exception" else message)
  {
    ThereAndBack(args, l);
    NothingRegistered(l.server);
    BuiltBelowWasBuilt(Translated(args, l.server), l.server, l.server);
    CallRefinesLocalCall(l, clientId, args, Thrower(message));
  }

  lemma OneRegistration(reg: RegistryState, r: Registration)
    ensures reg.RegisteredAll([r]) == reg.Registered(r)
  {
    assert [r][1..] == [];
    NothingRegistered(reg.Registered(r));
  }

  /**
   * An answer under a name first registered during the call: the client's version check passes, because
   * the version is from before, and decoding then fails, so the caller is told nothing at all.
   */
  lemma AnswerUnderNewNameIsSwallowed(l: Link, clientId: nat, name: string, readable: string, value: Value)
    requires l.Settled() && l.server.Lookup(name).None? && NoSlotFrom(l.table, l.server.unique) && !value.VEmpty?
    ensures Call(l, clientId, [], Introducer(name, readable, value)) == Silent(UnknownProperty(l.server.unique))
  {
    var service := Introducer(name, readable, value);
    OneRegistration(l.server, service([]).registrations[0]);
    var p := Property(Info(l.server.unique, value.Type(), name, readable), value);
    assert LocalResult(l.server, [], service) == Returned([p]);
    assert AssignBag([]) == [] && AssignBag([p]) == [AssignProperty(p)];
    assert l.table.Slot(l.server.unique).None?;
  }

  lemma PrefixIsAgreeable(reg: RegistryState, order: seq<Info>, k: nat)
    requires Agreeable(reg, order) && IdsDistinct(order) && k <= |order|
    ensures Agreeable(reg, order[..k]) && IdsDistinct(order[..k])
  {
    assert forall x | x in order[..k] :: x in order;
  }

  lemma PrefixFillsOnlyItself(reg: RegistryState, version: nat, order: seq<Info>, k: nat, table: Table)
    requires IdsDistinct(order) && k <= |order| && Filled(EMPTY_TABLE, version, order[..k], reg, table)
    requires forall x | x in order[..k] :: Knows(reg, x.name)
    requires forall i, j :: 0 <= i < j < |order| ==> order[i] != order[j]
    ensures MappingValid(table, version) <==> k > 0
    ensures (forall x | x in order :: table.Slot(x.unique).Some?) <==> k == |order|
  {
    var prefix := order[..k];
    if k < |order| {
      var x := order[k];
      assert x in order && x !in prefix;
      assert forall y | y in prefix :: y in order && y.unique != x.unique;
      assert table.Slot(x.unique) == EMPTY_TABLE.Slot(x.unique);
    } else {
      assert prefix == order;
    }
  }

  /**
   * The version check is not a completeness check: while the first put of a session is under way it
   * passes from the first message on, but every id of the snapshot resolves only after the last one.
   */
  lemma VersionCheckPassesBeforeTableIsComplete(reg: RegistryState, version: nat, order: seq<Info>, k: nat)
    requires reg.Valid() && Agreeable(reg, order) && IdsDistinct(order) && k <= |order|
    requires forall i, j :: 0 <= i < j < |order| ==> order[i] != order[j]
    ensures var table := ReceiveAll(Server, reg, EMPTY_TABLE, version, order[..k]).table;
            && (MappingValid(table, version) <==> k > 0)
            && ((forall x | x in order :: table.Slot(x.unique).Some?) <==> k == |order|)
  {
    hide RegistryState.Valid, Agreeable, IdsDistinct, Filled, ReceiveAll;
    PrefixIsAgreeable(reg, order, k);
    StreamIsAbsorbed(Server, reg, EMPTY_TABLE, version, order[..k]);
    var d := ReceiveAll(Server, reg, EMPTY_TABLE, version, order[..k]);
    PrefixFillsOnlyItself(d.reg, version, order, k, d.table);
  }
}

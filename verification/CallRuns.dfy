/**
 * Whole calls in whole runs (src/ipc/grpc/grpc_client.cxx, src/ipc/grpc/erebus_service.cxx): a request made
 * at one time, decoded, answered and completed at later ones, with anything at all going on in between.
 */
module CallRuns {
  import opened Basics
  import opened PropertyRegistry
  import opened PropertyMapping
  import opened WireProtocol
  import opened RemoteCalls
  import opened MappingRuns

  /** The table a server looks a client's arguments up in; a missing session is created empty. */
  function SessionTable(w: World, c: ClientId): Table {
    if c in w.sessions then w.sessions[c].table else EMPTY_TABLE
  }

  /** Through any sound table, however incomplete: a bag that decodes at all decodes into what was sent. */
  lemma DecodedBagIsSent(
      sent: Bag, table: Table, before: RegistryState, sender: RegistryState, receiver: RegistryState)
    requires BuiltOn(sent, before) && before.GrowsTo(sender) && sender.IdsDistinct()
    requires SoundTable(table, sender, receiver)
    ensures var r := DecodeAll(AssignBag(sent), table);
            r.Ok? ==> NoEmpties(sent) && SameBag(sent, r.value, receiver)
  {
    DecodesExactly(sent, table);
    hide RegistryState.Holds, RegistryState.GrowsTo, RegistryState.IdsDistinct, SoundTable, DecodeAll;
    hide NoEmpties, SameBag;
    hide BuiltOn, AssignBag;
    if AllMapped(sent, table) {
      BagDecodes(sent, table, before, sender, receiver);
    }
  }

  lemma SessionIsSound(w: World, later: World, c: ClientId)
    requires Inv(w) && Inv(later) && Grows(w, later) && c in w.home
    ensures SoundTable(SessionTable(later, c), later.ClientReg(c), later.ServerReg())
  {
    RunIngredients(w, later, c);
    EmptyTableIsSound(later.ClientReg(c), later.ServerReg());
    hide SoundTable, Inv, Grows;
  }

  predicate ThrownText(result: ServiceResult, message: Message) {
    match result
    case Returned(_) => false
    case Threw(text, props) => message == MarshalException(text, props).message
    case Failed(what) => message == Text(what)
  }

  /** What the caller is handed is the answer, as far as each process can tell: same names, types and values. */
  ghost predicate IsAnswer(outcome: Outcome, result: ServiceResult, receiver: RegistryState) {
    match outcome
    case OnReply(got) => result.Returned? && SameBag(result.bag, got, receiver)
    case OnException(message, props) =>
      SameBag(AnswerBag(result), props, receiver) && ThrownText(result, message)
    case _ => true
  }

  lemma CompletedIsAnswer(
      result: ServiceResult, v: nat, table: Table, before: RegistryState, sender: RegistryState,
      receiver: RegistryState)
    requires BuiltOn(AnswerBag(result), before) && before.GrowsTo(sender) && sender.IdsDistinct()
    requires SoundTable(table, sender, receiver)
    ensures IsAnswer(Complete(table, ReplyTo(result, v)), result, receiver)
    ensures !Complete(table, ReplyTo(result, v)).ServerMappingExpired?
  {
    DecodedBagIsSent(AnswerBag(result), table, before, sender, receiver);
    hide RegistryState.Holds, RegistryState.GrowsTo, RegistryState.IdsDistinct, SoundTable, DecodeAll;
    hide NoEmpties, SameBag;
    hide BuiltOn, AssignBag;
  }

  /**
   * A call is never mistaken for another, however its steps are spread over a run. The client makes the
   * request in `w0`; the server reads its version and decodes the arguments in `w1`; the answer is built in
   * `w2`, after whatever the service and all others have registered; the client reads the reply in `w3`.
   * Whatever arguments the service is run on are those that were sent, and whatever the caller is handed is
   * the answer to them; all else that can happen is a refusal or a failure to decode.
   */
  lemma CallNeverMistaken(
      w0: World, making: seq<Action>, w1: World, serving: seq<Action>, w2: World, completing: seq<Action>, w3: World,
      c: ClientId, args: Bag, there: Bag, result: ServiceResult)
    requires Inv(w0) && Legal(w0, making) && w1 == Execute(w0, making)
    requires Legal(w1, serving) && w2 == Execute(w1, serving)
    requires Legal(w2, completing) && w3 == Execute(w2, completing)
    requires c in w0.home && BuiltOn(args, w0.ClientReg(c))
    requires DecodeAll(MakeRequest(w0.ClientReg(c), c, args).args, SessionTable(w1, c)) == Ok(there)
    requires BuiltOn(AnswerBag(result), w2.ServerReg())
    ensures NoEmpties(args) && SameBag(args, there, w1.ServerReg()) && BuiltOn(there, w1.ServerReg())
    ensures IsAnswer(Complete(w3.tables[c], ReplyTo(result, w1.ServerReg().unique)), result, w3.ClientReg(c))
  {
    RunIngredients(w0, w1, c);
    SessionIsSound(w0, w1, c);
    DecodedBagIsSent(args, SessionTable(w1, c), w0.ClientReg(c), w1.ClientReg(c), w1.ServerReg());
    RunIngredients(w2, w3, c);
    CompletedIsAnswer(result, w1.ServerReg().unique, w3.tables[c], w2.ServerReg(), w3.ServerReg(), w3.ClientReg(c));
    SameBagIsBuilt(args, there, w1.ServerReg());
    hide Inv, Legal, Execute, Grows, BuiltOn, SameBag, IsAnswer, DecodeAll, Complete, SoundTable;
  }

  lemma SameBagIsBuilt(sent: Bag, got: Bag, receiver: RegistryState)
    requires SameBag(sent, got, receiver)
    ensures BuiltOn(got, receiver)
  {
    forall i | 0 <= i < |got|
      ensures receiver.Holds(got[i].info) && got[i].WellTyped()
    {
      assert SameProperty(sent[i], got[i], receiver);
    }
  }

  // ---------------------------------------------------------------- with the service of the specification

  /** The registrations a service makes, as steps of a run. */
  function AsActions(p: Process, rs: seq<Registration>): seq<Action> {
    seq(|rs|, i requires 0 <= i < |rs| => Register(p, rs[i]))
  }

  lemma {:induction false} RegistrationsRun(w: World, rs: seq<Registration>)
    requires Inv(w)
    ensures Legal(w, AsActions(w.server, rs))
    ensures Execute(w, AsActions(w.server, rs)).ServerReg() == w.ServerReg().RegisteredAll(rs)
    decreases |rs|
  {
    hide Inv, RegistryState.Registered, Grows;
    InvIsWellFormed(w);
    var actions := AsActions(w.server, rs);
    if rs != [] {
      StepKeepsInv(w, actions[0]);
      RegistrationsRun(Apply(w, actions[0]), rs[1..]);
      assert actions[1..] == AsActions(w.server, rs[1..]);
    }
  }

  /** What a service registers in answering a request, if it is run at all. */
  function RegistrationsOf(table: Table, request: Request, service: Service): seq<Registration> {
    if request.Expired(table) then []
    else match DecodeAll(request.args, table)
      case Ok(there) => service(there).registrations
      case Err(_) => []
  }

  lemma ServeMeans(server: RegistryState, table: Table, request: Request, service: Service)
    ensures var served := Serve(server, table, request, service);
            && served.reg == server.RegisteredAll(RegistrationsOf(table, request, service))
            && if request.Expired(table) then served.reply.result == PROPERTY_MAPPING_EXPIRED
               else match DecodeAll(request.args, table)
                    case Ok(there) => served.reply == ReplyTo(LocalResult(server, there, service), server.unique)
                    case Err(e) => served.reply == ReplyTo(Threw(Raised(e), []), server.unique)
  {
    NothingRegistered(server);
    hide DecodeAll;
  }

  lemma OnlyAnswersAreReplies(table: Table, reply: Reply, message: Message, props: Bag, v: nat)
    ensures reply.result == PROPERTY_MAPPING_EXPIRED ==> !Complete(table, reply).OnReply?
    ensures !Complete(table, ReplyTo(Threw(message, props), v)).OnReply?
  {
    hide DecodeAll;
  }

  /** The caller's bag is the service's answer to arguments that are the sent ones. */
  ghost predicate AnswersCall(
      got: Bag, args: Bag, decoded: Result<Bag>, service: Service, server: RegistryState, client: RegistryState)
  {
    && decoded.Ok? && SameBag(args, decoded.value, server)
    && var result := LocalResult(server, decoded.value, service);
       result.Returned? && SameBag(result.bag, got, client)
  }

  /** Whatever arguments the service is given, it answers with properties it can build. */
  ghost predicate AlwaysAnswersOwn(server: RegistryState, service: Service) {
    forall there | BuiltOn(there, server) :: AnswersOwn(server, there, service)
  }

  /** If the caller is handed a bag, it is the service's answer to what the caller sent. */
  ghost predicate HandsOnlyTheAnswer(
      server: RegistryState, table: Table, request: Request, service: Service, clientTable: Table,
      client: RegistryState, args: Bag)
  {
    var outcome := Complete(clientTable, Serve(server, table, request, service).reply);
    outcome.OnReply? ==> AnswersCall(outcome.bag, args, DecodeAll(request.args, table), service, server, client)
  }

  lemma AnswerHandedIsTheAnswer(
      before: RegistryState, sender: RegistryState, server: RegistryState, table: Table, request: Request,
      service: Service, serverLater: RegistryState, clientTable: Table, client: RegistryState, args: Bag)
    requires BuiltOn(args, before) && before.GrowsTo(sender) && sender.IdsDistinct()
    requires SoundTable(table, sender, server)
    requires request.args == AssignBag(args) && AlwaysAnswersOwn(server, service)
    requires Serve(server, table, request, service).reg.GrowsTo(serverLater) && serverLater.IdsDistinct()
    requires SoundTable(clientTable, serverLater, client)
    ensures HandsOnlyTheAnswer(server, table, request, service, clientTable, client, args)
  {
    ServeMeans(server, table, request, service);
    DecodedBagIsSent(args, table, before, sender, server);
    var reply := Serve(server, table, request, service).reply;
    hide BuiltOn, SameBag, DecodeAll, RegistryState.GrowsTo, RegistryState.IdsDistinct, SoundTable, Serve;
    hide AssignBag, NoEmpties;
    match DecodeAll(request.args, table)
    case Err(e) =>
      OnlyAnswersAreReplies(clientTable, reply, Raised(e), [], server.unique);
    case Ok(there) =>
      OnlyAnswersAreReplies(clientTable, reply, Text(""), [], server.unique);
      if !request.Expired(table) {
        SameBagIsBuilt(args, there, server);
        assert AnswersOwn(server, there, service);
        var result := LocalResult(server, there, service);
        CompletedIsAnswer(result, server.unique, clientTable, server.RegisteredAll(service(there).registrations),
                          serverLater, client);
        hide Complete, ReplyTo;
      }
  }

  /**
   * The same for the server's handling of a request as it is specified, the service's registrations being
   * steps of the run: a bag the caller gets is the service's answer to what the caller sent.
   */
  lemma ServedCallNeverMistaken(
      w0: World, making: seq<Action>, w1: World, serving: seq<Action>, w2: World, completing: seq<Action>, w3: World,
      c: ClientId, args: Bag, request: Request, service: Service)
    requires Inv(w0) && Legal(w0, making) && w1 == Execute(w0, making)
    requires c in w0.home && BuiltOn(args, w0.ClientReg(c)) && request == MakeRequest(w0.ClientReg(c), c, args)
    requires serving == AsActions(w1.server, RegistrationsOf(SessionTable(w1, c), request, service))
    requires Legal(w1, serving) && w2 == Execute(w1, serving)
    requires Legal(w2, completing) && w3 == Execute(w2, completing)
    requires AlwaysAnswersOwn(w1.ServerReg(), service)
    ensures w2.ServerReg() == Serve(w1.ServerReg(), SessionTable(w1, c), request, service).reg
    ensures HandsOnlyTheAnswer(
              w1.ServerReg(), SessionTable(w1, c), request, service, w3.tables[c], w3.ClientReg(c), args)
  {
    hide TablesSound, StreamsSound, ProgressSound, BuiltOn, AlwaysAnswersOwn, HandsOnlyTheAnswer, Serve, SoundTable;
    hide RegistryState.Valid, RegistryState.GrowsTo, RegistryState.IdsDistinct, RegistryState.Holds;
    RunIngredients(w0, w1, c);
    SessionIsSound(w0, w1, c);
    RunIngredients(w2, w3, c);
    RegistrationsRun(w1, RegistrationsOf(SessionTable(w1, c), request, service));
    ServeMeans(w1.ServerReg(), SessionTable(w1, c), request, service);
    AnswerHandedIsTheAnswer(w0.ClientReg(c), w1.ClientReg(c), w1.ServerReg(), SessionTable(w1, c), request, service,
                            w3.ServerReg(), w3.tables[c], w3.ClientReg(c), args);
  }
}

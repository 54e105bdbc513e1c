/**
 * How a generic stream ends (src/ipc/grpc/erebus_service.hxx, src/ipc/grpc/erebus_service.cxx): what the last
 * thing on the wire is, by what the service did, and what the client's handler is told of it.
 */
module StreamEndings {
  import opened Basics
  import opened PropertyRegistry
  import opened PropertyMapping
  import opened WireProtocol
  import opened RemoteCalls
  import opened StreamReactors
  import opened StreamReader

  /** The service has `n` items, each of which was written; there the items end. */
  ghost predicate ItemsEndAt(p: Producer, acks: seq<bool>, n: nat) {
    && HasItems(p, 0, n) && !HasItem(p, n)
    && n <= |acks| && forall j | 0 <= j < n :: acks[j]
  }

  /** The text an exception travels under. */
  function TextOf(message: Message): Message {
    if message == Text("") then Text("Er::Exception") else message
  }

  lemma {:induction false} FramesUpToTheEnd(p: Producer, i: nat, acks: seq<bool>, n: nat)
    requires HasItems(p, i, i + n) && !HasItem(p, i + n) && n <= |acks| && forall j | 0 <= j < n :: acks[j]
    ensures Frames(p, i, acks) == n
    decreases n
  {
    if n > 0 {
      assert HasItem(p, i);
      assert forall j | 0 <= j < n - 1 :: acks[1..][j] == acks[j + 1];
      FramesUpToTheEnd(p, i + 1, acks[1..], n - 1);
    }
  }

  lemma LastTurn(p: Producer, version: nat, acks: seq<bool>, n: nat)
    requires ItemsEndAt(p, acks, n)
    ensures var ops := Turns(p, version, 0, acks);
            && |ops| == n + 1 && ops[n] == Turn(p, version, n) && Frames(p, 0, acks) == n
            && |Sent(ops)| == (if ops[n].Finish? then n else n + 1)
            && (!ops[n].Finish? ==> Sent(ops)[n] == ops[n].reply)
            && CarriesItems(Sent(ops), p, version, n)
  {
    FramesUpToTheEnd(p, 0, acks, n);
    TurnsAreDisciplined(p, version, 0, acks);
    TurnStops(p, version, n);
    var ops := Turns(p, version, 0, acks);
    SentByDisciplined(ops, n);
    hide Turns, Frames, Sent, Turn, HasItem;
    forall j: nat | j < n
      ensures HasItem(p, j) && Sent(ops)[j] == FrameReply(p, version, j)
    {
      assert HasItem(p, 0 + j) && ops[j] == Frame(p, version, 0 + j);
    }
  }

  /**
   * An exception the service throws for its next item is on the wire after all the items before it, as one
   * failure reply that carries its text, or the fixed one for an empty text, and its properties.
   */
  lemma ThrownNextIsSent(p: Producer, version: nat, acks: seq<bool>, n: nat)
    requires p.next(n).NextThrew? && ItemsEndAt(p, acks, n)
    ensures var sent, e := Sent(Turns(p, version, 0, acks)), p.next(n);
            && |sent| == n + 1
            && sent[n] == Reply(FAILURE, Some(WireException(TextOf(e.message), AssignBag(e.props))), version, [])
  {
    LastTurn(p, version, acks, n);
    hide Turns, Sent;
  }

  /** One that ending the stream throws is sent in its place, without properties. */
  lemma ThrownEndIsSent(p: Producer, version: nat, acks: seq<bool>, n: nat)
    requires p.next(n) == Item([]) && p.endThrew.Some? && ItemsEndAt(p, acks, n)
    ensures var sent := Sent(Turns(p, version, 0, acks));
            && |sent| == n + 1
            && sent[n] == Reply(FAILURE, Some(WireException(TextOf(p.endThrew.value), [])), version, [])
  {
    LastTurn(p, version, acks, n);
    assert AssignBag([]) == [];
    hide Turns, Sent;
  }

  /** The end of the items, if ending the stream does not throw, is a status and nothing on the wire. */
  lemma EndIsFinished(p: Producer, version: nat, acks: seq<bool>, n: nat)
    requires p.next(n) == Item([]) && p.endThrew.None? && ItemsEndAt(p, acks, n)
    ensures var ops := Turns(p, version, 0, acks);
            |ops| == n + 1 && ops[n] == Finish(OK) && |Sent(ops)| == n
  {
    LastTurn(p, version, acks, n);
    hide Turns, Sent;
  }

  /**
   * A stream is finished as good exactly when every item was written, the service has no more, and ending
   * the stream does not throw: never after an exception or a failed write.
   */
  lemma FinishedExactlyAtTheEnd(p: Producer, version: nat, acks: seq<bool>)
    ensures Finish(OK) in Turns(p, version, 0, acks)
            <==> exists n: nat :: ItemsEndAt(p, acks, n) && p.next(n) == Item([]) && p.endThrew.None?
  {
    var ops, n := Turns(p, version, 0, acks), Frames(p, 0, acks);
    if Finish(OK) in ops {
      TurnsAreDisciplined(p, version, 0, acks);
      FramesAreFirstItems(p, 0, acks);
      TurnStops(p, version, n);
      hide Turns, Frames, HasItem;
      assert ops[n] == Finish(OK);
      assert ItemsEndAt(p, acks, n);
    }
    if m: nat :| ItemsEndAt(p, acks, m) && p.next(m) == Item([]) && p.endThrew.None? {
      EndIsFinished(p, version, acks, m);
      assert ops[m] == Finish(OK);
    }
  }

  /** Of an exception that arrives the handler is told, when its properties decode; otherwise of nothing. */
  lemma ExceptionIsTold(table: Table, message: Message, props: Bag)
    ensures var reply := Reply(FAILURE, Some(WireException(message, AssignBag(props))), table.version, []);
            && (NoEmpties(props) && AllMapped(props, table) ==>
                  Told(table, reply) == [OnException(message, Resolved(props, table))])
            && (!(NoEmpties(props) && AllMapped(props, table)) ==> Told(table, reply) == [])
  {
    DecodesExactly(props, table);
    if NoEmpties(props) && AllMapped(props, table) {
      DecodesToResolved(props, table);
    }
    hide DecodeAll, AssignBag, NoEmpties, AllMapped, Resolved;
  }

  /** A client that has read the stream's version hears the `n` items that decode, then `last`, and no more. */
  ghost predicate ToldInTheEnd(p: Producer, acks: seq<bool>, n: nat, table: Table, last: seq<Outcome>)
    requires HasItems(p, 0, n)
  {
    ToldOf(table, Sent(Turns(p, table.version, 0, acks))) == HeardItems(p, n, table) + last
  }

  lemma LastReplyIsTold(p: Producer, acks: seq<bool>, n: nat, table: Table)
    requires ItemsEndAt(p, acks, n)
    ensures var sent := Sent(Turns(p, table.version, 0, acks));
            && |sent| <= n + 1
            && ToldInTheEnd(p, acks, n, table, if |sent| == n + 1 then Told(table, sent[n]) else [])
  {
    LastTurn(p, table.version, acks, n);
    var sent := Sent(Turns(p, table.version, 0, acks));
    hide Turns, Sent, Told, ToldOf, HasItem;
    FramesAreHeard(sent, p, n, table);
    if |sent| == n + 1 {
      assert sent == sent[..n] + [sent[n]];
      ToldJoin(table, sent[..n], [sent[n]]);
      ToldOfOne(table, sent[n]);
    } else {
      assert sent == sent[..n];
    }
  }

  /**
   * What a client that has read the stream's version is told of a whole stream: every item that decodes, and
   * last, if the service threw, the exception, with its text and its properties under the client's own
   * descriptions; but nothing of an exception one of whose properties is empty or not mapped.
   */
  lemma EndingIsTold(p: Producer, acks: seq<bool>, n: nat, table: Table)
    requires ItemsEndAt(p, acks, n)
    ensures p.next(n).NextThrew? ==>
              var e := p.next(n);
              ToldInTheEnd(p, acks, n, table,
                           if NoEmpties(e.props) && AllMapped(e.props, table)
                           then [OnException(TextOf(e.message), Resolved(e.props, table))] else [])
    ensures p.next(n).Item? ==>
              ToldInTheEnd(p, acks, n, table,
                           if p.endThrew.Some? then [OnException(TextOf(p.endThrew.value), [])] else [])
  {
    LastReplyIsTold(p, acks, n, table);
    hide Turns, Sent, Told, ToldInTheEnd;
    if p.next(n).NextThrew? {
      ThrownNextIsSent(p, table.version, acks, n);
      ExceptionIsTold(table, TextOf(p.next(n).message), p.next(n).props);
    } else if p.endThrew.Some? {
      ThrownEndIsSent(p, table.version, acks, n);
      ExceptionIsTold(table, TextOf(p.endThrew.value), []);
      assert AssignBag([]) == [] && Resolved([], table) == [];
    } else {
      EndIsFinished(p, table.version, acks, n);
    }
  }

  /** Over a settled connection the exception's properties are the service's, translated. */
  lemma ExceptionArrivesTranslated(p: Producer, acks: seq<bool>, n: nat, l: Link)
    requires l.Settled() && ItemsEndAt(p, acks, n)
    requires p.next(n).NextThrew? && BuiltOn(p.next(n).props, l.server) && NoEmpties(p.next(n).props)
    ensures Translatable(p.next(n).props, l.client)
    ensures l.table.version == l.server.unique
    ensures ToldInTheEnd(p, acks, n, l.table,
                         [OnException(TextOf(p.next(n).message), Translated(p.next(n).props, l.client))])
  {
    var props := p.next(n).props;
    BagTravels(props, l.table, l.server, l.client);
    DecodesExactly(props, l.table);
    DecodesToResolved(props, l.table);
    EndingIsTold(p, acks, n, l.table);
    hide DecodeAll, AssignBag, NoEmpties, AllMapped, Resolved, Translated, ToldInTheEnd, Translates, BuiltOn;
  }

  // ---------------------------------------------------------------- requests that start no stream

  /** A request for a stream nobody serves gets a status and nothing else. */
  lemma UnknownStreamIsUnimplemented(session: Table, version: nat, request: Request, acks: seq<bool>)
    ensures var ops := Stream(None, session, version, request, acks);
            ops == [Finish(UNIMPLEMENTED)] && Sent(ops) == []
  {
    assert [Finish(UNIMPLEMENTED)][1..] == [];
  }

  /**
   * When the server has no valid mapping for the arguments, the client, whatever it has read, is told so:
   * its put is due. That is decided before decoding and before the service is asked.
   */
  lemma ExpiredStreamIsTold(
      service: Producer, session: Table, version: nat, request: Request, acks: seq<bool>, table: Table)
    requires request.args != [] && (request.Client() == 0xFFFF_FFFF || !MappingValid(session, request.version))
    ensures var ops := Stream(Some(service), session, version, request, acks);
            && |ops| == 1 && ops[0].StartWriteAndFinish?
            && ToldOf(table, Sent(ops)) == [ServerMappingExpired]
  {
    var ops := Stream(Some(service), session, version, request, acks);
    assert ops[1..] == [];
    ToldOfOne(table, ops[0].reply);
  }

  /** Arguments that do not decode end the stream with an internal error; the client gets no reply. */
  lemma UndecodableStreamIsInternal(
      service: Producer, session: Table, version: nat, request: Request, acks: seq<bool>)
    requires !request.Expired(session) && DecodeAll(request.args, session).Err?
    ensures var ops := Stream(Some(service), session, version, request, acks);
            ops == [Finish(INTERNAL)] && Sent(ops) == []
  {
    assert [Finish(INTERNAL)][1..] == [];
  }

  /** A service that throws when asked to begin has its exception sent as the only reply. */
  lemma ThrownBeginIsTold(
      service: Producer, session: Table, version: nat, request: Request, acks: seq<bool>, table: Table)
    requires !request.Expired(session) && DecodeAll(request.args, session).Ok? && service.begun.BeginThrew?
    ensures var sent := Sent(Stream(Some(service), session, version, request, acks));
            var e := service.begun;
            && sent == [Reply(FAILURE, Some(WireException(TextOf(e.message), AssignBag(e.props))), version, [])]
            && (table.version != version ==> ToldOf(table, sent) == [ClientMappingExpired])
            && (table.version == version ==>
                  ToldOf(table, sent) ==
                  if NoEmpties(e.props) && AllMapped(e.props, table)
                  then [OnException(TextOf(e.message), Resolved(e.props, table))] else [])
  {
    var ops := Stream(Some(service), session, version, request, acks);
    assert ops[1..] == [] && Sent(ops) == [ops[0].reply];
    ToldOfOne(table, ops[0].reply);
    ExceptionIsTold(table, TextOf(service.begun.message), service.begun.props);
    hide DecodeAll, AssignBag, NoEmpties, AllMapped, Resolved;
  }

  /** In all other cases the stream is the service's. */
  lemma GoodRequestStartsStream(
      service: Producer, session: Table, version: nat, request: Request, acks: seq<bool>)
    requires !request.Expired(session) && DecodeAll(request.args, session).Ok? && service.begun.Began?
    ensures Stream(Some(service), session, version, request, acks) == Turns(service, version, 0, acks)
  {
  }
}

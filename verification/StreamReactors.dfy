/**
 * The writing ends of the streams (src/ipc/grpc/erebus_service.hxx, src/ipc/grpc/grpc_client.cxx). Each
 * started write gets at most one callback, and after a terminal operation none.
 */
module StreamReactors {
  import opened Basics
  import opened PropertyRegistry
  import opened PropertyMapping
  import opened WireProtocol
  import opened RemoteCalls

  /** The operations a server reactor starts on its stream. */
  datatype Op =
    | StartWrite(reply: Reply)
    | StartWriteAndFinish(reply: Reply)
    | Finish(status: Status)
  {
    predicate Terminal() {
      !StartWrite?
    }
  }

  datatype Status = OK | CANCELLED | UNIMPLEMENTED | INTERNAL

  /** What the service does when asked to begin, and for the `i`-th time for the next item. */
  datatype Begun = Began | BeginThrew(message: Message, props: Bag)
  datatype NextItem = Item(bag: Bag) | NextThrew(message: Message, props: Bag)

  /** A service's behaviour on one stream; `endThrew` is what `endStream` throws, if it does. */
  datatype Producer = Producer(begun: Begun, next: nat -> NextItem, endThrew: Option<Message>)

  function ErrorReply(version: nat, message: Message, props: Bag): Reply {
    Reply(FAILURE, Some(MarshalException(message, props)), version, [])
  }

  /** What one turn of the reactor starts when the service is asked for its `i`-th item. */
  function Turn(p: Producer, version: nat, i: nat): Op {
    match p.next(i)
    case Item(bag) =>
      if bag != [] then StartWrite(Reply(SUCCESS, None, version, AssignBag(bag)))
      else if p.endThrew.Some? then StartWriteAndFinish(ErrorReply(version, p.endThrew.value, []))
      else Finish(OK)
    case NextThrew(message, props) => StartWriteAndFinish(ErrorReply(version, message, props))
  }

  /** Everything started from the `i`-th turn on, when the writes are answered by `acks` in turn. */
  function Turns(p: Producer, version: nat, i: nat, acks: seq<bool>): seq<Op>
    decreases |acks|
  {
    var op := Turn(p, version, i);
    if op.Terminal() || acks == [] then [op]
    else if !acks[0] then [op, Finish(CANCELLED)]
    else [op] + Turns(p, version, i + 1, acks[1..])
  }

  /** The producer a request for a stream starts, when it gets that far. */
  function Started(service: Option<Producer>, session: Table, request: Request): Option<Producer> {
    if service.None? then None
    else if request.Expired(session) then None
    else if DecodeAll(request.args, session).Err? || service.value.begun.BeginThrew? then None
    else service
  }

  /** The answer to a request that starts no producer: one terminal operation. */
  function Refusal(service: Option<Producer>, session: Table, version: nat, request: Request): Op {
    if service.None? then Finish(UNIMPLEMENTED)
    else if request.Expired(session) then
      StartWriteAndFinish(Reply(PROPERTY_MAPPING_EXPIRED, None, version, []))
    else if DecodeAll(request.args, session).Err? then Finish(INTERNAL)
    else match service.value.begun
      case BeginThrew(message, props) => StartWriteAndFinish(ErrorReply(version, message, props))
      case Began => Finish(INTERNAL)
  }

  /** How a request for a stream is answered from beginning to end. */
  function Stream(service: Option<Producer>, session: Table, version: nat, request: Request, acks: seq<bool>): seq<Op> {
    match Started(service, session, request)
    case None => [Refusal(service, session, version, request)]
    case Some(p) => Turns(p, version, 0, acks)
  }

  /** Writes up to `n`, then nothing while the last one is unanswered, or one terminal operation. */
  ghost predicate Disciplined(ops: seq<Op>, n: nat) {
    && n <= |ops| <= n + 1
    && (forall j | 0 <= j < n :: !ops[j].Terminal())
    && (|ops| == n + 1 ==> ops[n].Terminal())
  }

  predicate HasItem(p: Producer, i: nat) {
    p.next(i).Item? && p.next(i).bag != []
  }

  function Frame(p: Producer, version: nat, i: nat): Op
    requires HasItem(p, i)
  {
    StartWrite(Reply(SUCCESS, None, version, AssignBag(p.next(i).bag)))
  }

  /** The number of frames sent: up to the first empty bag, exception, failed write or missing answer. */
  function Frames(p: Producer, i: nat, acks: seq<bool>): nat
    decreases |acks|
  {
    if !HasItem(p, i) then 0
    else if acks == [] || !acks[0] then 1
    else 1 + Frames(p, i + 1, acks[1..])
  }

  ghost predicate HasItems(p: Producer, low: nat, high: nat) {
    forall k: nat | low <= k < high :: HasItem(p, k)
  }

  /** The frames are the items from the `i`-th on, in order. */
  ghost predicate FramesInOrder(ops: seq<Op>, p: Producer, version: nat, i: nat, n: nat) {
    && n <= |ops| && HasItems(p, i, i + n)
    && forall j | 0 <= j < n :: HasItem(p, i + j) && ops[j] == Frame(p, version, i + j)
  }

  /** Frames stop only where the items do, at a failed write, or at one not yet answered. */
  lemma {:induction false} FramesAreFirstItems(p: Producer, i: nat, acks: seq<bool>)
    ensures var n := Frames(p, i, acks);
      && n <= |acks| + 1 && HasItems(p, i, i + n)
      && (forall j | 0 <= j && j + 1 < n :: acks[j])
      && (HasItem(p, i + n) ==> n > 0 && (n == |acks| + 1 || !acks[n - 1]))
    decreases |acks|
  {
    if HasItem(p, i) && acks != [] && acks[0] {
      FramesAreFirstItems(p, i + 1, acks[1..]);
      var n := Frames(p, i, acks);
      forall j | 0 <= j && j + 1 < n
        ensures acks[j]
      {
        if j > 0 {
          assert acks[1..][j - 1];
        }
      }
    }
  }

  lemma TurnStops(p: Producer, version: nat, i: nat)
    ensures HasItem(p, i) ==> Turn(p, version, i) == Frame(p, version, i) && !Turn(p, version, i).Terminal()
    ensures !HasItem(p, i) ==> Turn(p, version, i).Terminal()
  {
  }

  lemma {:induction false} TurnsAreDisciplined(p: Producer, version: nat, i: nat, acks: seq<bool>)
    ensures var ops, n := Turns(p, version, i, acks), Frames(p, i, acks);
      && Disciplined(ops, n) && FramesInOrder(ops, p, version, i, n)
      && (|ops| == n <==> n == |acks| + 1)
      && (|ops| == n + 1 ==>
            && n <= |acks|
            && ops[n] == if n > 0 && !acks[n - 1] then Finish(CANCELLED) else Turn(p, version, i + n))
    decreases |acks|
  {
    hide Frame;
    TurnStops(p, version, i);
    if HasItem(p, i) && acks != [] && acks[0] {
      hide Turn, HasItem, Disciplined, FramesInOrder;
      TurnsAreDisciplined(p, version, i + 1, acks[1..]);
      var rest, n := Turns(p, version, i + 1, acks[1..]), Frames(p, i + 1, acks[1..]);
      DisciplineExtends(Turn(p, version, i), rest, n);
      FramesExtend(p, version, i, rest, n);
      assert 0 < n <= |acks[1..]| ==> acks[1..][n - 1] == acks[n];
    }
  }

  lemma DisciplineExtends(op: Op, rest: seq<Op>, n: nat)
    requires Disciplined(rest, n) && !op.Terminal()
    ensures Disciplined([op] + rest, n + 1)
  {
  }

  lemma FramesExtend(p: Producer, version: nat, i: nat, rest: seq<Op>, n: nat)
    requires HasItem(p, i) && FramesInOrder(rest, p, version, i + 1, n)
    ensures FramesInOrder([Frame(p, version, i)] + rest, p, version, i, n + 1)
  {
    hide HasItem, Frame;
    var ops := [Frame(p, version, i)] + rest;
    forall j | 0 <= j < n + 1
      ensures HasItem(p, i + j) && ops[j] == Frame(p, version, i + j)
    {
      if j > 0 {
        assert rest[j - 1] == Frame(p, version, i + 1 + (j - 1));
      }
    }
  }

  /** The number of success frames a request for a stream gets. */
  function StreamFrames(service: Option<Producer>, session: Table, request: Request, acks: seq<bool>): nat {
    match Started(service, session, request)
    case None => 0
    case Some(p) => Frames(p, 0, acks)
  }

  /**
   * Stream discipline: a stream has at most one write outstanding and exactly one terminal operation, with
   * nothing after it, unless its last write is still unanswered; its success frames are the service's items
   * in order, up to the first empty bag, exception or failed write.
   */
  lemma StreamIsDisciplined(service: Option<Producer>, session: Table, version: nat, request: Request, acks: seq<bool>)
    ensures var ops := Stream(service, session, version, request, acks);
      var n := StreamFrames(service, session, request, acks);
      && Disciplined(ops, n)
      && (|ops| == n ==> n == |acks| + 1)
      && (n > 0 ==>
            && service.Some? && n <= |acks| + 1
            && FramesInOrder(ops, service.value, version, 0, n)
            && (forall j | 0 <= j && j + 1 < n :: acks[j])
            && (HasItem(service.value, n) ==> n == |acks| + 1 || !acks[n - 1]))
  {
    match Started(service, session, request)
    case None =>
    case Some(p) =>
      hide Turns, Frames, Started, Refusal;
      TurnsAreDisciplined(p, version, 0, acks);
      FramesAreFirstItems(p, 0, acks);
      StartedIsService(service, session, request);
  }

  lemma StartedIsService(service: Option<Producer>, session: Table, request: Request)
    ensures Started(service, session, request).Some? ==> Started(service, session, request) == service
  {
  }

  /** The reactor of a generic stream. `ops` is what it has started so far. */
  class ReplyStreamWriteReactor {
    const producer: Producer
    const version: nat
    var calls: nat
    var awaiting: bool
    var ops: seq<Op>
    ghost var acks: seq<bool>

    /** So far the reactor has done what the specification says for the answers it got. */
    ghost predicate Valid()
      reads this
    {
      && ops == Turns(producer, version, 0, acks)
      && (awaiting <==> Frames(producer, 0, acks) == |acks| + 1)
      && (awaiting ==> calls == |acks| + 1)
    }

    constructor (producer: Producer, version: nat)
      ensures this.producer == producer && this.version == version
      ensures ops == [] && acks == [] && calls == 0 && !awaiting
    {
      this.producer, this.version := producer, version;
      calls, awaiting, ops, acks := 0, false, [], [];
    }

    method Begin()
      requires ops == [] && acks == [] && calls == 0 && !awaiting
      modifies this
      ensures producer.begun.Began? ==> Valid() && acks == []
      ensures producer.begun.BeginThrew? ==>
                && !awaiting
                && ops == [StartWriteAndFinish(ErrorReply(version, producer.begun.message, producer.begun.props))]
      ensures producer.begun.BeginThrew? ==>
                && ops[0].reply.result == FAILURE && ops[0].reply.version == version
                && ops[0].reply.exception.Some? && ops[0].reply.exception.value.props == AssignBag(producer.begun.props)
    {
      match producer.begun {
        case BeginThrew(message, props) =>
          ops := ops + [StartWriteAndFinish(ErrorReply(version, message, props))];
        case Began =>
          Continue();
      }
    }

    /** The answer to the one outstanding write. */
    method OnWriteDone(ok: bool)
      requires Valid() && awaiting
      modifies this
      ensures Valid() && acks == old(acks) + [ok]
      ensures old(ops) <= ops && |ops| == |old(ops)| + 1
      ensures !ok ==> !awaiting && ops == old(ops) + [Finish(CANCELLED)]
    {
      TurnsExtend(producer, version, 0, acks, ok);
      awaiting := false;
      if !ok {
        ops := ops + [Finish(CANCELLED)];
      } else {
        Continue();
      }
      acks := acks + [ok];
    }

    method Continue()
      requires !awaiting
      modifies this`calls, this`awaiting, this`ops
      ensures calls == old(calls) + 1 && ops == old(ops) + [Turn(producer, version, old(calls))]
      ensures awaiting <==> HasItem(producer, old(calls))
      ensures var e := producer.next(old(calls));
              e.NextThrew? ==>
                ops == old(ops) + [StartWriteAndFinish(
                                     Reply(FAILURE, Some(MarshalException(e.message, e.props)), version, []))]
      ensures producer.next(old(calls)) == Item([]) ==>
                ops == old(ops) +
                  [if producer.endThrew.None? then Finish(OK)
                   else StartWriteAndFinish(
                          Reply(FAILURE, Some(MarshalException(producer.endThrew.value, [])), version, []))]
      ensures HasItem(producer, old(calls)) ==>
                ops == old(ops) +
                  [StartWrite(Reply(SUCCESS, None, version, AssignBag(producer.next(old(calls)).bag)))]
    {
      var item := producer.next(calls);
      calls := calls + 1;
      match item {
        case NextThrew(message, props) =>
          ops := ops + [StartWriteAndFinish(ErrorReply(version, message, props))];
        case Item(bag) =>
          if bag == [] {
            match producer.endThrew {
              case Some(message) => ops := ops + [StartWriteAndFinish(ErrorReply(version, message, []))];
              case None => ops := ops + [Finish(OK)];
            }
          } else {
            ops := ops + [StartWrite(Reply(SUCCESS, None, version, AssignBag(bag)))];
            awaiting := true;
          }
      }
    }
  }

  /** One more answer, while the last write is unanswered, extends the stream by one operation. */
  lemma {:induction false} TurnsExtend(p: Producer, version: nat, i: nat, acks: seq<bool>, ok: bool)
    requires Frames(p, i, acks) == |acks| + 1
    ensures Turns(p, version, i, acks + [ok])
         == Turns(p, version, i, acks) + [if ok then Turn(p, version, i + |acks| + 1) else Finish(CANCELLED)]
    ensures Frames(p, i, acks + [ok]) == |acks| + 1 + (if ok && HasItem(p, i + |acks| + 1) then 1 else 0)
    decreases |acks|
  {
    if acks == [] {
      assert ([] + [ok])[1..] == [];
    } else {
      assert (acks + [ok])[1..] == acks[1..] + [ok];
      TurnsExtend(p, version, i + 1, acks[1..], ok);
    }
  }

  // ---------------------------------------------------------------- mapping streams

  datatype MappingMessage = MappingMessage(version: nat, info: Info)

  datatype End = Completed | Cancelled | Abandoned

  function Stamped(version: nat, infos: seq<Info>): seq<MappingMessage> {
    seq(|infos|, i requires 0 <= i < |infos| => MappingMessage(version, infos[i]))
  }

  /**
   * The writer of a mapping stream: the server's on a get, the client's on a put. They differ only in
   * what a failed write does: the server finishes the stream, the client stops writing.
   */
  class SnapshotWriter {
    const side: Side
    const registry: Registry
    var properties: seq<Info>
    var version: nat
    var next: nat
    var sent: seq<MappingMessage>
    var end: Option<End>

    ghost predicate Valid()
      reads this
    {
      && next <= |properties| && sent == Stamped(version, properties[..next])
      && (end == Some(Completed) ==> next == |properties|)
    }

    constructor (side: Side, registry: Registry)
      requires registry.State().Valid()
      ensures this.side == side && this.registry == registry
      ensures Valid() && version == registry.unique && registry.State().Enumerates(properties)
      ensures next == if |properties| > 0 then 1 else 0
      ensures end == if |properties| > 0 then None else Some(Completed)
    {
      this.side, this.registry := side, registry;
      properties, version, next, sent, end := [], NO_VERSION, 0, [], None;
      new;
      properties, version := registry.EnumerateProperties();
      Continue();
    }

    method Continue()
      requires Valid() && end.None?
      modifies this`next, this`sent, this`end
      ensures Valid()
      ensures next == old(next) + (if old(next) < |properties| then 1 else 0)
      ensures end == if old(next) < |properties| then None else Some(Completed)
    {
      if next < |properties| {
        sent := sent + [MappingMessage(version, properties[next])];
        next := next + 1;
        assert properties[..next] == properties[..next - 1] + [properties[next - 1]];
      } else {
        end := Some(Completed);
      }
    }

    method OnWriteDone(ok: bool)
      requires Valid() && end.None?
      modifies this`next, this`sent, this`end
      ensures Valid()
      ensures next == old(next) + (if ok && old(next) < |properties| then 1 else 0)
      ensures end == if !ok then Some(if side.Server? then Cancelled else Abandoned)
                     else if old(next) < |properties| then None else Some(Completed)
    {
      if ok {
        Continue();
      } else {
        end := Some(if side.Server? then Cancelled else Abandoned);
      }
    }

    /**
     * When every write succeeds the stream sends every description of the snapshot exactly once, all
     * under the snapshot's version, and then completes; the number of unsent ones shrinks with each write.
     */
    method WriteAll()
      requires Valid() && end.None?
      modifies this`next, this`sent, this`end
      ensures Valid() && end == Some(Completed) && sent == Stamped(version, properties)
    {
      while end.None?
        invariant Valid() && end in {None, Some(Completed)}
        decreases end.None?, |properties| - next
      {
        OnWriteDone(true);
      }
      assert properties[..next] == properties;
    }
  }

  /** A message is the description of its place in the snapshot, whole, under the snapshot's version. */
  lemma StampedKeepsInfos(version: nat, infos: seq<Info>)
    ensures |Stamped(version, infos)| == |infos|
    ensures forall k | 0 <= k < |infos| ::
              Stamped(version, infos)[k].info == infos[k] && Stamped(version, infos)[k].version == version
  {
  }

  ghost predicate Carries(sent: seq<MappingMessage>, version: nat, id: nat) {
    exists k :: 0 <= k < |sent| && sent[k].info.unique == id && sent[k].version == version
  }

  /** So a completed mapping stream carries each id 0..version-1 exactly once. */
  lemma CompletedStreamCarriesVersion(reg: RegistryState, properties: seq<Info>)
    requires reg.Valid() && reg.Enumerates(properties)
    ensures |Stamped(reg.unique, properties)| == reg.unique
    ensures forall i: nat | i < reg.unique :: Carries(Stamped(reg.unique, properties), reg.unique, i)
  {
    SnapshotHasVersionManyEntries(reg, properties);
    forall i: nat | i < reg.unique
      ensures Carries(Stamped(reg.unique, properties), reg.unique, i)
    {
      assert HasIdIn(properties, i);
      var k :| 0 <= k < |properties| && properties[k].unique == i;
      assert Stamped(reg.unique, properties)[k].info.unique == i;
    }
  }
}

/**
 * The reading end of a generic stream (src/ipc/grpc/grpc_client.cxx), and what its handler is told of a
 * stream that the writing end of the server produced.
 */
module StreamReader {
  import opened Basics
  import opened PropertyRegistry
  import opened PropertyMapping
  import opened WireProtocol
  import opened RemoteCalls
  import opened StreamReactors
  import opened ClientSide

  /** What the handler is told of one reply: a frame, or why there are none; nothing when decoding fails. */
  function Told(table: Table, reply: Reply): seq<Outcome> {
    if Complete(table, reply).Silent? then [] else [Complete(table, reply)]
  }

  function ToldOf(table: Table, replies: seq<Reply>): seq<Outcome>
    decreases |replies|
  {
    if replies == [] then [] else Told(table, replies[0]) + ToldOf(table, replies[1..])
  }

  lemma {:induction false} ToldJoin(table: Table, first: seq<Reply>, then_: seq<Reply>)
    ensures ToldOf(table, first + then_) == ToldOf(table, first) + ToldOf(table, then_)
    decreases |first|
  {
    hide Told;
    if first == [] {
      assert first + then_ == then_;
    } else {
      assert (first + then_)[1..] == first[1..] + then_;
      ToldJoin(table, first[1..], then_);
    }
  }

  lemma ToldOfOne(table: Table, reply: Reply)
    ensures ToldOf(table, [reply]) == Told(table, reply)
  {
    hide Told;
    assert [reply][1..] == [];
  }

  /** `told` is history: what the handler has been called with. */
  class ServiceReplyStreamReader {
    const owner: ClientImpl
    var reading: bool
    var cancelled: bool
    var done: bool
    ghost var told: seq<Outcome>

    constructor (owner: ClientImpl)
      ensures this.owner == owner && reading && !cancelled && !done && told == []
    {
      this.owner := owner;
      reading, cancelled, done, told := true, false, false, [];
    }

    /**
     * The answer to the one outstanding read; `cancels` is what the handler says to a frame. Reading goes
     * on after everything but the end of the stream, even when the stream has been cancelled.
     */
    method OnReadDone(ok: bool, reply: Reply, cancels: bool)
      requires reading
      modifies this`reading, this`cancelled, this`told
      ensures told == old(told) + if ok then Told(owner.mapping, reply) else []
      ensures reading == ok
      ensures var outcome := Complete(owner.mapping, reply);
              cancelled == (old(cancelled) || (ok && !outcome.Silent? && (outcome.OnReply? ==> cancels)))
    {
      if !ok {
        reading := false;
        return;
      }
      if reply.result != SUCCESS {
        if reply.result == PROPERTY_MAPPING_EXPIRED {
          told := told + [ServerMappingExpired];
          cancelled := true;
          return;
        } else if reply.exception.None? {
          told := told + [TransportError];
          cancelled := true;
          return;
        }
      }
      if reply.version != owner.mapping.version {
        told := told + [ClientMappingExpired];
        cancelled := true;
        return;
      }
      if reply.exception.Some? {
        var props := owner.Unmarshal(reply.exception.value.props);
        if props.Ok? {
          told := told + [OnException(reply.exception.value.message, props.value)];
          cancelled := true;
        }
        return;
      }
      var frame := owner.Unmarshal(reply.props);
      if frame.Ok? {
        told := told + [OnReply(frame.value)];
        cancelled := cancelled || cancels;
      }
    }

    /** The end of the call: a failed status, as after a cancellation, is one thing more to tell; then it is done. */
    method OnDone(statusOk: bool)
      requires !reading
      modifies this`told, this`done
      ensures done
      ensures told == old(told) + if statusOk then [] else [TransportError]
    {
      if !statusOk {
        told := told + [TransportError];
      }
      done := true;
    }

    /** The replies that arrive, then the end of the stream; `cancels` says for each what the handler answers. */
    method ReadAll(replies: seq<Reply>, cancels: seq<bool>, statusOk: bool)
      requires reading && told == [] && |cancels| == |replies|
      modifies this
      ensures told == ToldOf(owner.mapping, replies) + (if statusOk then [] else [TransportError])
      ensures done && !reading
    {
      for i := 0 to |replies|
        invariant reading && told == ToldOf(owner.mapping, replies[..i])
      {
        OnReadDone(true, replies[i], cancels[i]);
        assert replies[..i + 1] == replies[..i] + [replies[i]];
        ToldJoin(owner.mapping, replies[..i], [replies[i]]);
        ToldOfOne(owner.mapping, replies[i]);
      }
      assert replies[..|replies|] == replies;
      if |replies| > 0 {
        OnReadDone(false, replies[0], false);
      } else {
        OnReadDone(false, Reply(SUCCESS, None, 0, []), false);
      }
      OnDone(statusOk);
    }
  }

  // ---------------------------------------------------------------- from the producer to the handler

  /** What a server's operations put on the stream. */
  function Sent(ops: seq<Op>): seq<Reply>
    decreases |ops|
  {
    if ops == [] then [] else (if ops[0].Finish? then [] else [ops[0].reply]) + Sent(ops[1..])
  }

  lemma {:induction false} SentByDisciplined(ops: seq<Op>, n: nat)
    requires Disciplined(ops, n)
    ensures var last := if |ops| == n + 1 && ops[n].StartWriteAndFinish? then 1 else 0;
            && |Sent(ops)| == n + last
            && (forall j | 0 <= j < n :: Sent(ops)[j] == ops[j].reply)
            && (last == 1 ==> Sent(ops)[n] == ops[n].reply)
    decreases n
  {
    if n > 0 {
      assert ops[1..][..] == ops[1..];
      forall j | 0 <= j < n - 1
        ensures ops[1..][j] == ops[j + 1]
      {
      }
      SentByDisciplined(ops[1..], n - 1);
    } else if |ops| == 1 {
      assert ops[1..] == [];
    }
  }

  function FrameReply(p: Producer, version: nat, i: nat): Reply
    requires HasItem(p, i)
  {
    Reply(SUCCESS, None, version, AssignBag(p.next(i).bag))
  }

  /** The replies `replies[..n]` are the items of `p`, in order, under one version. */
  ghost predicate CarriesItems(replies: seq<Reply>, p: Producer, version: nat, n: nat) {
    n <= |replies| && forall j: nat | j < n :: HasItem(p, j) && replies[j] == FrameReply(p, version, j)
  }

  /** A reply that is not a frame: an expired mapping or an exception. */
  predicate Closing(reply: Reply, version: nat) {
    && reply.version == version
    && (reply.result == PROPERTY_MAPPING_EXPIRED || (reply.result == FAILURE && reply.exception.Some?))
  }

  /** A stream puts the first items of its producer on the wire, then at most one reply that is not a frame. */
  lemma StreamCarriesItems(service: Option<Producer>, session: Table, version: nat, request: Request, acks: seq<bool>)
    ensures var n := StreamFrames(service, session, request, acks);
            var sent := Sent(Stream(service, session, version, request, acks));
            && n <= |sent| <= n + 1
            && (n > 0 ==> service.Some?)
            && (service.Some? ==> CarriesItems(sent, service.value, version, n))
            && (|sent| == n + 1 ==> Closing(sent[n], version))
  {
    var n, ops := StreamFrames(service, session, request, acks), Stream(service, session, version, request, acks);
    StreamIsDisciplined(service, session, version, request, acks);
    SentByDisciplined(ops, n);
    match Started(service, session, request)
    case None =>
      assert ops == [Refusal(service, session, version, request)];
    case Some(p) =>
      StartedIsService(service, session, request);
      TurnsAreDisciplined(p, version, 0, acks);
      hide Turns, Frames, Started, Sent, Disciplined, Stream, StreamFrames;
      forall j: nat | j < n
        ensures HasItem(p, j) && Sent(ops)[j] == FrameReply(p, version, j)
      {
        assert HasItem(p, 0 + j) && ops[j] == Frame(p, version, 0 + j);
      }
  }

  /** What a handler hears of an item: it, decoded, or nothing. */
  function HeardItem(bag: Bag, table: Table): seq<Outcome> {
    match DecodeAll(AssignBag(bag), table)
    case Ok(got) => [OnReply(got)]
    case Err(_) => []
  }

  lemma HeardItemIsResolved(bag: Bag, table: Table)
    ensures HeardItem(bag, table)
         == if NoEmpties(bag) && AllMapped(bag, table) then [OnReply(Resolved(bag, table))] else []
  {
    DecodesExactly(bag, table);
    if NoEmpties(bag) && AllMapped(bag, table) {
      DecodesToResolved(bag, table);
    }
    hide DecodeAll, AssignBag, NoEmpties, AllMapped, Resolved;
  }

  function HeardItems(p: Producer, n: nat, table: Table): seq<Outcome>
    requires HasItems(p, 0, n)
  {
    if n == 0 then []
    else
      assert HasItem(p, n - 1);
      HeardItems(p, n - 1, table) + HeardItem(p.next(n - 1).bag, table)
  }

  /** No item is lost exactly when none has an empty property or one the client has no mapping for. */
  lemma {:induction false} EveryItemHeardExactly(p: Producer, n: nat, table: Table)
    requires HasItems(p, 0, n)
    ensures |HeardItems(p, n, table)| <= n
    ensures |HeardItems(p, n, table)| == n
            <==> forall i: nat | i < n && HasItem(p, i) :: NoEmpties(p.next(i).bag) && AllMapped(p.next(i).bag, table)
    decreases n
  {
    hide DecodeAll, AssignBag, NoEmpties, AllMapped;
    if n > 0 {
      assert HasItem(p, n - 1);
      EveryItemHeardExactly(p, n - 1, table);
      DecodesExactly(p.next(n - 1).bag, table);
    }
  }

  lemma {:induction false} FramesAreHeard(replies: seq<Reply>, p: Producer, n: nat, table: Table)
    requires CarriesItems(replies, p, table.version, n)
    ensures HasItems(p, 0, n) && ToldOf(table, replies[..n]) == HeardItems(p, n, table)
    decreases n
  {
    hide DecodeAll, AssignBag;
    if n > 0 {
      FramesAreHeard(replies, p, n - 1, table);
      assert replies[..n] == replies[..n - 1] + [replies[n - 1]];
      ToldJoin(table, replies[..n - 1], [replies[n - 1]]);
      ToldOfOne(table, replies[n - 1]);
      assert replies[n - 1] == FrameReply(p, table.version, n - 1);
    }
  }

  lemma ClosingIsNoFrame(reply: Reply, table: Table)
    requires Closing(reply, table.version)
    ensures ToldOf(table, [reply]) == Told(table, reply)
    ensures |Told(table, reply)| <= 1 && forall o | o in Told(table, reply) :: !o.OnReply?
  {
    ToldOfOne(table, reply);
    hide DecodeAll, ToldOf;
  }

  /** First the frames, then at most one thing more, which is no frame. */
  ghost predicate HeardThenEnd(frames: seq<Outcome>, told: seq<Outcome>) {
    && |frames| <= |told| <= |frames| + 1 && told[..|frames|] == frames
    && (|frames| < |told| ==> !told[|frames|].OnReply?)
  }

  /**
   * A client that has read the version a stream was begun under is handed the producer's items in order,
   * each decoded, except those that do not decode; after the last of them it is told at most one thing
   * more, that the stream has ended early. This holds for whatever part of the stream arrives, so whether
   * or not anything was cancelled.
   */
  lemma ItemsAreHeardInOrder(
      service: Option<Producer>, session: Table, request: Request, acks: seq<bool>, table: Table, received: seq<Reply>)
    requires received <= Sent(Stream(service, session, table.version, request, acks))
    ensures var n := StreamFrames(service, session, request, acks);
            var m := if |received| < n then |received| else n;
            var told := ToldOf(table, received);
            && (m > 0 ==> service.Some?)
            && (service.Some? ==>
                  && HasItems(service.value, 0, m)
                  && HeardThenEnd(HeardItems(service.value, m, table), told))
            && (service.None? ==> HeardThenEnd([], told))
  {
    var n := StreamFrames(service, session, request, acks);
    var sent := Sent(Stream(service, session, table.version, request, acks));
    var m := if |received| < n then |received| else n;
    StreamCarriesItems(service, session, table.version, request, acks);
    hide Stream, Sent, StreamFrames, Told, ToldOf;
    assert received == received[..m] + received[m..];
    ToldJoin(table, received[..m], received[m..]);
    if service.Some? {
      assert CarriesItems(received, service.value, table.version, m);
      FramesAreHeard(received, service.value, m, table);
    }
    if |received| == n + 1 {
      assert received[m..] == [sent[n]];
      ClosingIsNoFrame(sent[n], table);
    } else {
      assert received[m..] == [];
      NothingTold(table);
    }
    if m == 0 {
      assert received[..m] == [];
      NothingTold(table);
    }
  }

  lemma NothingTold(table: Table)
    ensures ToldOf(table, []) == []
  {
  }

  // ---------------------------------------------------------------- over a settled connection

  /** The items a stream sends are built on the server's descriptions, those it registered meanwhile included. */
  ghost predicate ItemsBuiltOn(p: Producer, n: nat, reg: RegistryState) {
    forall i: nat | i < n && HasItem(p, i) :: BuiltOn(p.next(i).bag, reg)
  }

  /** Every item could already be named when the stream was begun. */
  ghost predicate ItemsAreOld(p: Producer, n: nat, version: nat) {
    forall i: nat | i < n && HasItem(p, i) :: NoEmpties(p.next(i).bag) && AllBelow(p.next(i).bag, version)
  }

  /** The `i`-th call of the handler is the `i`-th item, translated. */
  ghost predicate AllTranslated(told: seq<Outcome>, p: Producer, client: RegistryState) {
    forall i: nat | i < |told| ::
      HasItem(p, i) && Translatable(p.next(i).bag, client) && told[i] == OnReply(Translated(p.next(i).bag, client))
  }

  lemma ItemIsHeard(bag: Bag, l: Link, grown: RegistryState)
    requires l.Settled() && grown.Valid() && l.server.GrowsTo(grown) && BuiltOn(bag, grown)
    ensures HeardItem(bag, l.table) != [] <==> NoEmpties(bag) && AllMapped(bag, l.table)
    ensures NoSlotFrom(l.table, l.server.unique) ==> (AllMapped(bag, l.table) <==> AllBelow(bag, l.server.unique))
    ensures NoEmpties(bag) && AllBelow(bag, l.server.unique) ==>
              Translatable(bag, l.client) && HeardItem(bag, l.table) == [OnReply(Translated(bag, l.client))]
  {
    DecodesExactly(bag, l.table);
    TableMapsOldIds(bag, l.table, l.server, grown, l.client);
    BuiltBelowWasBuilt(bag, l.server, grown);
    if AllBelow(bag, l.server.unique) {
      BagTravels(bag, l.table, l.server, l.client);
    }
    hide RegistryState.Valid, RegistryState.GrowsTo, RegistryState.Holds, BuiltOn, Translates, AllMapped, AllBelow;
    hide NoSlotFrom, DecodeAll, AssignBag, NoEmpties, Translatable;
  }

  lemma {:induction false} OldItemsAreTranslated(p: Producer, n: nat, l: Link, grown: RegistryState)
    requires l.Settled() && grown.Valid() && l.server.GrowsTo(grown)
    requires HasItems(p, 0, n) && ItemsBuiltOn(p, n, grown) && ItemsAreOld(p, n, l.server.unique)
    ensures |HeardItems(p, n, l.table)| == n && AllTranslated(HeardItems(p, n, l.table), p, l.client)
    decreases n
  {
    hide RegistryState.Valid, RegistryState.GrowsTo, Link.Settled, HeardItem, BuiltOn, NoEmpties, AllBelow;
    hide Translatable;
    if n > 0 {
      assert HasItem(p, n - 1);
      OldItemsAreTranslated(p, n - 1, l, grown);
      ItemIsHeard(p.next(n - 1).bag, l, grown);
    }
  }

  ghost predicate ItemsDecode(p: Producer, n: nat, table: Table) {
    forall i: nat | i < n && HasItem(p, i) :: NoEmpties(p.next(i).bag) && AllMapped(p.next(i).bag, table)
  }

  lemma DecodableIsOld(p: Producer, n: nat, l: Link, grown: RegistryState)
    requires l.Settled() && grown.Valid() && l.server.GrowsTo(grown) && ItemsBuiltOn(p, n, grown)
    ensures NoSlotFrom(l.table, l.server.unique) ==>
              (ItemsDecode(p, n, l.table) <==> ItemsAreOld(p, n, l.server.unique))
  {
    hide RegistryState.Valid, RegistryState.GrowsTo, Link.Settled, BuiltOn, NoEmpties, AllBelow, AllMapped;
    hide NoSlotFrom, HeardItem;
    forall i: nat | i < n && HasItem(p, i)
      ensures NoSlotFrom(l.table, l.server.unique) ==>
                (AllMapped(p.next(i).bag, l.table) <==> AllBelow(p.next(i).bag, l.server.unique))
    {
      ItemIsHeard(p.next(i).bag, l, grown);
    }
  }

  /**
   * Over a settled connection the handler is handed the items that decode, in order, and after them told
   * one thing at most, which is no frame. No item among the `m` that arrive is missing exactly when each
   * is without an empty property and mapped; for a client that has read no further than the stream's
   * version, exactly when none uses a description registered after the stream was begun. Then the frames
   * are the items 0..m-1, translated.
   */
  lemma StreamArrivesTranslated(
      l: Link, grown: RegistryState, service: Option<Producer>, request: Request, acks: seq<bool>, received: seq<Reply>)
    requires l.Settled() && grown.Valid() && l.server.GrowsTo(grown)
    requires received <= Sent(Stream(service, l.session, l.server.unique, request, acks))
    requires service.Some? ==> ItemsBuiltOn(service.value, StreamFrames(service, l.session, request, acks), grown)
    ensures var n := StreamFrames(service, l.session, request, acks);
            var m := if |received| < n then |received| else n;
            var told := ToldOf(l.table, received);
            && (service.None? ==> m == 0 && HeardThenEnd([], told))
            && (service.Some? ==> ArrivesTranslated(l, service.value, m, told))
  {
    ItemsAreHeardInOrder(service, l.session, request, acks, l.table, received);
    var n := StreamFrames(service, l.session, request, acks);
    var m := if |received| < n then |received| else n;
    if service.Some? {
      ItemsArriveTranslated(l, grown, service.value, m, n, ToldOf(l.table, received));
    }
    hide Stream, Sent, StreamFrames, ToldOf, Link.Settled, RegistryState.Valid, RegistryState.GrowsTo;
    hide ItemsBuiltOn, ArrivesTranslated, HeardItems, HasItems;
  }

  ghost predicate ArrivesTranslated(l: Link, p: Producer, m: nat, told: seq<Outcome>) {
    && HasItems(p, 0, m) && HeardThenEnd(HeardItems(p, m, l.table), told)
    && (|HeardItems(p, m, l.table)| == m <==> ItemsDecode(p, m, l.table))
    && (NoSlotFrom(l.table, l.server.unique) ==> (ItemsDecode(p, m, l.table) <==> ItemsAreOld(p, m, l.server.unique)))
    && (ItemsAreOld(p, m, l.server.unique) ==> m <= |told| && AllTranslated(told[..m], p, l.client))
  }

  lemma ItemsArriveTranslated(l: Link, grown: RegistryState, p: Producer, m: nat, n: nat, told: seq<Outcome>)
    requires l.Settled() && grown.Valid() && l.server.GrowsTo(grown)
    requires m <= n && HasItems(p, 0, m) && ItemsBuiltOn(p, n, grown)
    requires HeardThenEnd(HeardItems(p, m, l.table), told)
    ensures ArrivesTranslated(l, p, m, told)
  {
    FewerItems(p, m, n, grown);
    EveryItemHeardExactly(p, m, l.table);
    DecodableIsOld(p, m, l, grown);
    if ItemsAreOld(p, m, l.server.unique) {
      OldItemsAreTranslated(p, m, l, grown);
    }
    hide AllTranslated, Link.Settled, RegistryState.Valid, RegistryState.GrowsTo, ItemsBuiltOn, ItemsAreOld;
    hide HeardItems, HasItems;
    hide NoSlotFrom, NoEmpties, AllMapped;
  }

  lemma FewerItems(p: Producer, m: nat, n: nat, reg: RegistryState)
    requires m <= n && ItemsBuiltOn(p, n, reg)
    ensures ItemsBuiltOn(p, m, reg)
  {
    hide BuiltOn, HasItem;
  }

  // ---------------------------------------------------------------- when the client has read another version

  /**
   * A client that has read another version is told so by every reply that arrives, not once: cancelling
   * does not stop the frames that are already on their way. So it is told at most once exactly when at
   * most one reply arrives.
   */
  lemma ExpiredOncePerReply(p: Producer, version: nat, acks: seq<bool>, table: Table, received: seq<Reply>)
    requires received <= Sent(Turns(p, version, 0, acks)) && table.version != version
    ensures ToldOf(table, received) == seq(|received|, _ => ClientMappingExpired)
    ensures |ToldOf(table, received)| <= 1 <==> |received| <= 1
  {
    TurnsAreDisciplined(p, version, 0, acks);
    var ops, n := Turns(p, version, 0, acks), Frames(p, 0, acks);
    SentByDisciplined(ops, n);
    forall j | 0 <= j < |received|
      ensures received[j].version == version && received[j].result != PROPERTY_MAPPING_EXPIRED
      ensures received[j].result == FAILURE ==> received[j].exception.Some?
    {
      assert received[j] == Sent(ops)[j];
      if j < n {
        assert HasItem(p, 0 + j) && ops[j] == Frame(p, version, 0 + j);
      }
    }
    hide Turns, Frames, Sent, Disciplined, FramesInOrder;
    AllExpired(table, version, received);
  }

  /**
   * A stream puts more than one reply on the wire exactly when a first frame is answered and more than a
   * status follows.
   */
  lemma SeveralSentExactly(p: Producer, version: nat, acks: seq<bool>)
    ensures |Sent(Turns(p, version, 0, acks))| > 1
            <==> && HasItem(p, 0) && acks != [] && acks[0]
                 && (HasItem(p, 1) || p.next(1).NextThrew? || p.endThrew.Some?)
  {
    TurnStops(p, version, 0);
    TurnStops(p, version, 1);
    var ops, n := Turns(p, version, 0, acks), Frames(p, 0, acks);
    TurnsAreDisciplined(p, version, 0, acks);
    SentByDisciplined(ops, n);
    if HasItem(p, 0) && acks != [] && acks[0] {
      TurnsAreDisciplined(p, version, 1, acks[1..]);
      SentByDisciplined(Turns(p, version, 1, acks[1..]), Frames(p, 1, acks[1..]));
      assert Turns(p, version, 1, acks[1..])[0] == Turn(p, version, 1);
    }
    hide Turn, HasItem;
  }

  /**
   * When a client that has read another version can be told so more than once: exactly when the service has
   * a first item, its frame is written, and the service then has another item or throws. If it has no more,
   * or the write fails, one reply is all there is.
   */
  lemma ExpiredTwiceExactlyForSeveralReplies(p: Producer, version: nat, acks: seq<bool>, table: Table)
    requires table.version != version
    ensures (exists received :: received <= Sent(Turns(p, version, 0, acks)) && |ToldOf(table, received)| > 1)
            <==> && HasItem(p, 0) && acks != [] && acks[0]
                 && (HasItem(p, 1) || p.next(1).NextThrew? || p.endThrew.Some?)
  {
    SeveralSentExactly(p, version, acks);
    var sent := Sent(Turns(p, version, 0, acks));
    forall received | received <= sent
      ensures |ToldOf(table, received)| == |received|
    {
      ExpiredOncePerReply(p, version, acks, table, received);
    }
    hide Sent, Turns, ToldOf, HasItem, Turn;
    if |sent| > 1 {
      assert sent <= sent && |ToldOf(table, sent)| > 1;
    }
    if received :| received <= sent && |ToldOf(table, received)| > 1 {
      assert |received| > 1;
    }
  }

  lemma {:induction false} AllExpired(table: Table, version: nat, replies: seq<Reply>)
    requires table.version != version
    requires forall j | 0 <= j < |replies| ::
               && replies[j].version == version && replies[j].result != PROPERTY_MAPPING_EXPIRED
               && (replies[j].result == FAILURE ==> replies[j].exception.Some?)
    ensures ToldOf(table, replies) == seq(|replies|, _ => ClientMappingExpired)
    decreases |replies|
  {
    hide DecodeAll;
    if replies != [] {
      AllExpired(table, version, replies[1..]);
      assert Told(table, replies[0]) == [ClientMappingExpired];
    }
  }
}

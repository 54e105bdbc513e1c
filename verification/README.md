# Erebus: a verified model of its stateful core

Erebus is a system monitor whose server and clients exchange bags of typed properties. A property on the
wire is a bare number and a value; what the number means is private to the process that sent it. This
project models the parts of Erebus in which that, and the other long-lived state of the program, is kept
consistent, and proves what they promise.

**The mapping protocol** (`Registry`, `WireProtocol`, `Mapping`, `Calls`, `MappingRuns`, `CallRuns`,
`RegistryGrowth`, `ManyClients`, `ServerSide`, `ClientSide`, `MappingStreams`). Each process has an append-only registry
of property descriptions, and the next free id doubles as its version. A client puts its snapshot to the server and gets the server's; each side allocates
descriptions for names it did not know, which outdates the version the other side has just learnt. The main
results: put, get and put settle any two registries without type clashes, and a settled connection is a fixed
point, for one client or for all of a server's at once; on a settled connection a remote call is the local call on
translated values; and under any
interleaving of registrations, partial transfers, session drops and calls a decoded property has the name,
type and value that was sent, or decoding fails. The server and client objects are classes whose methods are
tied to the functions these results are about.

**The session cache** (`SessionCache`, `SessionSweep`, `SweepGuards`). `SessionData::get` as a state machine of any number of
threads with a clock, two locks, per-entry compare-and-swap and a sweep. It refines a plain map in which one
holder at a time reads and writes a session, a session is lost only after the inactivity threshold, and sweeps are
more than the threshold apart. The same call, uninterrupted, is a method with its sweep loop.

**Logging** (`FileSink`, `AsyncLogger`, `FlushGuarantee`). The rotating log file over its whole life: the rename loop is a
simultaneous shift, and the chain of files always reads as a suffix of everything written. The asynchronous
logger as a state machine of writers, flushers and the worker: nothing is lost, repeated or reordered, and what a
caller can conclude from a flush is stated exactly, in terms of the callers' own calls.

**Property storage** (`PropertyStorage`, `PackedWord`). Shared reference-counted payloads against plain values
without sharing, over any sequence of operations, and the tagged-pointer word.

**Smaller state** (`StreamReactors`, `StreamReader`, `StreamEndings`, `InstanceIds`, `Flags`, `TypeIds`). The stream reactors against a
specification of what they may start, the client's reader at the other end, and what each way of ending tells it, the first-fit id table, flag packs,
and the double-checked type registry.

Objects that the program updates in place are classes whose methods are proved against functions on values.
Components that are interleavings of threads or processes are state machines: a state, actions with an enabling
condition, an invariant kept by every action, and theorems over all runs. `Basics` holds the result shapes.

## Where the program differs from what it promises

- A mapping message whose name clashes in type raises an exception, but its version has already been stamped on the
  session, so requests under that version are accepted: `RemoteCalls.ClashStampsSession`. The put it came in goes no further:
  `MappingRuns.PutDiesExactlyOnClash`.
- The session's mapping version is set by the first message of a put, so the version check passes before the
  table is complete: `RemoteCalls.VersionCheckPassesBeforeTableIsComplete`. What completeness does need is in
  `MappingRuns.DecodingIsComplete`, and the exact condition at any time, through any partial puts and session drops, in
  `MappingRuns.DecodesExactlyWhatWasPut`.
- The server reads the version of a reply before it runs the service, and that of a stream when it is begun. An answer
  that uses a description registered in between passes the client's version check and fails to decode, and the caller
  is told nothing, not even `done`: `RemoteCalls.AnswerUnderNewNameIsSwallowed`. Exactly which answers arrive is in
  `RemoteCalls.CallRefinesLocalCall`, over runs in `MappingRuns.StampedReplyDecodes`, and for streams, where such an
  item is skipped, in `StreamReader.StreamArrivesTranslated`.
- An empty property clears the wire value instead of setting its void member, and a receiver refuses it:
  `WireProtocol.ValueRoundTrip`. As an argument it is answered with an exception; in an answer it leaves the
  caller without any callback: `RemoteCalls.CallRefinesLocalCall`.
- A boolean byte other than 0 and 1 arrives as 0: `WireProtocol.ValueRoundTrip`.
- A client whose id is the largest 32-bit number is always refused when it passes arguments:
  `RemoteCalls.RefusedExactlyWhenVersionsDiffer`.
- A stream whose version the client has not read is reported as expired by every reply that still arrives, because
  cancelling does not stop the reading: `StreamReader.ExpiredOncePerReply`. That can be more than once exactly when a
  first frame gets through and the service then has another item or throws, not when it has no more:
  `StreamReader.ExpiredTwiceExactlyForSeveralReplies`. The status of the cancelled call is reported
  once more: `StreamReader.ServiceReplyStreamReader.OnDone`.
- `flush` says it waits until the records are really flushed (`src/system/logger/async_logger2.cxx:99`); it waits
  until the queue is empty. `AsyncLogger.FlushMayReturnBeforeDelivery` is a run in which it returns before the
  record queued ahead of it was delivered. `FlushGuarantee.FlushGuaranteesExactlyAfterSecondReturn` says exactly what
  callers must have seen to be sure of delivery; a second flush after the first has returned is enough.
- The sweep of the session cache erases an entry while its guard on it is alive, and the guard's destructor writes to
  the erased entry. A call that nothing disturbs does so exactly when the requested session is missing, the stale check is
  due and some unlocked session is stale: `SweepGuards.GuardOutlivesEntryExactlyForStaleSessions`. An ordinary program
  gets there: `SweepGuards.WriteIsReachable`. No other reference is ever to an entry that is gone:
  `SessionCache.ReferencesAreHeld`.
- A get of a session that somebody holds returns an empty reference: exactly then, by
  `SessionCache.RefusedExactlyWhenHeld`, and whenever two requests of one client overlap, by
  `SessionCache.OverlappingGetIsRefused`. The server asserts that the reference is not empty and then uses it
  (`src/ipc/grpc/erebus_service.cxx:343-346`, `src/ipc/grpc/erebus_service.cxx:356-359`).
- A fallback text is computed for a standard exception without one and then not used
  (`src/ipc/grpc/erebus_service.cxx:106-117`): it goes out with its empty text, where the program's own exceptions get a
  fixed one.
- A closed log file can be larger than the limit and its last record together: bytes left by a failed write are never
  counted (`FileSink.FailedWriteOvershoots`), and a limit of zero allows no file to be smaller. The exact conditions are
  in `FileSink.ClosedFileSize`.
- A keep count above 2^31 reaches the rename loop as a negative number, and no closed file is kept:
  `FileSink.HugeKeepCountKeepsNoClosedFile`. At exactly 2^31 the loop's first subtraction overflows:
  `FileSink.KeepCountThatOverflows`.
- The comment in `rotateLogs` (`src/system/logger/file_sink2.cxx:30`) numbers rotated files from 1; the code
  numbers them from 0, and so does the model. The comment at the insertion in `SessionData::get`
  (`src/ipc/grpc/session_data.hxx:165`) says a new entry is not touched; the code touches exactly the new one.

The convergence results need a description in some process. Every process that links the library has nine, registered
before it starts (`src/system/property_info.cxx:186-194`); `PropertyMapping.EmptyRegistriesNeverSettle` shows only why the
condition is there.

## Model

| member | source | states |
|---|---|---|
| PropertyRegistry.AddedKeepsValid | src/system/property_info.cxx:67-73 | putting a description under the next free id, in either map, keeps the held ids exactly 0..unique-1 without repeats, keeps everything held, and holds nothing else new |
| PropertyRegistry.RegisterPersistentSafe | src/system/property_info.cxx:47-74 | a persistent registration keeps the registry valid, answers the id of a held description of that name and type, and grows it exactly when the persistent map lacks the name; it throws exactly when that map has the name under another type, whatever the transient map has |
| PropertyRegistry.RegisterPersistentLands | src/system/property_info.cxx:54-73 | the name is then in the persistent map under the answered id, whatever the transient map has: an entry that was there is kept, a new one is as described and under the next id; nothing else in either map changes |
| PropertyRegistry.RegisterPersistentAgain | src/system/property_info.cxx:54-65 | registering a name again answers the same id and changes nothing; under another type it throws |
| PropertyRegistry.PersistentIsFirstRegistered | src/system/property_info.cxx:47-74 | over any registrations of both kinds, the persistent map has a name exactly if it was registered as persistent, with the type and readable name of its first such registration and the id due then |
| PropertyRegistry.AllocateTransientSafe | src/system/property_info.cxx:94-137 | allocation answers a held description of the name and type, grows the registry exactly for unknown names, leaves every other lookup alone, and throws exactly when the name is looked up under another type |
| PropertyRegistry.AllocateTransientLands | src/system/property_info.cxx:99-137 | no persistent entry ever changes; a name known to either map answers with its description there, the persistent first; a new one goes into the transient map as described under the next id |
| PropertyRegistry.VersionDeterminesTable | src/system/property_info.cxx:85-92 | a registry that has grown to a state with the same version holds the same descriptions |
| PropertyRegistry.SnapshotHasVersionManyEntries | src/system/property_info.cxx:161-180 | a snapshot has as many entries as the version returned with it says, and its ids are 0..version-1 |
| PropertyRegistry.RegisteredAllSafe | src/system/property_info.cxx:47-137 | any registrations, refused ones included, keep the registry valid and only grow it |
| PropertyRegistry.OldIdWasHeld | src/system/property_info.cxx:85-92 | of the descriptions held now, those held at an earlier version are exactly those with an id below it |
| PropertyRegistry.Registry.RegisterPersistentProperty | src/system/property_info.cxx:47-74 | an accepted name is in the persistent map under the answered id and type, a new one added there and nowhere else, the transient map unchanged; a conflict changes nothing; validity is kept and the registry only grows |
| PropertyRegistry.Registry.AllocateTransientProperty | src/system/property_info.cxx:94-137 | the persistent map is never changed; a name new to both maps gets the next id and goes into the transient one; a known one answers with its description, the persistent first |
| PropertyRegistry.Registry.LookupProperty | src/system/property_info.cxx:144-159 | null exactly for names in neither map; otherwise the persistent description, or failing that the transient one |
| PropertyRegistry.Registry.RegisterAll | src/system/property_info.cxx:47-137 | registrations made one after the other leave the registry the specification gives, refused ones changing nothing |
| PropertyRegistry.Registry.EnumerateProperties | src/system/property_info.cxx:161-180 | every held description exactly once, in whatever order the two maps have, and the version, which is their number |
| WireProtocol.ValueRoundTrip | src/ipc/grpc/protocol.cxx:107-177 | encode then decode succeeds exactly for a mapped id and a non-empty value, and gives the value back except that boolean bytes other than 0 and 1 are normalised; an empty value is refused with the wrapped index |
| WireProtocol.FieldIsOfType | src/ipc/grpc/protocol.cxx:107-139 | a value travels under its description's id in the field numbered like its type |
| WireProtocol.WireRoundTrip | src/ipc/grpc/protocol.cxx:141-177 | the other direction: under a mapped id every wire property but one without a value decodes, into a value of its field's type that encodes to the same field; a void one into the empty property; under no mapping none does |
| PropertyMapping.ReceiveLearns | src/ipc/grpc/erebus_service.cxx:366-380 | one mapping message throws exactly on a type conflict and then leaves the registry alone; otherwise the registry learns exactly that name and the slot of the sent id holds the receiver's description of it |
| PropertyMapping.ClashLeaves | src/ipc/grpc/erebus_service.cxx:366-380 | a message throws exactly when its name is known under another type; then no registry and no slot changes, the client's table is as it was, and the server's has the message's version and room for its id |
| PropertyMapping.MessageStores | src/ipc/grpc/grpc_client.cxx:714-728 | any other message leaves its version, the receiver's description of its name in the slot of its id, every other slot as it was, and a new name registered as described |
| PropertyMapping.ServerStopsAtClash | src/ipc/grpc/erebus_service.hxx:385-409 | the server's reading ends with the first message that clashes, under its version, as if nothing came after it |
| PropertyMapping.ClientReadsOn | src/ipc/grpc/grpc_client.cxx:337-364 | the client takes in whatever follows a message that clashed |
| PropertyMapping.ThrowsExactlyOnTypeClash | src/ipc/grpc/erebus_service.hxx:385-409 | a whole mapping stream raises an exception exactly when a name in it clashes in type with another or with the receiver's lookup |
| PropertyMapping.StreamIsAbsorbed | src/ipc/grpc/grpc_client.cxx:714-728 | a stream without clashes adds exactly the unknown names, changes no earlier lookup, fills the slot of every sent id with the description of its name and touches no other slot |
| PropertyMapping.SnapshotIsAbsorbed | src/ipc/grpc/grpc_client.cxx:337-364 | the receiver of a peer's whole snapshot translates all of the peer's ids, knows both sides' names, and grows exactly when a name was new |
| PropertyMapping.PutAbsorbs | src/ipc/grpc/erebus_service.hxx:385-409 | a put leaves the client alone, makes the session translate every client id, makes the server accept the client's version unless the client holds nothing, and changes the server only for new names |
| PropertyMapping.GetAbsorbs | src/ipc/grpc/grpc_client.cxx:337-364 | the mirror image for a get, and the client's version moves exactly when the server had a name new to it |
| PropertyMapping.HandshakeConverges | src/ipc/grpc/grpc_client.cxx:648-655 | from any tables and any two registries without type clashes, not both empty, put, get and put in any message orders reach a state where both version checks pass and both tables translate every id; the second put adds nothing to the server |
| PropertyMapping.EmptyRegistriesNeverSettle | src/ipc/grpc/erebus_service.cxx:354-364 | with both registries empty the handshake leaves the server refusing arguments |
| PropertyMapping.SettledPutIsFixed | src/ipc/grpc/erebus_service.cxx:366-380 | after the handshake a further put changes neither registry and keeps the connection settled |
| PropertyMapping.SettledGetIsFixed | src/ipc/grpc/grpc_client.cxx:714-728 | after the handshake a further get changes neither registry and keeps the connection settled |
| PropertyMapping.SecondPutNeededExactlyForNewNames | src/ipc/grpc/erebus_service.cxx:354-364 | after only put and get the server still accepts the client's version exactly when the server had no name unknown to the client |
| PropertyMapping.GetMapsNoFurther | src/ipc/grpc/grpc_client.cxx:714-728 | a whole get maps no id from its version on, unless an earlier, newer message did |
| RemoteCalls.BagTravels | src/ipc/grpc/erebus_service.cxx:74-91 | a bag sent through a complete table decodes exactly when it has no empty property, and then into the same properties on the receiver's descriptions, in order |
| RemoteCalls.RequestArrives | src/ipc/grpc/erebus_service.cxx:202-226 | a request under a valid mapping runs the service on the translated arguments, with its registrations and its answer; one with an empty argument is answered by the decoding exception and runs no service |
| RemoteCalls.AnswerArrives | src/ipc/grpc/erebus_service.cxx:194-218 | the version is stamped before the service runs and the answer built after it has registered what it likes: what is built on older descriptions arrives translated; the caller is told anything exactly when no property is empty and each is mapped; for a client that has read no further than the stamp, those mapped are exactly the older ones |
| RemoteCalls.CallRefinesLocalCall | src/ipc/grpc/erebus_service.cxx:172-230 | over a settled connection a remote call is the service run on the translated arguments, registrations included, with its answer or exception translated back as long as it uses only descriptions older than the call; no version check fails; exactly which answers are swallowed instead |
| RemoteCalls.AnswerUnderNewNameIsSwallowed | src/ipc/grpc/erebus_service.cxx:194-216 | the failing case for every name and value: a service that answers under a name it registers during the call passes the client's version check, fails to decode, and the caller is told nothing |
| RemoteCalls.DecodesExactly | src/ipc/grpc/protocol.cxx:141-177 | through any table, a bag decodes exactly when it has no empty property and every id is mapped |
| RemoteCalls.DecodesToResolved | src/ipc/grpc/protocol.cxx:141-177 | and then into the same values, in order, on the descriptions in the slots of their ids |
| RemoteCalls.FirstFailureDecides | src/ipc/grpc/erebus_service.cxx:74-91 | decoding fails with the error of the first property that does not decode, whatever comes after it |
| RemoteCalls.UndecodableRequestIsAnswered | src/ipc/grpc/erebus_service.cxx:212-226 | a request whose arguments do not decode runs no service and is answered by a failure that carries that error |
| RemoteCalls.ClashStampsSession | src/ipc/grpc/erebus_service.cxx:373-379 | after a message that clashed in type the server accepts exactly that message's version, and arguments decode as they did before |
| RemoteCalls.RefusedExactlyWhenVersionsDiffer | src/ipc/grpc/erebus_service.cxx:205-211 | for any connection, the server refuses exactly calls with arguments under the reserved id or another version, and the client refuses exactly the remaining calls answered under a version it has not read |
| RemoteCalls.OrdinaryIdIsNotRefused | src/ipc/grpc/erebus_service.cxx:196-206 | a client id below 0xFFFFFFFF is never refused for itself: the server refuses exactly arguments under another version |
| RemoteCalls.NothingReadNothingAccepted | src/ipc/grpc/grpc_client.cxx:648-655 | a client that has read nothing accepts no answer of a server with fewer than 2^32 - 1 descriptions; a server to which nothing was put accepts no arguments |
| RemoteCalls.ThereAndBack | src/ipc/grpc/grpc_client.cxx:700-712 | translating a bag to the peer and back gives the same names, types and values on the sender's own descriptions |
| RemoteCalls.EchoRoundTrip | src/ipc/grpc/grpc_client.cxx:142-158 | a service that returns its arguments gives back the same length, order, types and values on the client's registered descriptions, exactly for bags without empty properties |
| RemoteCalls.ThrownPropertiesRoundTrip | src/ipc/grpc/erebus_service.cxx:119-143 | properties thrown by the service arrive unchanged with its exception and message, an empty message under the fixed text |
| RemoteCalls.VersionCheckPassesBeforeTableIsComplete | src/ipc/grpc/erebus_service.cxx:373-379 | during a session's first put the version check passes from the first message on, while every id of the snapshot resolves only after the last |
| MappingRuns.StepKeepsInv | src/ipc/grpc/erebus_service.cxx:341-380 | any registration, stream start, single message, session touch or drop keeps every table sound, every stream a snapshot of its sender, and every stream's progress recorded in the table it fills; registries only grow |
| MappingRuns.StartInv | src/ipc/grpc/grpc_client.cxx:798-803 | the invariant holds when nothing is registered and nobody is connected |
| MappingRuns.Execute | src/ipc/grpc/erebus_service.cxx:341-380 | the invariant holds after every run, and every registry has only grown |
| MappingRuns.SlotsAreSound | src/ipc/grpc/erebus_service.cxx:341-352 | after any run, every non-null slot i of a session's table has the name and type of the client's description with id i, and the client's table mirrors this |
| MappingRuns.VersionIdentifiesTable | src/system/property_info.cxx:85-92 | two points of a run at which a process shows the same version have the same descriptions |
| MappingRuns.ArgumentNeverMistaken | src/ipc/grpc/protocol.cxx:141-177 | an argument encoded at any time decodes at any later time, whatever happened in between, to the sent name, type and value on a description the server holds, or decoding fails |
| MappingRuns.ReplyNeverMistaken | src/ipc/grpc/grpc_client.cxx:512-523 | the same for a server property read through the client's table |
| MappingRuns.SameVersionSameStream | src/ipc/grpc/grpc_client.cxx:419-431 | two mapping streams of a client stamped with the same version carry the same descriptions |
| MappingRuns.DecodingIsComplete | src/ipc/grpc/erebus_service.cxx:205-215 | once a put of the request's version or a newer one was received in full by the session that decodes it, every argument resolves; the only decoding failure left is an empty property |
| MappingRuns.SlotFilledExactlyWhenPut | src/ipc/grpc/erebus_service.cxx:366-380 | in every world of a run the slot of an id is filled in a session exactly when a put has delivered a message for it into that very session, drops and re-creations included |
| MappingRuns.DecodesExactlyWhatWasPut | src/ipc/grpc/erebus_service.cxx:202-214 | the exact condition, through any partial puts and session drops: arguments encoded earlier decode, into what was sent, exactly when none is empty and a put has delivered a message for each id into the present session |
| MappingRuns.ReplyDecodingIsComplete | src/ipc/grpc/grpc_client.cxx:700-712 | the same for properties built at a version that a get read to its end without an exception covers |
| MappingRuns.StampedReplyDecodes | src/ipc/grpc/erebus_service.cxx:194-218 | a reply stamped in one world of a run, built in a later one and read in a still later one, by a client that has read a get of the stamped version or a newer one, decodes exactly when it has no empty property and each is older than the stamp or mapped by a newer get; without a newer get, exactly when each is older than the stamp; and what the caller is told then |
| MappingRuns.UninterruptedPut | src/ipc/grpc/erebus_service.hxx:385-417 | a put without a clash whose remaining messages arrive with nothing in between ends fully received, with the session and registry the whole-stream specification gives |
| MappingRuns.UninterruptedGet | src/ipc/grpc/grpc_client.cxx:337-364 | the same for a get, which ends read without an exception |
| MappingRuns.PutDiesExactlyOnClash | src/ipc/grpc/erebus_service.hxx:385-417 | a put ends at a message exactly when the server knows its name under another type, its registry then unchanged; the session is under the put's version either way, and otherwise has a description of the name for the id |
| MappingRuns.DeadPutsStayDead | src/ipc/grpc/erebus_service.hxx:385-417 | a put that has ended delivers nothing more in any later world |
| MappingRuns.GetReadsOn | src/ipc/grpc/grpc_client.cxx:337-364 | a get reads on whatever clashes and is marked exactly by a clash, which leaves the client's table alone; another message is stored under the get's version |
| MappingRuns.StreamsStartWhole | src/ipc/grpc/erebus_service.hxx:293-309 | a stream starts with every description of the sender to come, each once, under the sender's version at that time |
| MappingRuns.RegistrationTakesEffect | src/system/property_info.cxx:47-137 | a registration makes its name known to its process, and no other name |
| MappingRuns.SessionsChangeOnlyBy | src/ipc/grpc/erebus_service.cxx:340-364 | a session changes only by a put message of its own client, comes empty, and goes only by expiring |
| MappingRuns.StreamsChangeOnlyBy | src/ipc/grpc/erebus_service.hxx:385-417 | a stream changes only by a delivery of its own |
| MappingRuns.ExpiredSessionIsForgotten | src/ipc/grpc/session_data.hxx:125-152 | a client whose session has expired gets an empty one, against which every request with arguments is refused |
| CallRuns.CallNeverMistaken | src/ipc/grpc/erebus_service.cxx:194-218 | with request, decoding, answer and completion at four points of a run and anything in between, registrations by anyone included: arguments that decode are the sent ones, and a bag or exception the caller is handed is the answer, same names, types, values and order; all else is a refusal or a failure to decode |
| CallRuns.ServedCallNeverMistaken | src/ipc/grpc/grpc_client.cxx:612-674 | the same for the specified handling of a request, the service's own registrations being steps of the run: a bag the caller gets is the service's answer to what the caller sent |
| RegistryGrowth.GrowthIsBounded | src/system/property_info.cxx:94-137 | in any run in which nobody registers anything, whatever the puts, gets and drops, a registry and its version grow by at most the number of names it was missing at the start, by all of them exactly when it ends up knowing all, and no new name appears anywhere |
| ManyClients.PutRoundAbsorbs | src/ipc/grpc/erebus_service.cxx:366-380 | after any number of clients have put in turn, the server translates each one's ids and accepts its version, and has changed only if a name was new |
| ManyClients.GetRoundAbsorbs | src/ipc/grpc/grpc_client.cxx:714-728 | after they have all got, each client translates the server's ids, accepts its version and knows exactly its names |
| ManyClients.AllClientsSettle | src/ipc/grpc/grpc_client.cxx:648-655 | a round of puts, a round of gets and a round of puts settle all connections at once, from any tables and any registries that agree on types and are not all empty |
| ServerSide.ErebusService.GetSession | src/ipc/grpc/erebus_service.cxx:343-346 | looking a session up creates an empty one when it is missing and changes no other |
| ServerSide.ErebusService.RegisterService | src/ipc/grpc/erebus_service.cxx:300-312 | registered exactly when the address was free, and a taken address keeps its service |
| ServerSide.ErebusService.MapProperty | src/ipc/grpc/erebus_service.cxx:341-352 | answers the slot of the session's table and changes no table |
| ServerSide.ErebusService.PropertyMappingValid | src/ipc/grpc/erebus_service.cxx:354-364 | valid exactly for a non-empty table stamped with the asked version; an empty table reports the reserved version |
| ServerSide.ErebusService.RegisterPropertyMapping | src/ipc/grpc/erebus_service.cxx:366-380 | the session has the message's version and room for its id, also when the name clashes in type and allocation throws, which leaves the registry and every slot alone; otherwise the slot of the id holds the description of the name; other slots and sessions are untouched |
| ServerSide.ErebusService.ReadPutStream | src/ipc/grpc/erebus_service.hxx:385-417 | reading message by message gives the registry and session of the whole stream, which an exception cuts short |
| ServerSide.ErebusService.UnmarshalArgs | src/ipc/grpc/erebus_service.cxx:74-91 | decodes all arguments in order through the session's table or raises the first failure; no table changes |
| ServerSide.ErebusService.MarshalReplyProps | src/ipc/grpc/erebus_service.cxx:93-104 | one wire property for each property, in order, under its description's id |
| ServerSide.ErebusService.GenericCall | src/ipc/grpc/erebus_service.cxx:172-230 | unimplemented exactly for unknown addresses; otherwise the reply and the registry the specification of a call gives, the version being read before the service runs and registers, and exceptions of the program and standard ones answered differently; no table is changed |
| ServerSide.ErebusService.RunService | src/ipc/grpc/erebus_service.cxx:214-215 | what the service registers is registered in the server, and its answer is built on the registry after that |
| ClientSide.ClientImpl.MapProperty | src/ipc/grpc/grpc_client.cxx:512-523 | answers the slot of the client's table, null beyond its end |
| ClientSide.ClientImpl.PutPropertyMapping | src/ipc/grpc/grpc_client.cxx:714-728 | an exception leaves table, version and registry alone; otherwise the table has the message's version and the slot of its id the description of its name, and every other slot is as it was |
| ClientSide.ClientImpl.ReadGetStream | src/ipc/grpc/grpc_client.cxx:337-364 | reading message by message gives the registry and table of the whole stream; exceptions are logged and reading goes on |
| ClientSide.ClientImpl.MakeCall | src/ipc/grpc/grpc_client.cxx:142-158 | the request carries the client's id, its registry version now, and every argument in order |
| ClientSide.ClientImpl.Unmarshal | src/ipc/grpc/grpc_client.cxx:700-712 | decodes all properties in order through the client's table or raises the first failure |
| ClientSide.ClientImpl.CompleteCall | src/ipc/grpc/grpc_client.cxx:612-674 | the callback is the one the specification of a call gives; an answer is delivered only for a successful reply under the version the client last read |
| ClientSide.Handshake | src/ipc/grpc/grpc_client.cxx:412-442 | put, get and put through the two objects, in two processes or sharing one registry, leave the connection settled and other clients' sessions as they were |
| ClientSide.RoundTrip | src/ipc/grpc/erebus_service.cxx:172-230 | a call through the two objects gives the outcome of the specified call, and one to an unknown address a transport error; both tables are unchanged, and the server's registry has only what the service registered |
| MappingStreams.PutThrough | src/ipc/grpc/erebus_service.hxx:385-417 | the client's writer and the server's reader together, message by message: the server's registry and session are those of the specified put, for some order of the client's descriptions |
| MappingStreams.GetThrough | src/ipc/grpc/grpc_client.cxx:337-364 | the server's writer and the client's reader together: the client's registry and table are those of the specified get |
| SessionCache.StepKeepsInv | src/ipc/grpc/session_data.hxx:91-167 | every step of every thread keeps the locks exclusive, each count 1 exactly for an entry one thread has locked and 0 otherwise, times in the past, and the sweep off the requested key |
| SessionCache.RefusedOnlyByCaller | src/ipc/grpc/session_data.hxx:104-106 | a thread finds an entry locked only when a caller holds it; the sweep's own guards are never met |
| SessionCache.RefusedExactlyWhenHeld | src/ipc/grpc/session_data.hxx:93-106 | a get, on the fast or the slow path, is refused exactly when some caller holds the session |
| SessionCache.OverlappingGetIsRefused | src/ipc/grpc/session_data.hxx:108-117 | whenever one caller holds a session and the exclusive lock is free, another's get of it goes through the fast path to an empty reference, having changed nothing |
| SessionCache.StepRefines | src/ipc/grpc/session_data.hxx:91-167 | every step is an allowed event of the plain map or invisible there: only the holder writes, only a held session is refused, only an unheld one unused for longer than the threshold expires |
| SessionCache.RunRefinesPlainMap | src/ipc/grpc/session_data.hxx:91-167 | any schedule of gets, releases and sweeps is a run of the plain map, and a session's data is what its last holder left |
| SessionCache.MutualExclusion | src/ipc/grpc/session_data.hxx:91-106 | in every reachable state counts are 0 or 1, no two callers hold one session, and a held session has not been erased |
| SessionCache.FreshSessionSurvives | src/ipc/grpc/session_data.hxx:125-152 | until more than the threshold has passed since it was touched a session stays, whatever else goes on, with the data last written to it |
| SessionCache.ReferencesAreHeld | src/ipc/grpc/session_data.hxx:35-42 | in every state of the invariant a reference points to an entry in the cache that is locked for its thread, save only the sweep's guard on an entry it has just erased |
| SessionCache.GivenBackIsFreshAndFree | src/ipc/grpc/session_data.hxx:35-42 | a session that its holder gives back keeps its data, is free, and counts as used at the moment the holder let go |
| SessionCache.LastCheckAdvances | src/ipc/grpc/session_data.hxx:125-152 | over any run the recorded time of the last stale check never goes back, is no earlier than any sweep of the run began, and every sweep under way was due |
| SessionCache.SweepsAreSpaced | src/ipc/grpc/session_data.hxx:125-152 | in any run from the start, when a sweep has ended, every sweep seen later began more than the threshold after it |
| SessionCache.SweepsWheneverDue | src/ipc/grpc/session_data.hxx:125-127 | and none is skipped: a call with the exclusive lock sweeps exactly when that time has passed, and then over every other entry |
| SessionSweep.SessionData.Lock | src/ipc/grpc/session_data.hxx:93-106 | granted exactly to the first comer, who gets the entry touched; a refused caller changes nothing |
| SessionSweep.SessionData.Sweep | src/ipc/grpc/session_data.hxx:125-152 | drops exactly the unlocked entries, other than the requested one, unused for more than the threshold, and freshens the unlocked ones it keeps |
| SessionSweep.SessionData.Get | src/ipc/grpc/session_data.hxx:91-167 | refused exactly when the session exists and is held; afterwards it exists with its data; of the others exactly those free and unused for more than the threshold go, and the free ones kept count as used, only when a stale check is due, which needs a missing session and is then recorded |
| SessionSweep.UndisturbedCallIsGet | src/ipc/grpc/session_data.hxx:91-167 | the interleaved call of a thread that no other disturbs, its sweep in any order and any time passing while it waits for the lock, is granted and leaves the entries exactly as the uninterrupted call, and records a stale check at its own time exactly when the session was missing and the check due |
| SessionSweep.UndisturbedCallLeaves | src/ipc/grpc/session_data.hxx:91-167 | session by session: which others such a call erases, which it counts as used and when, and that it changes nothing else of them; the requested one is held with its own data, or blank |
| SweepGuards.GuardOutlivesEntryExactlyForStaleSessions | src/ipc/grpc/session_data.hxx:125-152 | an undisturbed call writes through its guard to an erased entry exactly when, before the call, the requested session was missing, the stale check was due, and some unlocked session had been unused for more than the threshold |
| SweepGuards.CallCanReturn | src/ipc/grpc/session_data.hxx:91-167 | from every state with both locks free there is a call that goes through, whatever has to be swept |
| SweepGuards.StaleSessionLeadsToWrite | src/ipc/grpc/session_data.hxx:137-142 | from every state with both locks free and these three conditions a run leads to the write |
| SweepGuards.WriteIsReachable | src/ipc/grpc/session_data.hxx:137-142 | from every start state a run of one thread, which uses one session, waits and asks for another, ends with a guard about to write to the entry it has erased |
| FileSink.DecimalInjective | src/system/logger/file_sink2.cxx:35 | different numbers print differently, so rotated names are distinct |
| FileSink.NumberedInjective | src/system/logger/file_sink2.cxx:35-44 | the log and its rotated files all have different names |
| FileSink.DecimalReadsBack | src/system/logger/file_sink2.cxx:35 | a number prints as digits without a leading zero that read back as the number |
| FileSink.NumberedNames | src/system/logger/file_sink2.cxx:35-44 | a rotated file is called like the log with a dot and a number, which the name gives back; the newest is number 0 |
| FileSink.RotateLogs | src/system/logger/file_sink2.cxx:28-50 | for any keep count the loop is a simultaneous shift: each file, or its absence, moves to the next name, the oldest is dropped, the log's name is free, and every other file is unchanged |
| FileSink.RotationKeepsDescription | src/system/logger/file_sink2.cxx:118-123 | after a rotation and a fresh log, the i-th rotated name holds the i-th last closed file or the pre-existing file that many places back, and files outside the chain are as they were |
| FileSink.StartIsDescribed | src/system/logger/file_sink2.cxx:62-70 | the first rotation moves the previous run's log into the chain |
| FileSink.AppendKeepsDescription | src/system/logger/file_sink2.cxx:86-114 | bytes appended to the log change no other file of the chain |
| FileSink.ChainIsSuffix | src/system/logger/file_sink2.cxx:28-50 | at any time the files from oldest to newest concatenate to a suffix of the pre-existing chain followed by every byte written, split exactly between what is left of the old chain and the retained new bytes |
| FileSink.RetainsEnough | src/system/logger/file_sink2.cxx:116-123 | either every new byte is retained or at least the keep count times the maximum size |
| FileSink.ClosedFileSize | src/system/logger/file_sink2.cxx:116-123 | a closed file has at least the maximum size; what is counted of it is less than that plus its last record exactly when the maximum is not zero, and the file itself exactly when the counted bytes and those of failed writes before the last record fall short of the maximum |
| FileSink.ClosedFileSizeWithoutFailures | src/system/logger/file_sink2.cxx:116-123 | without failed writes only a zero maximum breaks the bound, and then each file is its one record |
| FileSink.FailedWriteOvershoots | src/system/logger/file_sink2.cxx:90-97 | a file that breaks the bound at any other maximum: a failed write left as much as the maximum, uncounted, before the record that closed it |
| FileSink.HugeKeepCountKeepsNoClosedFile | src/system/logger/file_sink2.cxx:62-70 | a keep count above 2^31 retains only the file being written |
| FileSink.KeepCountThatOverflows | src/system/logger/file_sink2.cxx:33 | the loop's first index leaves the range of its type exactly for a keep count of 2^31, for which the program's behaviour is undefined |
| FileSink.RecordIsNewBytes | src/system/logger/file_sink2.cxx:72-124 | a written record extends the bytes written by exactly itself, whether or not it closes its file |
| FileSink.Sink.constructor | src/system/logger/file_sink2.cxx:62-70 | a new sink starts with the pre-existing files one place back and an empty log, and rotates by exactly the given keep count if that is below 2^31, by a negative one otherwise |
| FileSink.Sink.Write | src/system/logger/file_sink2.cxx:72-124 | over any interruptions and short writes a record is written whole into one file, which is closed exactly when it has reached the maximum; it fails exactly when a system call does before the record is out, and then what had been written by then is left, uncounted; the chain stays described and files stay bounded |
| FileSink.Sink.WriteOne | src/system/logger/file_sink2.cxx:72-124 | of a record all reaches the log, nothing if it is filtered out, and, if a system call fails before it is out, exactly what was written by then |
| FileSink.Sink.WriteAll | src/system/logger/file_sink2.cxx:72-124 | over any records the files from oldest to newest are a suffix of what was there before and everything that reached the log, and retain all of it or the keep count times the maximum size |
| FileSink.SinkLife | src/system/logger/file_sink2.cxx:28-124 | from construction on: with a keep count k below 2^31 the i-th last closed file is under name.i for every i below k, then come the files from before, and the chain name.(k-1) to the log is a suffix of the old chain and everything written, of which it holds all or at least k times the maximum; a larger count acts as zero |
| AsyncLogger.StepKeepsInv | src/system/logger/async_logger2.cxx:131-177 | every step of writers, flushers and worker keeps: delivered, given up, in the batch and queued are exactly what was accepted, in order; items are given up only at a stop |
| AsyncLogger.RunKeepsInv | src/system/logger/async_logger2.cxx:131-177 | the same over whole runs, and what was accepted is what the writers and flushers queued in lock order, null and low-level records excluded |
| AsyncLogger.DeliversInOrder | src/system/logger/async_logger2.cxx:48-86 | until a stop delivered items, batch and queue are what was queued, in order; after it the delivered items are still a prefix, at most one of them delivered after the request |
| AsyncLogger.FlushedItemsLeftTheQueue | src/system/logger/async_logger2.cxx:88-106 | after a flush that returned without a stop, its marker and everything queued before it have left the queue for good, and without a later stop nothing of it was given up |
| AsyncLogger.FlushedMeansDeliveredExactlyPastMarker | src/system/logger/async_logger2.cxx:162-177 | over any run a flush's marker and all before it are delivered exactly when the worker has made more deliveries than there were items queued ahead of the marker |
| AsyncLogger.FlushMayReturnBeforeDelivery | src/system/logger/async_logger2.cxx:99-105 | a concrete run in which a flush returns before the record ahead of its marker is delivered |
| AsyncLogger.StoppedWorkerExits | src/system/logger/async_logger2.cxx:131-177 | after a stop request the worker takes at most four steps, whatever is queued meanwhile, and has then exited |
| AsyncLogger.StoppedWorkerCanGoOn | src/system/logger/async_logger2.cxx:131-160 | until it has exited a stopped worker always has a step to take |
| AsyncLogger.LevelDecides | src/system/logger/async_logger2.cxx:48-76 | a record is queued exactly when there is one and its level is not below the logger's |
| FlushGuarantee.RunDeliversAtLeast | src/system/logger/async_logger2.cxx:131-160 | every run without a stop delivers at least what the callers' own calls make certain |
| FlushGuarantee.LaziestRun | src/system/logger/async_logger2.cxx:131-160 | for every run without a stop there is one with the same calls in the same order that delivers no more than that |
| FlushGuarantee.DeliveredAfterSecondReturn | src/system/logger/async_logger2.cxx:99-105 | the item a call queued is certain to be delivered exactly when after that call some flush returned, then anything was queued, then some flush returned again |
| FlushGuarantee.CertainExactly | src/system/logger/async_logger2.cxx:88-177 | all runs that look the same to the callers have delivered the first n items exactly when n is at most the certain number |
| FlushGuarantee.FlushGuaranteesExactlyAfterSecondReturn | src/system/logger/async_logger2.cxx:88-106 | when a flush can be relied on: its marker is delivered in every run that looks the same to the callers exactly when some flush has returned after it, then anything was queued, and then some flush has returned again |
| FlushGuarantee.SecondFlushDelivers | src/system/logger/async_logger2.cxx:88-106 | if a flush has returned before another is called and the other returns, the first one's marker is delivered, and stays so whatever follows, a stop included |
| PropertyStorage.CopyKeepsCounts | src/system/property.cxx:22-32 | a copied object on a payload whose count is raised keeps every count equal to the number of objects pointing at it |
| PropertyStorage.RemovalKeepsCounts | src/system/property.cxx:8-20 | dropping an object and one reference keeps counts exact, frees the payload exactly with its last object, and leaves every other object's worth alone |
| PropertyStorage.SwapKeepsCounts | include/erebus/system/property.hxx:121-125 | exchanging two objects, also an object with itself, keeps every count |
| PropertyStorage.Store.Release | include/erebus/system/property.hxx:323-330 | the last reference frees the payload, any other only lowers the count |
| PropertyStorage.Store.CopyOf | include/erebus/system/property.hxx:127-132 | a copy is worth its source, shares its payload, and changes nothing else |
| PropertyStorage.Store.Destroy | include/erebus/system/property.hxx:21-25 | destroying an object changes no other object's worth and keeps counts exact |
| PropertyStorage.Store.MoveOf | include/erebus/system/property.hxx:141-145 | the new object is worth what the source was, the source is of the empty type, and every other object keeps its worth |
| PropertyStorage.Store.CopyAssign | include/erebus/system/property.hxx:134-139 | the target becomes worth the source, every other object keeps its worth, and the old payload is released; self-assignment changes nothing |
| PropertyStorage.Store.MoveAssign | include/erebus/system/property.hxx:147-152 | the target becomes worth what the source was, the source is of the empty type unless it is the target, and every other object keeps its worth |
| PropertyStorage.Store.Run | include/erebus/system/property.hxx:121-152 | over any sequence of constructions, copies, moves, assignments, swaps and destructions counts stay exact, and every object is worth what an unshared value would be |
| PropertyStorage.OnlyTouchedChange | include/erebus/system/property.hxx:121-152 | an operation changes the worth of nothing but what it makes, assigns, empties, swaps or destroys |
| PropertyStorage.CopiesAreWorthTheSource | include/erebus/system/property.hxx:127-139 | a copy, constructed or assigned, is worth its source, which keeps its worth; assigning to itself is nothing |
| PropertyStorage.MovesLeaveEmpty | include/erebus/system/property.hxx:141-152 | a move, constructed or assigned, hands over the worth and leaves an empty property; moving to itself is nothing |
| PropertyStorage.UndoneOperations | include/erebus/system/property.hxx:121-125 | swapping twice is nothing; a property is made with the worth asked for, and destroying it undoes that |
| PropertyStorage.UntouchedKeepsWorth | include/erebus/system/property.hxx:121-152 | over any run a property to which nothing is done by name keeps its worth, whatever happens to copies that share its payload |
| PropertyStorage.StorageFromStringOn | include/erebus/system/property.hxx:252-255 | payloads are for the types from String on, which are exactly those of text and binary values |
| PropertyStorage.Store.Equal | src/system/property.cxx:34-70 | equal exactly for the same type and the same bits or the same contents, whatever the descriptions and however payloads are shared |
| PropertyStorage.Store.NothingLeaks | include/erebus/system/property.hxx:323-330 | a payload exists exactly while some object points at it; none is left when all objects are gone |
| PackedWord.PackedPartsRecovered | include/erebus/system/property.hxx:379-406 | for every type of four bits, type and address are recovered from the word exactly when the address is a multiple of 16 |
| PackedWord.PackedWordDeterminesParts | include/erebus/system/property.hxx:388-406 | packed words of aligned descriptions are equal exactly when type and description are |
| PackedWord.WordEqualityIsValueEquality | src/system/property.cxx:44-51 | comparing tags and whole storage words is comparing type and stored bits, for every value kept in the object |
| PackedWord.TagIsIndex | include/erebus/system/property_info.hxx:14-27 | a type's tag in the word is its place in the tables of the wire protocol |
| StreamReactors.FramesAreFirstItems | src/ipc/grpc/erebus_service.hxx:226-269 | success frames are the first items, up to the first empty bag or exception, a failed write, or one not answered yet |
| StreamReactors.TurnsAreDisciplined | src/ipc/grpc/erebus_service.hxx:203-269 | one write at a time, at most one terminal operation and nothing after it; it is a cancellation exactly after a failed write; frames carry the items in order; what else ends a stream is in `StreamEndings` |
| StreamReactors.StreamIsDisciplined | src/ipc/grpc/erebus_service.cxx:232-280 | the same for the whole request, including every way of refusing it before the first item |
| StreamEndings.ThrownNextIsSent | src/ipc/grpc/erebus_service.hxx:254-263 | when the service throws for its n-th item and all earlier writes succeed, exactly n+1 replies are on the wire, the last a failure under the stream's version with the exception's text, the fixed one if it is empty, and its properties |
| StreamEndings.ThrownEndIsSent | src/ipc/grpc/erebus_service.hxx:236-263 | an exception from ending the stream is sent in the same way, after all the items and without properties |
| StreamEndings.EndIsFinished | src/ipc/grpc/erebus_service.hxx:235-242 | when the items end and ending does not throw the last operation is a good finish, and nothing but the items is on the wire |
| StreamEndings.FinishedExactlyAtTheEnd | src/ipc/grpc/erebus_service.hxx:203-269 | a stream is finished as good exactly when every item was written, there is no more, and ending it does not throw |
| StreamEndings.EndingIsTold | src/ipc/grpc/grpc_client.cxx:252-276 | a client that has read the stream's version is told the items that decode and last, if the service threw, the exception with its text and decoded properties, or nothing if one of those is empty or unmapped |
| StreamEndings.ExceptionArrivesTranslated | src/ipc/grpc/grpc_client.cxx:252-276 | over a settled connection those properties are the service's, translated |
| StreamEndings.UnknownStreamIsUnimplemented | src/ipc/grpc/erebus_service.cxx:241-248 | a request for a stream nobody serves is finished as unimplemented with nothing on the wire |
| StreamEndings.ExpiredStreamIsTold | src/ipc/grpc/erebus_service.cxx:258-264 | without a valid mapping for the arguments the client is told that the server's mapping has expired, whatever it has read and whatever the service would do |
| StreamEndings.UndecodableStreamIsInternal | src/ipc/grpc/erebus_service.cxx:265-279 | arguments that do not decode finish the stream as an internal error with nothing on the wire |
| StreamEndings.ThrownBeginIsTold | src/ipc/grpc/erebus_service.hxx:182-196 | a service that throws when begun has its exception as the only reply, of which the client is told as of any other |
| StreamEndings.GoodRequestStartsStream | src/ipc/grpc/erebus_service.cxx:265-270 | in all other cases the stream is the service's |
| StreamReader.StreamCarriesItems | src/ipc/grpc/erebus_service.cxx:232-280 | a stream puts its producer's first items on the wire, in order, all under the version read when it was begun, and then at most one reply that is not a frame |
| StreamReader.EveryItemHeardExactly | src/ipc/grpc/grpc_client.cxx:263-276 | no item is lost on the way to the handler exactly when none has an empty property or an unmapped id |
| StreamReader.HeardItemIsResolved | src/ipc/grpc/grpc_client.cxx:263-276 | an item is handed over with its values on the descriptions the client's table has for its ids, or not at all |
| StreamReader.ItemsAreHeardInOrder | src/ipc/grpc/grpc_client.cxx:209-277 | of whatever part of a stream arrives, cancelled or not, a client that has read its version hands over the items that decode, in order, and then tells at most one thing more, which is no frame |
| StreamReader.StreamArrivesTranslated | src/ipc/grpc/grpc_client.cxx:209-277 | over a settled connection, while the server may go on registering: of the m items that arrive the handler is handed those that decode, in order; all m exactly when none has an empty property and each is mapped, which for a client that has read no further means built on descriptions older than the stream; then they are the items 0..m-1, translated |
| StreamReader.ExpiredOncePerReply | src/ipc/grpc/grpc_client.cxx:243-250 | a client that has read another version is told so by each reply that arrives, and of nothing else |
| StreamReader.ExpiredTwiceExactlyForSeveralReplies | src/ipc/grpc/grpc_client.cxx:243-250 | such a client can be told more than once exactly when the service has a first item, the write of its frame succeeds, and the service then has a second item or throws |
| StreamReader.ServiceReplyStreamReader.OnReadDone | src/ipc/grpc/grpc_client.cxx:209-277 | the handler is told exactly what the specification gives for the reply; the stream is cancelled by everything but a frame it accepts or one that does not decode; reading goes on until the stream ends |
| StreamReader.ServiceReplyStreamReader.OnDone | src/ipc/grpc/grpc_client.cxx:279-306 | a status other than OK is one thing more to tell; then, always, the handler is told that the call is done |
| StreamReader.ServiceReplyStreamReader.ReadAll | src/ipc/grpc/grpc_client.cxx:209-306 | over a whole stream the handler is told what the specification gives for the replies in order, and then of a failed status |
| StreamReactors.TurnsExtend | src/ipc/grpc/erebus_service.hxx:203-211 | each answer to the outstanding write extends the stream by exactly one operation |
| StreamReactors.ReplyStreamWriteReactor.Begin | src/ipc/grpc/erebus_service.hxx:170-201 | a begun stream is on its specification; an exception in begin is the only thing sent, as a failure under the stream's version with its properties |
| StreamReactors.ReplyStreamWriteReactor.OnWriteDone | src/ipc/grpc/erebus_service.hxx:203-211 | the reactor stays on its specification after every answer, and finishes as cancelled on a failed one |
| StreamReactors.ReplyStreamWriteReactor.Continue | src/ipc/grpc/erebus_service.hxx:226-269 | asks for the next item once: an item is written as a success, an exception from it or from ending the stream is sent as a failure with its text and properties and ends it, and no more items finish it as good; a write is outstanding exactly after an item |
| StreamReactors.SnapshotWriter.constructor | src/ipc/grpc/erebus_service.hxx:293-309 | takes the whole snapshot and its version before the first write; an empty one completes at once |
| StreamReactors.SnapshotWriter.OnWriteDone | src/ipc/grpc/grpc_client.cxx:434-442 | what was sent is always the stamped beginning of the snapshot; a failed write ends the stream on the server and abandons it on the client |
| StreamReactors.SnapshotWriter.WriteAll | src/ipc/grpc/grpc_client.cxx:474-499 | when all writes succeed the stream sends each description of the snapshot once, all under its version, and ends |
| StreamReactors.CompletedStreamCarriesVersion | src/ipc/grpc/erebus_service.hxx:334-357 | a completed mapping stream has as many messages as its version and carries every id below it |
| StreamReactors.StampedKeepsInfos | src/ipc/grpc/erebus_service.hxx:334-357 | each message is the whole description at its place in the snapshot, with the snapshot's version |
| InstanceIds.IdTable.AllocateInstanceId | include/erebus/system/util/thread_data.hxx:65-89 | the id is the least one not live; the table's length stays the largest number of instances that were live at once |
| InstanceIds.IdTable.ReleaseInstanceId | include/erebus/system/util/thread_data.hxx:91-96 | exactly that id becomes free, and the table keeps its length |
| Flags.TextRoundTrip | include/erebus/system/flags.hxx:130-143 | parsing a pack's text gives the pack back, for every width |
| Flags.ParsedTextIsPadded | include/erebus/system/flags.hxx:52-72 | the text of a parsed text is that text zero-padded with every character but '1' read as '0'; of a longer text only the last characters count |
| Flags.TextWritesNumber | include/erebus/system/flags.hxx:52-72 | the flags of a text are those of the number it writes down in binary |
| Flags.PackedIsSumOfPowers | include/erebus/system/flags.hxx:145-155 | packing is the sum of the powers of two of the set flags |
| Flags.PackRoundTrip | include/erebus/system/flags.hxx:33-43 | building from the packed number gives the pack back, and the number fits the width |
| Flags.UnpackedNumber | include/erebus/system/flags.hxx:33-43 | packing a pack built from a number that fits gives the number back |
| Flags.FlagsPack.FromText | include/erebus/system/flags.hxx:52-72 | the constructor's loop sets exactly the flags the text denotes, counting from its end |
| Flags.FlagsPack.ToString | include/erebus/system/flags.hxx:130-143 | the loop writes the highest flag first, and its text parses back to the pack |
| TypeIds.RunKeepsIndices | src/system/type_id.cxx:25-49 | over any interleaving of lookups and insertions indices stay distinct and an entry's index never changes |
| TypeIds.SameNameSameIndex | src/system/type_id.cxx:25-49 | two threads answered at any two points of a run get the same index exactly for the same name |
| TypeIds.AnswersTheName | src/system/type_id.cxx:25-49 | a thread is answered with the index of the name it asked for, a new name with the next id; no other thread is affected |
| TypeIds.EveryInsertionTakesAnId | src/system/type_id.cxx:37-38 | over any run the id counter advances by one for each insertion, also one that finds the name already there, and for nothing else |

## Left out

- The transport: channels, credentials, deadlines, cancellation, `Ping`, and status texts. What is kept is that a
  started read or write is answered at most once and that a terminal operation has no successor.
- Finishing a put stream: the server finishes every one as cancelled, also a complete one, and that status is not modelled.
- Wrap-around of the 32-bit id counter and of versions: ids and versions are unbounded.
- Client ids are taken to be distinct between clients; two client processes that count from zero share sessions.
- ServerSide.ErebusService.GetSession: does not model a session held by another thread, for which the program asserts
  and, without assertions, uses an empty reference; `SessionCache.RefusedExactlyWhenHeld` says when that happens.
- ServerSide.ErebusService.GenericCall: the service registers and answers in one step; other threads' registrations while
  it runs are in `CallRuns`.
- ServerSide.ErebusService.RegisterService: unregistering a service is not modelled.
- PropertyRegistry.Registry.RegisterPersistentProperty: publication of the id to the static description is one step
  with the registration, and registration during static construction is not interleaved with readers.
- Type numbers arriving in a mapping message are taken to be valid types.
- Debug assertions are not modelled; where one would stop the program, the model shows what happens without it.
- SessionSweep.SessionData.Get: one call without interleaving; the interleaved call is `SessionCache`, where the destructor of
  the guard on an erased entry is a step. What its write to freed memory destroys is not modelled.
- FileSink.RotateLogs: a rename fails only for a missing file; directories, permissions and other processes are not modelled.
- FileSink.Sink.constructor: does not describe a keep count of exactly 2^31, for which the program's subtraction overflows; the
  model computes the index without a bound and skips the loop.
- FileSink.Sink.Write: opening the new log does not fail, and the formatter and the filter are parameters.
- Syncing the log file to the disk, and the Windows branches.
- AsyncLogger.DeliversInOrder: notifications and the time threshold are not modelled, threads may wake at any time; that a
  flush returns at all is not claimed. `FlushGuarantee` is about runs without a stop request. Indentation, component names and changes to the set of sinks are left out.
- StreamReactors.StreamIsDisciplined: does not say how often `endStream` is called; it is not called exactly once. What
  `beginStream` does with the arguments is part of the given producer, whose exceptions are the program's own.
- StreamReader.StreamArrivesTranslated: the client's table stays as it is while the stream is read; the reader itself uses
  whatever table there is at each reply.
- ManyClients.AllClientsSettle: each client has a process of its own, and each transfer is complete before the next begins;
  `MappingRuns` interleaves them, and `ClientSide.Handshake` covers a client in the server's process.
- PropertyStorage.Store.Run: one operation at a time; the counts are atomic in the program.
- Doubles are bit patterns and texts are bytes: no floating-point comparison, no encoding.
- InstanceIds.IdTable.ReleaseInstanceId: only the ids are modelled, not each thread's data under them.
- The Lua layer, the formatters, the other sinks, process and thread inspection, signals, daemons and the applications:
  foreign calls or easy facts.

# Line echo server, client rules and ECS value types, in Dafny

This project models the core of a small C++ repository:

- The asio echo server (`demo/asio_echo/asio_echo_server.cpp`). An
  `EchoSession` owns one accepted socket and one persistent `asio::streambuf`.
  `do_read` waits until the buffer holds a `'\n'`. `std::getline` then takes
  the line and the newline is put back. `do_write` echoes the line, and a
  successful write issues the next `do_read`. EOF, a read error or a write
  error ends the chain. `EchoServer` arms its acceptor once, from its
  constructor, and the accept handler starts one session.
- The asio echo client's two string rules (`demo/asio_echo/asio_echo_client.cpp`).
  The outgoing message is terminated by `'\n'`, and the echo is rebuilt after
  `getline`.
- The ECS value types (`include/ecs/types.h`, `include/ecs/entity.h`):
  identifier types with reserved value 0 and their conversions, the `Phase`
  and `Result` enumerations, the `Error` record and the `Entity` value.

Files and modules:

- `wrappers.dfy`, module `Wrappers`: `Option`.
- `framing.dfy`, module `Framing`: newline framing of the streambuf.
  `FirstNewline` states what `async_read_until` reports, `Getline` what
  `std::getline` consumes, and `Reconstruct` how the newline is put back.
  `ReadLine` composes the three. `Records` and `Remainder` split a whole byte
  stream into its complete records and its trailing fragment.
- `echo_server.dfy`, module `AsioEchoServer`: the session as a pure state
  machine (`SessionState`, `ReadNext`, `Step`, `Run`) with its invariant and
  lemmas. The classes `EchoSession` and `EchoServer` have one method per
  completion handler, and each method is proved to follow `Step` or `Accept`.
- `echo_client.dfy`, module `AsioEchoClient`: `Normalize`, `ReceiveEcho` and
  the round trip through a session.
- `ecs_types.dfy`, module `EcsTypes`, and `ecs_entity.dfy`, module `EcsEntity`.

Modelling choices:

- The socket is replaced by completion events: `Chunk(data)`, `Eof`,
  `ReadError`, `WriteOk` and `WriteError`. The event loop delivers only the
  completion of the one outstanding operation. `Step` treats any other event
  (and every event in `Idle` or `Done`) as a no-op, which is what makes
  `Done` final.
- Two library behaviours are stated as assumptions in `Framing`:
  - `async_read_until` completes with length = index of the first `'\n'` + 1
    and leaves every byte in the streambuf.
  - `getline` consumes up to and including the first `'\n'`.
  When the streambuf already holds a `'\n'` at `do_read`, the read completes
  without touching the socket. `ReadNext` models that completion as
  immediate, so a session in `Reading` never buffers a `'\n'`.
- `Idle` is the phase between the constructor and `start()`, which the C++
  code calls one right after the other.
- `received` (a ghost field of `EchoSession`) is every byte the socket
  delivered. The invariant `Inv` ties it to the echoes and the buffer:
  `Concat(sent) + buffer == received`.
- Integer widths of the ECS identifiers are explicit newtypes (`uint32`,
  `uint64`, `uint8` for the enumerations' underlying values).
- `do_accept` is called only from the `EchoServer` constructor
  (asio_echo_server.cpp:66), and the accept handler never calls it again, so
  one connection at most is accepted and at most one session exists.
- In the accept handler, `socket.remote_endpoint()` (asio_echo_server.cpp:74)
  is the throwing overload. When the peer is already gone it throws, the
  exception leaves `io_context.run()` and `main` returns 1
  (asio_echo_server.cpp:113-115). The model has this as a third accept
  outcome, `PeerGone`, which creates no session and marks the run aborted.
- `Reconstruct` keeps both arms of the `length > 0 && line.empty()` test
  (asio_echo_server.cpp:28-32); its contract shows that both give
  `line + "\n"`.

## Model

| member | source | states |
|---|---|---|
| Framing.FirstNewline | demo/asio_echo/asio_echo_server.cpp:20-21 | the delimiter position `async_read_until` reports: None exactly when no `'\n'` is buffered; otherwise an index holding `'\n'` with no `'\n'` before it |
| Framing.Getline | demo/asio_echo/asio_echo_server.cpp:24-26 | `getline` splits the buffer as `line + "\n" + rest` with no `'\n'` in `line`; without a `'\n'` it takes everything |
| Framing.Reconstruct | demo/asio_echo/asio_echo_server.cpp:28-32 | both arms of the `length > 0 && line.empty()` branch yield `line + "\n"`, so the test never changes the message |
| Framing.ReadLine | demo/asio_echo/asio_echo_server.cpp:20-32 | the message written is one record (ends in `'\n'`, no other `'\n'`) and `message + rest == buffer`; None exactly when no `'\n'` is buffered |
| Framing.ReadLineTakesThroughFirstNewline | demo/asio_echo/asio_echo_server.cpp:20-32 | the message is the buffered bytes up to and including the first `'\n'`, and what stays buffered is everything after it |
| Framing.ReadLineOfRecord | demo/asio_echo/asio_echo_server.cpp:20-32 | a buffer that starts with a record yields exactly that record and leaves exactly the bytes after it |
| Framing.RecordsOfRecord | demo/asio_echo/asio_echo_server.cpp:24-26 | a leading record is the first record of the stream; the rest is framed on its own |
| Framing.RecordsRemainderSplit | demo/asio_echo/asio_echo_server.cpp:24-26 | a byte stream is exactly its complete records followed by a fragment without `'\n'`; nothing is lost or added |
| Framing.RecordsAreRecords | demo/asio_echo/asio_echo_server.cpp:24-26 | every piece the framing splits off is one record |
| Framing.RecordsThenRemainder | demo/asio_echo/asio_echo_server.cpp:24-26 | the records followed by the trailing fragment give back the whole stream |
| Framing.RemainderHasNoNewline | demo/asio_echo/asio_echo_server.cpp:20-21 | the trailing fragment holds no `'\n'`, so no complete line is left unsplit |
| Framing.RecordsOfConcat | demo/asio_echo/asio_echo_server.cpp:24-26 | concatenated records are recovered one for one, in order, ahead of the records of what follows |
| Framing.RemainderOfConcat | demo/asio_echo/asio_echo_server.cpp:24-26 | concatenated records leave the trailing fragment of what follows them |
| Framing.NoNewlineNoRecords | demo/asio_echo/asio_echo_server.cpp:20 | bytes without `'\n'` contain no record; they are all trailing fragment |
| AsioEchoServer.ReadNext | demo/asio_echo/asio_echo_server.cpp:18-36 | `do_read`: without a buffered `'\n'` a read stays outstanding and nothing changes; with one, exactly one record is appended to the sent messages, it is the front of the old buffer and the rest stays buffered |
| AsioEchoServer.Run | demo/asio_echo/asio_echo_server.cpp:18-56 | the completions delivered one after another, each through `Step`; a run of n completions writes at most n messages and takes none back |
| AsioEchoServer.StartSession | demo/asio_echo/asio_echo_server.cpp:13-15 | `start()` on a new session enters `Reading` with nothing sent |
| AsioEchoServer.Step | demo/asio_echo/asio_echo_server.cpp:21-55 | one completion: `Idle` and `Done` are unchanged; at most one message is written per step and only on entering `Writing`; EOF or a read error goes to `Done` with no write; a write error goes to `Done`; a good write never does; only chunk bytes delivered in `Reading` are received |
| AsioEchoServer.ReadNextPreservesInv | demo/asio_echo/asio_echo_server.cpp:18-36 | after `do_read`, echoes + buffer still equal the bytes received and every echo is a record |
| AsioEchoServer.StepPreservesInv | demo/asio_echo/asio_echo_server.cpp:20-55 | every completion keeps the invariant: echoes followed by the buffer are the bytes received, each echo is a record, `Reading` buffers no `'\n'`, `Writing` has a message in flight |
| AsioEchoServer.StartPreservesInv | demo/asio_echo/asio_echo_server.cpp:13-15 | `start()` keeps the invariant |
| AsioEchoServer.RunPreservesInv | demo/asio_echo/asio_echo_server.cpp:18-56 | every sequence of completions keeps the invariant |
| AsioEchoServer.RunOnlyExtends | demo/asio_echo/asio_echo_server.cpp:36-51 | messages written and bytes received only grow: earlier echoes are a prefix of later ones |
| AsioEchoServer.DoneIsFinal | demo/asio_echo/asio_echo_server.cpp:37-54 | no event leaves `Done`: nothing is read, written or buffered after it |
| AsioEchoServer.EchoesAreReceivedRecords | demo/asio_echo/asio_echo_server.cpp:20-59 | the echoes are a prefix of the received bytes and are the received records one for one in receipt order, followed by the records still buffered; in `Reading` they are all the records and the buffer is the trailing fragment |
| AsioEchoServer.ChunkingIrrelevant | demo/asio_echo/asio_echo_server.cpp:20-26 | two sessions waiting for input that received the same bytes, however chunked, have echoed the same messages and buffer the same fragment |
| AsioEchoServer.ReadEndDiscardsFragment | demo/asio_echo/asio_echo_server.cpp:37-41 | EOF or a read error in `Reading` ends the session with every complete record echoed and the trailing fragment never echoed, whatever happens later |
| AsioEchoServer.ReadOneRecord | demo/asio_echo/asio_echo_server.cpp:20-36 | a chunk that is one record on an empty buffer is written back verbatim, leaving the buffer empty |
| AsioEchoServer.RunAppend | demo/asio_echo/asio_echo_server.cpp:18-56 | running two event sequences one after the other is running their concatenation |
| AsioEchoServer.EchoAndResume | demo/asio_echo/asio_echo_server.cpp:20-51 | from a session waiting on an empty buffer, one record in one chunk is appended to the echoes verbatim, and after the write completes the session is reading again with an empty buffer |
| AsioEchoServer.RecordIsEchoed | demo/asio_echo/asio_echo_server.cpp:20-51 | any record (for example `"hello\n"`) sent in one chunk to a started session is echoed verbatim, and the session reads again |
| AsioEchoServer.EmptyLineIsEchoed | demo/asio_echo/asio_echo_server.cpp:28-51 | an empty line `"\n"` is echoed as `"\n"`, not dropped, and the session reads again |
| AsioEchoServer.EchoesInOrder | demo/asio_echo/asio_echo_server.cpp:20-51 | any number of records (for example `"a\n"` then `"b\n"`), each sent in one chunk after the previous echo completed, are echoed verbatim and in that order, and the session is left reading on an empty buffer |
| AsioEchoServer.FragmentThenEofEchoesNothing | demo/asio_echo/asio_echo_server.cpp:20-38 | any fragment without `'\n'` (for example `"partial"`) followed by EOF ends the session with nothing written and the fragment still buffered |
| AsioEchoServer.EchoSession.constructor | demo/asio_echo/asio_echo_server.cpp:9-11 | a new session has an empty buffer, has sent nothing, and is not reading yet |
| AsioEchoServer.EchoSession.Start | demo/asio_echo/asio_echo_server.cpp:13-15 | `start()` follows `StartSession` and keeps the invariant |
| AsioEchoServer.EchoSession.DoRead | demo/asio_echo/asio_echo_server.cpp:18-36 | the in-place buffer consumption and write issue follow `ReadNext` |
| AsioEchoServer.EchoSession.DoWrite | demo/asio_echo/asio_echo_server.cpp:45-47 | `do_write` appends the message to those written and leaves a write outstanding |
| AsioEchoServer.EchoSession.OnChunk | demo/asio_echo/asio_echo_server.cpp:20-36 | the read handler on data follows `Step` and keeps the invariant |
| AsioEchoServer.EchoSession.OnEof | demo/asio_echo/asio_echo_server.cpp:37-38 | the read handler on EOF follows `Step` (to `Done`) and keeps the invariant |
| AsioEchoServer.EchoSession.OnReadError | demo/asio_echo/asio_echo_server.cpp:39-41 | the read handler on an error follows `Step` (to `Done`) and keeps the invariant |
| AsioEchoServer.EchoSession.OnWriteOk | demo/asio_echo/asio_echo_server.cpp:49-51 | the write handler on success re-arms the read as `Step` says and keeps the invariant |
| AsioEchoServer.EchoSession.OnWriteError | demo/asio_echo/asio_echo_server.cpp:52-54 | the write handler on an error follows `Step` (to `Done`) and keeps the invariant |
| AsioEchoServer.Accept | demo/asio_echo/asio_echo_server.cpp:71-83 | an accept completion never re-arms accepting; it adds one session exactly when an accept was outstanding, succeeded and its remote endpoint could be read; the run is aborted exactly when reading that endpoint threw |
| AsioEchoServer.AcceptAll | demo/asio_echo/asio_echo_server.cpp:64-84 | a sequence of accept outcomes adds at most one session, and none once no accept is outstanding; an accept stays outstanding only while no outcome has arrived |
| AsioEchoServer.NotAcceptingIsFinal | demo/asio_echo/asio_echo_server.cpp:70-84 | once no accept is outstanding, no outcome creates a session |
| AsioEchoServer.AtMostOneSession | demo/asio_echo/asio_echo_server.cpp:64-84 | at most one session ever exists; one exists exactly when the first accept succeeded and its endpoint could be read; the run is aborted exactly when that read threw; accepting stops after the first outcome |
| AsioEchoServer.EchoServer.constructor | demo/asio_echo/asio_echo_server.cpp:64-67 | the constructor leaves one accept outstanding and no session |
| AsioEchoServer.EchoServer.OnAccept | demo/asio_echo/asio_echo_server.cpp:72-83 | the accept handler follows `Accept`; when the endpoint can be read a fresh, valid session is created and started in `Reading`; when reading it throws, or the accept failed, the session is unchanged |
| AsioEchoClient.Normalize | demo/asio_echo/asio_echo_client.cpp:50-52 | an empty message stays empty; a non-empty one ends in `'\n'`; the original is a prefix and at most one character is added; a message already ending in `'\n'` is unchanged |
| AsioEchoClient.NormalizeIdempotent | demo/asio_echo/asio_echo_client.cpp:50-52 | normalising twice is normalising once |
| AsioEchoClient.ReceiveEcho | demo/asio_echo/asio_echo_client.cpp:59-69 | the rebuilt echo is one record and a prefix of what the server sent; none exactly when no `'\n'` arrived |
| AsioEchoClient.RoundTrip | demo/asio_echo/asio_echo_client.cpp:49-69 | a one-line message, once normalised, is echoed by a session as its single record and read back unchanged |
| EcsTypes.EntityIdToUnderlying | include/ecs/types.h:175-177 | `to_underlying` on an entity id gives its raw value, which is 0 exactly for `INVALID_ENTITY_ID` |
| EcsTypes.ComponentTypeIdToUnderlying | include/ecs/types.h:185-187 | the raw value of a component type id is 0 exactly for `INVALID_COMPONENT_TYPE_ID` |
| EcsTypes.SystemIdToUnderlying | include/ecs/types.h:195-197 | the raw value of a system id is 0 exactly for `INVALID_SYSTEM_ID` |
| EcsTypes.SubscriptionIdToUnderlying | include/ecs/types.h:205-207 | the raw value of a subscription id is 0 exactly for `INVALID_SUBSCRIPTION_ID` |
| EcsTypes.MakeEntityId | include/ecs/types.h:215-217 | `to_underlying(make_entity_id(v)) == v`; the result is `INVALID_ENTITY_ID` exactly when `v == 0` (no range check) |
| EcsTypes.MakeComponentTypeId | include/ecs/types.h:225-227 | `to_underlying(make_component_type_id(v)) == v`; invalid exactly when `v == 0` |
| EcsTypes.MakeSystemId | include/ecs/types.h:235-237 | `to_underlying(make_system_id(v)) == v`; invalid exactly when `v == 0` |
| EcsTypes.MakeSubscriptionId | include/ecs/types.h:245-247 | `to_underlying(make_subscription_id(v)) == v`; invalid exactly when `v == 0` |
| EcsTypes.IdRoundTrips | include/ecs/types.h:175-247 | `make_*(to_underlying(id)) == id` for every identifier kind |
| EcsTypes.InvalidIdsAreZero | include/ecs/types.h:150-165 | every `INVALID_*` constant has underlying value 0 |
| EcsTypes.PhaseValue | include/ecs/types.h:51-56 | phase values lie in 0..3, `Input` is 0 and `Render` is 3 |
| EcsTypes.PhaseValueInjective | include/ecs/types.h:51-56 | distinct phases have distinct values |
| EcsTypes.ResultValue | include/ecs/types.h:64-75 | result codes lie in 0..9 and 0 is exactly `Success` |
| EcsTypes.ResultValueInjective | include/ecs/types.h:64-75 | the ten result codes are distinct |
| EcsTypes.DefaultError | include/ecs/types.h:90 | the default error has code `Success`, an empty message, and is a success |
| EcsTypes.MakeError | include/ecs/types.h:98-113 | the accessors give back the code and message passed in; it is a success exactly when the code is `Success` |
| EcsTypes.IsSuccess | include/ecs/types.h:120 | `is_success()` holds exactly when the code's value is 0, whatever the message |
| EcsTypes.ErrorEquals | include/ecs/types.h:128-130 | componentwise equality on (code, message) is equality of errors |
| EcsTypes.ErrorNotEquals | include/ecs/types.h:138-140 | `!=` is exactly the negation of `==` |
| EcsTypes.ErrorEqualsIsEquivalence | include/ecs/types.h:128-130 | `==` on errors is reflexive, symmetric and transitive |
| EcsTypes.SuccessWithMessage | src/ecs/types_test.cpp:44-48 | `Error(Success, "Test error")` is a success, `Error(InvalidEntity, "Invalid entity")` is not, and the two differ |
| EcsEntity.DefaultEntity | include/ecs/entity.h:24 | a default entity is invalid and its id is `INVALID_ENTITY_ID` |
| EcsEntity.MakeEntity | include/ecs/entity.h:31 | `Entity(id).id() == id`; it is valid exactly when the id's value is not 0 |
| EcsEntity.IsValid | include/ecs/entity.h:38-40 | `is_valid()` holds exactly when the id's underlying value is not 0 |
| EcsEntity.Id | include/ecs/entity.h:47-49 | `id()` returns the identifier the entity was built from, which determines the entity; it is `INVALID_ENTITY_ID` exactly when the entity is invalid |
| EcsEntity.EntityEquals | include/ecs/entity.h:57-59 | `e1 == e2` exactly when their ids are equal, which is equality of the entities |
| EcsEntity.EntityNotEquals | include/ecs/entity.h:67-69 | `!=` is exactly the negation of `==` |
| EcsEntity.EntityEqualsIsEquivalence | include/ecs/entity.h:57-59 | `==` on entities is reflexive, symmetric and transitive |
| EcsEntity.InvalidNeverEqualsValid | src/ecs/entity_test.cpp:82-98 | two default entities are equal; an invalid entity never equals a valid one |
| EcsEntity.EntityTestCases | src/ecs/entity_test.cpp:13-98 | the ten checks of the entity test program hold, including `!(e1 != e2)` for equal ids, `!(e3 == e4)` for different ids, and two default entities being equal |

## Left out

- Sockets, `io_context`, the resolver, `connect` and all console logging. They are I/O and are replaced by completion events.
- `shared_from_this` lifetime handling (asio_echo_server.cpp:19, 46). It is C++ memory management; the model only has one session object, reachable from the server.
- AsioEchoServer.Step: `WriteOk` is taken to mean that the bytes written were exactly the message. The source does not guarantee this. `do_write` (asio_echo_server.cpp:45-47) builds `asio::buffer(message)` over its reference parameter, which is the read handler's local `line` (line 25), not the lambda's by-value copy. That local is destroyed when the read handler returns, so any part of the write that did not finish during the initiating call reads freed storage. "Echoed verbatim" in `RecordIsEchoed`, `EchoAndResume` and `EchoesInOrder` therefore holds only when the write completes before the read handler returns. Short writes inside `asio::async_write` are likewise not modelled.
- Command-line port parsing in every `main`. It depends on `std::stoi`/`atoi` and on narrowing to `unsigned short`.
- `demo/tcp_echo/tcp_echo_server.c` and `demo/tcp_echo/tcp_echo_client.c`. Their only logic is interleaved with blocking `recv`/`send` calls.
- The client's I/O sequence (asio_echo_client.cpp:31-47, 55-61, 74). It is modelled only as the two string rules and `ReceiveEcho`'s view of the bytes received.
- The streambuf's maximum size (`read_until` reporting "not found" when it is full). The default limit is effectively unbounded, so no buffer bound is modelled.
- `io_context.run()` returning once the single session ends, and closing the socket when the session is destroyed. These are not modelled beyond the session reaching `Done`.
- The address and port of an accepted connection. Apart from the throw modelled as `PeerGone`, they are only printed.
- The difference between EOF and a read error. Both end the session in the same state; they differ only in the log message.

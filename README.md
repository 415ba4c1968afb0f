# hardlight runtime core in Dafny

hardlight is an RPC-over-WebSocket runtime. A client and a server first agree
on the protocol version in the WebSocket opening handshake. After that the
client sends `RPCRequest { id, internal }` messages, and the server answers
each with `RPCResponse { id, output }`. The server also pushes
`StateChange` batches, which keep a client-side mirror of the connection
state up to date.

This project models the deterministic bookkeeping of that runtime and proves
what it promises:

- **Client call table** (`call_table.dfy`, `client.dfy`). The client's
  `active_rpc_calls` holds 256 slots indexed by call id.
  - A request takes the lowest free slot. The slot is filled only once the
    request was serialised and sent.
  - A response is handed to the caller in its slot and frees it.
  - State changes go to the mirror.
  - The loop is the class `RpcClient.Client`, with one method per branch of
    its `select!`. Each method is proved against the pure table functions of
    `CallTable`.
  - Over any run of the loop, no caller is lost or answered twice.
- **Server in-flight filter** (`server.dfy`). The connection's
  `in_flight: [bool; 256]` is the class `RpcServer.Connection`. An id that is
  in flight is refused, an accepted id is marked, and a handler's response
  clears the mark. The invariant proved is that at most one handler per id
  runs at a time.
- **Version gate** (`handshake.dfy`). Both sides use the value
  `hl/<major>` in `Sec-WebSocket-Protocol`, the subprotocol negotiation of
  sections 4.1 and 4.2.2 of RFC 6455. The server callback answers 400 to a
  mismatch, and the client refuses a reply that does not echo its value. The
  two checks together let a pair connect exactly when their major versions
  agree. It is the client's check that actually refuses the connection (see
  "Left out").
- **Counter service** (`counter.dfy`), the testing project's hand-written
  service:
  - `increment`/`decrement`/`get` behind the state guard;
  - the guard's diff on release;
  - `apply_changes` on the client;
  - `handle_rpc_call` dispatch;
  - `CounterClient`.

  The diff/replay round trip is proved. So is the invariant that a mirror
  which replayed every batch in order holds the server's value.
- **Shared vocabulary** (`wire.dfy`, `codec.dfy`). This covers the message
  and error types. It also has a little-endian `u32` codec that stands in for
  rkyv's archived `u32`, with its round trips proved.

I/O is replaced by inputs. Each value read from a socket or channel is a
parameter, and so is the outcome of each send. Each value written is an
out-parameter.

## Model

| member | source | states |
|---|---|---|
| Codec.EncodeU32 | testing-project/src/main.rs:242-244 | an encoded `u32` is four bytes and decodes back to the same value |
| Codec.DecodeU32 | testing-project/src/main.rs:394-395 | decoding succeeds exactly on four-byte buffers, and an accepted buffer is the encoding of the decoded value |
| Codec.EncodeU32Injective | testing-project/src/main.rs:239-245 | two counter values have the same encoding iff they are equal |
| Handshake.VersionHeader | src/server.rs:106 | the header value is `hl/` followed by the decimal digits of the major version |
| Handshake.VersionHeaderInjective | src/client.rs:89 | two builds derive the same header value iff their major versions are equal |
| Handshake.Lookup | src/server.rs:142 | a header lookup finds the first entry whose name matches without regard to ASCII case, and finds nothing iff no entry matches |
| Handshake.LookupAppended | src/server.rs:148-149 | a header appended to a list without that name is what a later lookup returns |
| Handshake.ClientRequest | src/client.rs:112-122 | the client's opening request carries its version under `Sec-WebSocket-Protocol` |
| Handshake.CheckServerProtocol | src/client.rs:127-131 | the client reports `Connected` iff the reply's protocol header is present and equals its version, otherwise `HandshakeIncomplete` |
| Handshake.Callback | src/server.rs:139-156 | a missing or different protocol header yields status 400 with the headers untouched; a matching one keeps the status and appends the server's version header |
| Handshake.HandshakeAgreement | src/server.rs:142-155 | a client and a server complete the handshake (101 at the server, `Connected` at the client) iff their major versions agree; otherwise the server answers 400 |
| CallTable.EmptySlots | src/client.rs:143-163 | the table starts with 256 empty slots |
| CallTable.FirstFree | src/client.rs:172 | the free slot found is empty and every slot below it is occupied; none is found iff every slot is occupied |
| CallTable.PendingBound | src/client.rs:143 | the table never holds more waiting callers than it has slots |
| CallTable.StartCall | src/client.rs:169-211 | with no free slot the caller gets `TooManyCallsInFlight`, on a serialisation failure `BadInputBytes`, and on a send failure `ClientNotConnected`, each with the table unchanged; otherwise exactly the lowest free slot takes the caller and nobody is answered; either way the caller is held or answered, once |
| CallTable.Deliver | src/client.rs:224-233 | a response for an occupied slot answers that slot's caller with the output and empties only that slot; a response for an empty slot changes nothing and answers nobody |
| CallTable.Conservation | src/client.rs:166-248 | over any run of the loop, the callers still waiting plus the callers answered equal the callers waiting at the start plus the callers that made a request |
| CallTable.ExactlyOnce | src/client.rs:166-248 | from the empty table, a caller that made one request is, after any run, either waiting in exactly one slot or answered exactly once, never both |
| RpcClient.TableStep | src/client.rs:213-233 | only a decoded `RPCResponse` touches the table; read errors, non-binary and undecodable messages, state changes and events do not |
| RpcClient.Client.constructor | src/client.rs:84-91 | a new client's version header is `hl/<major>` and its mirror is the default state |
| RpcClient.Client.Connect | src/client.rs:127-163 | the loop starts, with all 256 slots empty, iff the server's reply echoes the client's version |
| RpcClient.Client.FindFreeSlot | src/client.rs:172 | the search returns the lowest empty slot, or none when all are occupied |
| RpcClient.Client.OnCall | src/client.rs:169-211 | the array and the immediate answer are those of `CallTable.StartCall`; a request goes to the socket, carrying the lowest free id, iff a slot was free and serialisation succeeded |
| RpcClient.Client.OnIncoming | src/client.rs:213-248 | the array and the answer are those of `CallTable.Deliver` for a decoded response, and nothing changes otherwise; a state change updates only the mirror, as `Counter.Replay` says, and an error there does not stop the loop |
| RpcClient.Client.OnEvent | src/client.rs:167-248 | one pass of the `select!` changes the array as `CallTable.Apply` says, and changes the mirror only by replaying the batch of a decoded `StateChange` (`Counter.Replay`); a request from the application leaves the mirror unchanged |
| RpcClient.StateBatch | src/client.rs:234-244 | only a decoded `StateChange` brings changes to the mirror; every other wake-up brings none |
| RpcClient.RunLoop | src/client.rs:165-254 | after the handshake and any sequence of wake-ups, the array and the answers sent are those of `CallTable.Run`, so every caller that made one request is waiting in exactly one slot or answered exactly once; the mirror is its starting value with the wake-ups' state-change batches replayed in order (`Counter.ReplayBatches`, the same replay `Counter.CounterHandler.Valid` keeps on the server) |
| RpcServer.NewServer | src/server.rs:104-110 | the server's header value is `hl/<major>` of its configured version and of no other major version |
| RpcServer.Connection.constructor | src/server.rs:169 | a connection starts with no id in flight and no handler running |
| RpcServer.Connection.OneHandlerPerId | src/server.rs:196-228 | in every valid state at most one handler per id runs, and one runs iff the id is marked in flight |
| RpcServer.Connection.OnClientMessage | src/server.rs:179-219 | read errors and non-binary messages are skipped; a request whose id is in flight is ignored with nothing changed; any other request marks exactly its id and starts exactly one handler; the one-handler-per-id invariant is kept |
| RpcServer.Connection.OnHandlerResponse | src/server.rs:221-237 | a handler's response clears exactly its id, whether or not the send to the client succeeds, and the response reaches the client unchanged when the send succeeds; the invariant is kept |
| RpcServer.ForwardStateChanges | src/server.rs:240-249 | a batch from the handler reaches the client as one `StateChange` with the same entries in the same order when the send succeeds |
| Counter.EncodeCall | testing-project/src/main.rs:340-342 | the call envelope decodes back to the same method and arguments |
| Counter.DecodeCall | testing-project/src/main.rs:137 | the envelope fails to decode iff it is empty or names no method; what decodes is the encoding of the decoded call |
| Counter.Replay | testing-project/src/main.rs:390-401 | applying a change list succeeds iff every `"counter"` entry decodes; a failure is `BadInputBytes` |
| Counter.ReplayConcat | testing-project/src/main.rs:391-399 | applying `a + b` is applying `a` and then, if that succeeded, `b` |
| Counter.ReplayLastWins | testing-project/src/main.rs:391-398 | the last `"counter"` entry of a list decides the value, and a list without one leaves the value unchanged |
| Counter.ReplayIgnoresOtherNames | testing-project/src/main.rs:397 | entries under names other than `"counter"` have no effect |
| Counter.ReplayStopsAtFirstBadEntry | testing-project/src/main.rs:391-396 | a failing list applies exactly the entries before its first undecodable `"counter"` entry and then reports `BadInputBytes` |
| Counter.Diff | testing-project/src/main.rs:235-259 | the guard reports nothing iff the value is unchanged, and replaying its report on the old value gives the new one |
| Counter.GuardChanges | testing-project/src/main.rs:237-246 | the list `drop` builds is empty iff the counter is unchanged, and is otherwise exactly `[("counter", encoding of the new value)]` |
| Counter.SyncStep | testing-project/src/main.rs:235-259 | a mirror that has replayed the batches sent so far and holds the guard's starting value holds the released value after the guard's batch |
| Counter.ReorderedBatchesLeaveStaleMirror | testing-project/src/main.rs:254-258 | the same two batches, delivered in the opposite order, leave the mirror at the older value |
| Counter.CounterState.constructor | testing-project/src/main.rs:77-80 | the default state holds 0 |
| Counter.CounterState.ApplyChanges | testing-project/src/main.rs:390-401 | the loop leaves the outcome and counter given by `Counter.Replay` |
| Counter.Dispatch | testing-project/src/main.rs:136-160 | a request fails with `BadInputBytes` iff its envelope, or the arguments of `increment`/`decrement`, do not decode, and then runs no operation; otherwise the reply decodes to the counter after the operation, which is old + amount for `increment`, old - amount for `decrement` and old for `get` |
| Counter.CounterHandler.constructor | testing-project/src/main.rs:130-134 | a new handler holds the default state and has sent nothing |
| Counter.CounterHandler.ReleaseGuard | testing-project/src/main.rs:233-259 | releasing the guard sends exactly the guard's batch, and a mirror that replays everything sent still holds the server's value |
| Counter.CounterHandler.Increment | testing-project/src/main.rs:165-170 | the counter becomes old + amount and is returned; one batch carrying it is sent iff amount is nonzero |
| Counter.CounterHandler.Decrement | testing-project/src/main.rs:173-177 | the counter becomes old - amount and is returned; one batch carrying it is sent iff amount is nonzero |
| Counter.CounterHandler.Get | testing-project/src/main.rs:179-182 | the counter is returned and nothing changes or is sent |
| Counter.CounterHandler.HandleRpcCall | testing-project/src/main.rs:136-160 | the reply and new counter are those of `Counter.Dispatch`, the batch sent is the guard's diff, and the mirror invariant is kept |
| Counter.IncrementRepeatedly | testing-project/src/main.rs:46-64 | n increments of one raise the counter by n, and the mirror stays in step |
| Counter.CounterClient.constructor | testing-project/src/main.rs:287-303 | a new wrapper is not connected |
| Counter.CounterClient.Connect | testing-project/src/main.rs:305-326 | after connecting, the wrapper holds the shutdown sender and the RPC channel |
| Counter.CounterClient.Disconnect | testing-project/src/main.rs:328-335 | the shutdown sender is taken: the first call signals it and a second call signals nothing; the RPC channel is kept |
| Counter.CounterClient.Submit | testing-project/src/main.rs:337-347 | without an RPC channel a call fails with `ClientNotConnected`; otherwise it submits an envelope that decodes back to the method and arguments |
| Counter.DecodeReply | testing-project/src/main.rs:361-364 | an error reply passes through unchanged; an output that is not a `u32` becomes `BadOutputBytes`; an accepted output is the encoding of the value returned |
| Counter.WrapperRoundTrip | testing-project/src/main.rs:352-386 | a call made through the typed wrappers and served by `handle_rpc_call` returns the server's counter after the operation: old + a, old - a, or old |

## Left out

- TLS configuration, certificates and the `new`/`new_self_signed` constructors are not modelled. They are calls into rustls and rcgen with no logic of their own.
- TCP accept, WebSocket framing and the rest of the handshake are not modelled; they are library I/O. The opening request and the reply are header lists, and only the version decision is modelled.
- The server does not itself refuse a client with a different version. The callback returns its 400 response as `Ok` (src/server.rs:143-146), and a WebSocket server handshake fails only when the callback returns an error response. So the server side completes the handshake and enters the loop of src/server.rs:166-252 anyway. Only the client's refusal keeps a mismatched pair apart: the client rejects any reply that does not echo its version. `RpcServer.Connection` can therefore be constructed whatever `Handshake.Callback` decided, and its `version` field is never consulted.
- `HeaderValue` comparison is modelled as exact string equality. Header names match without regard to ASCII case, as in the `http` crate.
- The `version` crate's parsing of the crate version is not modelled. The major number is a parameter.
- Concurrency is not modelled: tokio tasks, `select!` fairness, and mpsc/oneshot channels. Each `select!` branch is one sequential method, and a run is a sequence of branch events.
- No ordering between a `StateChange` and an `RPCResponse` is claimed, and none is modelled.
- The mutex around the counter, and `StatePoisoned` from a poisoned lock, are not modelled. The variant exists in `Wire.RpcHandlerError` but is never produced.
- rkyv's archived layout is not modelled; a simpler stand-in is used:
  - a `u32` is four little-endian bytes;
  - an `RpcCall` is a method tag byte followed by the argument bytes;
  - client and server messages arrive already decoded or marked as undecodable.
- The shapes of `ClientMessage`, `ServerMessage` and `RpcHandlerError` come from how the core files use them; src/wire.rs is not part of this model.
- Serialising a message or an `RpcCall` never fails in the model. Where the source handles the failure (src/client.rs:182-189), the failure is an input (`SendOutcome`).
- Logging, tracing spans and the event system (`NewEvent` is ignored by the client) are not modelled.
- The shutdown branch of the client loop only ends the loop. `RpcClient.RunLoop` models the events taken before it.
- The client wrapper's wait for the reply (`rx.await`) is not modelled, and neither is the panic on a dropped channel. `CounterClient::connect` spawns `Client::connect` with a signature that does not match src/client.rs; only the wrapper's own fields are modelled.
- Counter.Dispatch: requires that `increment` does not overflow the `u32` and that `decrement` does not go below zero (`Counter.Admissible`). The source panics there in a debug build and wraps in a release build. The panic happens inside the spawned handler task (src/server.rs:206-213), so that call gets no response. The server's `in_flight[id]` and the client's slot `id` then stay occupied for good. The panic also poisons the state mutex, so every later call on the connection fails with `StatePoisoned` (testing-project/src/main.rs:215). None of this is modelled.
- Counter.CounterHandler.Increment: requires no `u32` overflow, for the same reason.
- Counter.CounterHandler.Decrement: requires no `u32` underflow, for the same reason.
- Counter.CounterHandler.HandleRpcCall: requires `Counter.Admissible`, for the same reason.
- Counter.IncrementRepeatedly: requires that the n increments do not overflow. The concurrent 100 × 100 tasks of the test are modelled as one sequence.
- RpcServer.Connection.OnClientMessage: requires that a binary message decodes, because the source unwraps the decoding (src/server.rs:189) and the task panics otherwise.
- RpcServer.Connection.OnHandlerResponse: requires that the response comes from a running handler. Only spawned handler tasks hold the response channel (src/server.rs:203-213).
- Counter.CounterClient.Disconnect: keeps the RPC channel, as the source does. A call made after `disconnect` is still handed to the ended loop's channel; the resulting panic is not modelled.

## Findings

| source | as written | input that shows it | evidently intended | confidence | as-written member | corrected member |
|---|---|---|---|---|---|---|
| testing-project/src/main.rs:254-258 | each released guard spawns its own task to send its batch, so two batches from one connection can reach the state channel in either order | two guards released in turn, moving the counter 0 to 1 and then 1 to 2, whose tasks send in the opposite order: the mirror ends at 1 while the server holds 2 | batches arrive in release order, so the mirror converges on the server's value | low; depends on task scheduling; not executed | Counter.ReorderedBatchesLeaveStaleMirror | Counter.CounterHandler.ReleaseGuard |

/** Shared vocabulary of the runtime: bytes, fixed-width integers, the error
    type every handler returns and the two message types that travel over the
    WebSocket connection. The Rust types live in src/wire.rs, which is not part
    of this model; their shapes are taken from how src/client.rs and
    src/server.rs build and match them. */
module Wire {

  /** A Rust `u8`. */
  type Byte = x: int | 0 <= x < 256

  type Bytes = seq<Byte>

  const U32Limit: int := 0x1_0000_0000

  /** A Rust `u32`. */
  type U32 = x: int | 0 <= x < U32Limit

  /** A call identifier: the one-byte `id` of `RPCRequest`/`RPCResponse`. */
  type CallId = Byte

  /** The number of call identifiers, `u8::MAX + 1`. */
  const MaxCalls: nat := 256

  datatype Option<+T> = None | Some(value: T)

  /** `RpcHandlerError`. `StatePoisoned` comes only from a poisoned mutex,
      which the model has no way to produce. */
  datatype RpcHandlerError =
    | BadInputBytes
    | BadOutputBytes
    | ClientNotConnected
    | TooManyCallsInFlight
    | StatePoisoned

  /** `HandlerResult<T>` / `Result<T, RpcHandlerError>`. */
  datatype Result<+T> = Ok(value: T) | Err(error: RpcHandlerError)

  /** One entry of a state-change batch: a field name and its new value, encoded. */
  type Change = (string, Bytes)

  /** Client to server. */
  datatype ClientMessage = RPCRequest(id: CallId, internal: Bytes)

  /** Server to client. `NewEvent` carries nothing the client looks at. */
  datatype ServerMessage =
    | RPCResponse(id: CallId, output: Result<Bytes>)
    | StateChange(changes: seq<Change>)
    | NewEvent

  /** What one `stream.next()` yields: a read error, a non-binary WebSocket
      message, or a binary message together with the outcome of decoding it
      (`None` when the bytes are not a valid `M`). */
  datatype Incoming<+M> = ReadError | NotBinary | Binary(decoded: Option<M>)
}

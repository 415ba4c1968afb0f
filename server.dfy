/** The server runtime of src/server.rs. `Server::new` derives the version
    header from the configured major version; each accepted connection runs
    the handshake callback of module Handshake and then a loop over three
    sources: requests from the client, each handed to a freshly spawned
    handler task unless a call with the same id is still in flight; responses
    coming back from those tasks, which end the call and go to the client;
    and state-change batches from the connection's handler, which go to the
    client as they are. The `in_flight` table of that loop is the class
    Connection here. */
module RpcServer {
  import opened Wire
  import Handshake

  /** `ServerConfig` without its TLS settings; `major` is the major number of
      the crate version. */
  datatype ServerConfig = ServerConfig(address: string, major: nat)

  datatype Server = Server(config: ServerConfig, versionHeader: string)

  /** `Server::new`: the header value every connection demands of its client
      is `hl/<major>` of the configured version, and only that value. */
  function NewServer(config: ServerConfig): (r: Server)
    ensures r.config == config
    ensures forall major: nat :: r.versionHeader == Handshake.VersionHeader(major) <==> major == config.major
  {
    var r := Server(config, Handshake.VersionHeader(config.major));
    assert forall major: nat :: r.versionHeader == Handshake.VersionHeader(major) <==> major == config.major by {
      forall major: nat ensures r.versionHeader == Handshake.VersionHeader(major) <==> major == config.major {
        Handshake.VersionHeaderInjective(major, config.major);
      }
    }
    r
  }

  /** The loop of one established connection (src/server.rs:166-252). */
  class Connection {
    /** The header value the callback compared the client's against. */
    const version: string
    /** `in_flight`: whether a call with that id has been handed to a handler
        task whose response has not yet come back. */
    const inFlight: array<bool>
    /** The ids of the handler tasks spawned and not yet finished, with
        multiplicity: a proof device, not a variable of the source. */
    ghost var handlers: multiset<CallId>

    /** Every spawned handler is recorded in the table and the table records
        nothing else. */
    ghost predicate Valid()
      reads this, inFlight
    {
      inFlight.Length == MaxCalls &&
      forall id: CallId :: handlers[id] == if inFlight[id] then 1 else 0
    }

    /** `let mut in_flight = [false; u8::MAX as usize + 1]`. */
    constructor (server: Server)
      ensures Valid()
      ensures version == server.versionHeader
      ensures fresh(inFlight) && forall id :: 0 <= id < inFlight.Length ==> !inFlight[id]
      ensures handlers == multiset{}
    {
      version := server.versionHeader;
      inFlight := new bool[MaxCalls](_ => false);
      handlers := multiset{};
    }

    /** At most one handler per call id runs at any time. */
    lemma OneHandlerPerId()
      requires Valid()
      ensures forall id: CallId :: handlers[id] <= 1
      ensures forall id: CallId :: handlers[id] == 1 <==> inFlight[id]
    {
    }

    /** The loop's branch for a message from the client
        (src/server.rs:179-219). A read error and a non-binary message are
        skipped. A binary message must decode, as the source unwraps the
        decoding. A request whose id is in flight is ignored; any other
        request marks its id and is handed to a new handler task, which
        `spawned` returns. */
    method OnClientMessage(frame: Incoming<ClientMessage>) returns (spawned: Option<ClientMessage>)
      requires Valid()
      requires frame.Binary? ==> frame.decoded.Some?
      modifies this, inFlight
      ensures Valid()
      ensures spawned.Some? <==> frame.Binary? && !old(inFlight[frame.decoded.value.id])
      ensures spawned.Some? ==>
                spawned.value == frame.decoded.value &&
                inFlight[..] == old(inFlight[..])[spawned.value.id := true] &&
                handlers == old(handlers) + multiset{spawned.value.id}
      ensures spawned.None? ==> inFlight[..] == old(inFlight[..]) && handlers == old(handlers)
    {
      spawned := None;
      if frame.Binary? {
        var request := frame.decoded.value;
        if inFlight[request.id] {
          return;
        }
        inFlight[request.id] := true;
        handlers := handlers + multiset{request.id};
        spawned := Some(request);
      }
    }

    /** The loop's branch for a response from a handler task
        (src/server.rs:221-237). The id leaves the table before the response
        is sent, so it leaves it even when the send fails; `sendOk` is how the
        send went and `delivered` what reached the client. */
    method OnHandlerResponse(id: CallId, output: Result<Bytes>, sendOk: bool)
      returns (delivered: Option<ServerMessage>)
      requires Valid()
      requires handlers[id] > 0
      modifies this, inFlight
      ensures Valid()
      ensures inFlight[..] == old(inFlight[..])[id := false]
      ensures handlers == old(handlers) - multiset{id}
      ensures delivered == if sendOk then Some(RPCResponse(id, output)) else None
    {
      inFlight[id] := false;
      handlers := handlers - multiset{id};
      delivered := if sendOk then Some(RPCResponse(id, output)) else None;
    }
  }

  /** The loop's branch for a batch of state changes from the connection's
      handler (src/server.rs:240-249): the batch goes to the client in one
      `StateChange` message, entries and order untouched; the in-flight table
      is not involved. */
  function ForwardStateChanges(changes: seq<Change>, sendOk: bool): (delivered: Option<ServerMessage>)
    ensures delivered.Some? <==> sendOk
    ensures delivered.Some? ==> delivered.value.StateChange? && delivered.value.changes == changes
  {
    if sendOk then Some(StateChange(changes)) else None
  }
}

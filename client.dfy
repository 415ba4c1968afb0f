/** The client runtime of src/client.rs. `Client::connect` checks the
    server's version header, then runs a loop that serves two sources: RPC
    requests from the application, which take the lowest free slot of a
    256-entry table as their call id, and messages from the server, whose
    responses are handed to the caller waiting in slot `id` and whose state
    changes are applied to the client's mirror of the connection state. Each
    branch of that loop is one method here, proved against the table
    functions of module CallTable. The mirror is the testing project's
    `CounterState`, the one `State` implementation in this model. */
module RpcClient {
  import opened Wire
  import opened CallTable
  import Handshake
  import Counter

  /** `ClientConfig` without its TLS settings. */
  datatype ClientConfig = ClientConfig(host: string)

  /** How one message from the server is seen by the table: a decoded
      response, or something that leaves the table alone. */
  function TableStep(frame: Incoming<ServerMessage>): (step: Step)
    ensures step.Response? <==> frame.Binary? && frame.decoded.Some? && frame.decoded.value.RPCResponse?
    ensures step.Response? ==> step.id == frame.decoded.value.id && step.output == frame.decoded.value.output
    ensures !step.Call?
  {
    match frame
    case Binary(Some(RPCResponse(id, output))) => Response(id, output)
    case _ => Other
  }

  class Client {
    const config: ClientConfig
    /** `hl_version_string`. */
    const versionHeader: string
    /** The client's mirror of the connection state. */
    const state: Counter.CounterState
    /** `active_rpc_calls`; empty until `connect` has completed the handshake. */
    var slots: array<Option<Waiter>>

    /** The RPC loop is running: the table has its 256 slots. */
    ghost predicate Running()
      reads this
    {
      slots.Length == MaxCalls
    }

    /** `new_with_config`: the version header is `hl/<major>` of the crate
        version, and the mirror starts from the default state. */
    constructor (config: ClientConfig, major: nat)
      ensures this.config == config
      ensures versionHeader == Handshake.VersionHeader(major)
      ensures fresh(state) && state.counter == 0
    {
      this.config := config;
      versionHeader := Handshake.VersionHeader(major);
      state := new Counter.CounterState();
      slots := new Option<Waiter>[0];
    }

    /** The part of `connect` after the WebSocket upgrade: the server's reply
        headers are checked, and only a reply that echoes the client's
        version starts the loop, with every slot empty. */
    method Connect(response: Handshake.Headers) returns (outcome: Handshake.HandshakeOutcome)
      modifies this
      ensures outcome == Handshake.CheckServerProtocol(response, versionHeader)
      ensures outcome == Handshake.Connected ==> Running() && fresh(slots) && slots[..] == EmptySlots()
      ensures outcome == Handshake.HandshakeIncomplete ==> slots == old(slots)
    {
      outcome := Handshake.CheckServerProtocol(response, versionHeader);
      if outcome == Handshake.Connected {
        slots := new Option<Waiter>[MaxCalls](_ => None);
        assert slots[..] == EmptySlots();
      }
    }

    /** `active_rpc_calls.iter().position(|x| x.is_none())`. */
    method FindFreeSlot() returns (id: Option<nat>)
      requires Running()
      ensures id == FirstFree(slots[..])
      ensures id.Some? ==> id.value < MaxCalls && slots[id.value].None? &&
                           forall j :: 0 <= j < id.value ==> slots[j].Some?
      ensures id.None? ==> forall j :: 0 <= j < MaxCalls ==> slots[j].Some?
    {
      var i := 0;
      while i < slots.Length
        invariant 0 <= i <= slots.Length
        invariant forall j :: 0 <= j < i ==> slots[j].Some?
      {
        if slots[i].None? {
          return Some(i);
        }
        i := i + 1;
      }
      return None;
    }

    /** The loop's branch for a request from the application
        (src/client.rs:169-211). `outcome` says whether serialising and
        sending the request succeeded. Returns the request handed to the
        socket, if one was, and what the caller was answered at once, if
        anything. */
    method OnCall(internal: Bytes, waiter: Waiter, outcome: SendOutcome)
      returns (request: Option<ClientMessage>, reply: Option<Reply>)
      requires Running()
      modifies slots
      ensures (slots[..], reply) == StartCall(old(slots[..]), waiter, outcome)
      ensures request.Some? <==> FirstFree(old(slots[..])).Some? && outcome != SerialiseFailed
      ensures request.Some? ==> request.value == RPCRequest(FirstFree(old(slots[..])).value, internal)
    {
      var free := FindFreeSlot();
      if free.None? {
        return None, Some(Reply(waiter, Err(TooManyCallsInFlight)));
      }
      var id := free.value;
      if outcome == SerialiseFailed {
        return None, Some(Reply(waiter, Err(BadInputBytes)));
      }
      request := Some(RPCRequest(id, internal));
      if outcome == SendFailed {
        return request, Some(Reply(waiter, Err(ClientNotConnected)));
      }
      slots[id] := Some(waiter);
      reply := None;
    }

    /** The loop's branch for a message from the server
        (src/client.rs:213-248): a response goes to the caller in its slot
        and frees it, a response for an empty slot is dropped, a state change
        is applied to the mirror (a failure there is only logged), and
        everything else is ignored. */
    method OnIncoming(frame: Incoming<ServerMessage>) returns (reply: Option<Reply>)
      requires Running()
      modifies slots, state
      ensures (slots[..], reply) == Apply(old(slots[..]), TableStep(frame))
      ensures state.counter ==
                if frame.Binary? && frame.decoded.Some? && frame.decoded.value.StateChange?
                then Counter.Replay(old(state.counter), frame.decoded.value.changes).1
                else old(state.counter)
    {
      reply := None;
      if frame.Binary? && frame.decoded.Some? {
        match frame.decoded.value {
          case RPCResponse(id, output) =>
            if slots[id].Some? {
              reply := Some(Reply(slots[id].value, output));
              slots[id] := None;
            }
          case StateChange(changes) =>
            var _ := state.ApplyChanges(changes);
          case NewEvent =>
        }
      }
    }

    /** One pass of the loop's `select!`. */
    method OnEvent(e: LoopEvent) returns (reply: Option<Reply>)
      requires Running()
      modifies slots, state
      ensures (slots[..], reply) == Apply(old(slots[..]), AsStep(e))
      ensures state.counter == Counter.Replay(old(state.counter), StateBatch(e)).1
    {
      match e {
        case FromApplication(internal, waiter, outcome) =>
          var _, r := OnCall(internal, waiter, outcome);
          reply := r;
        case FromServer(frame) =>
          reply := OnIncoming(frame);
      }
    }
  }

  /** One wake-up of the loop's `select!`: a request from the application
      (with how serialising and sending it went) or a message from the server. */
  datatype LoopEvent =
    | FromApplication(internal: Bytes, waiter: Waiter, outcome: SendOutcome)
    | FromServer(frame: Incoming<ServerMessage>)

  function AsStep(e: LoopEvent): Step {
    match e
    case FromApplication(_, waiter, outcome) => Call(waiter, outcome)
    case FromServer(frame) => TableStep(frame)
  }

  /** The state changes a wake-up brings to the mirror: the batch of a decoded
      `StateChange`, and nothing for anything else. */
  function StateBatch(e: LoopEvent): (changes: seq<Change>)
    ensures changes != [] ==> e.FromServer? && e.frame.Binary? && e.frame.decoded.Some? &&
                              e.frame.decoded.value.StateChange?
  {
    match e
    case FromServer(Binary(Some(StateChange(changes)))) => changes
    case _ => []
  }

  /** The state-change batches of a sequence of wake-ups, in order. */
  function StateBatches(events: seq<LoopEvent>): (batches: seq<seq<Change>>)
    ensures |batches| == |events|
  {
    if events == [] then [] else StateBatches(events[..|events| - 1]) + [StateBatch(events[|events| - 1])]
  }

  /** The table steps of a sequence of wake-ups, in order. */
  function AsSteps(events: seq<LoopEvent>): (steps: seq<Step>)
    ensures |steps| == |events|
  {
    if events == [] then [] else AsSteps(events[..|events| - 1]) + [AsStep(events[|events| - 1])]
  }

  /** `connect` from the handshake until the shutdown signal: after any
      sequence of wake-ups the table and the replies sent are those of
      CallTable.Run, so a caller that made one request is either still in
      exactly one slot or has been answered exactly once. */
  method RunLoop(client: Client, response: Handshake.Headers, events: seq<LoopEvent>)
    returns (answered: seq<Reply>)
    requires Handshake.CheckServerProtocol(response, client.versionHeader) == Handshake.Connected
    modifies client, client.state
    ensures client.Running()
    ensures (client.slots[..], answered) == Run(EmptySlots(), AsSteps(events))
    ensures forall w :: Callers(AsSteps(events))[w] == 1 ==>
              Pending(client.slots[..])[w] + Answered(answered)[w] == 1
    ensures client.state.counter == Counter.ReplayBatches(old(client.state.counter), StateBatches(events))
  {
    var _ := client.Connect(response);
    ghost var start := client.slots[..];
    ghost var origin := client.state.counter;
    answered := [];
    var i := 0;
    while i < |events|
      invariant 0 <= i <= |events|
      invariant client.Running() && fresh(client.slots)
      invariant (client.slots[..], answered) == Run(start, AsSteps(events[..i]))
      invariant client.state.counter == Counter.ReplayBatches(origin, StateBatches(events[..i]))
      modifies client.slots, client.state
    {
      var reply := client.OnEvent(events[i]);
      RunSnoc(start, AsSteps(events[..i]), AsStep(events[i]));
      Counter.ReplayBatchesSnoc(origin, StateBatches(events[..i]), StateBatch(events[i]));
      assert events[..i + 1][..i] == events[..i];
      answered := answered + AsSent(reply);
      i := i + 1;
    }
    assert events[..i] == events;
    ghost var steps := AsSteps(events);
    AllExactlyOnce(steps);
  }
}

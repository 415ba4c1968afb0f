/** The counter service of testing-project/src/main.rs: the hand-written
    stand-in for the code a macro will generate. On the server a
    `CounterHandler` decodes each call and runs `increment`, `decrement` or
    `get` on a connection's `CounterState`; every time the state's lock is
    released the guard compares the state with the copy taken when the lock was
    taken and sends the difference on the connection's state-update channel.
    On the client `CounterState::apply_changes` replays such differences, and
    `CounterClient` wraps calls in an `RpcCall` envelope. */
module Counter {
  import opened Wire
  import opened Codec

  /** The name under which the one field of `CounterState` is synchronised. */
  const CounterField: string := "counter"

  // ---------------------------------------------------------------------------
  // The call envelope: `RpcCall { method, args }` with `#[repr(u8)] enum Method`.
  // It is laid out here as the method's tag byte followed by the argument bytes.

  datatype Method = Increment | Decrement | Get

  datatype RpcCall = RpcCall(op: Method, args: Bytes)

  function MethodTag(m: Method): Byte {
    match m
    case Increment => 0
    case Decrement => 1
    case Get => 2
  }

  function EncodeCall(call: RpcCall): (bs: Bytes)
    ensures |bs| == |call.args| + 1
    ensures DecodeCall(bs) == Some(call)
  {
    assert ([MethodTag(call.op)] + call.args)[1..] == call.args;
    [MethodTag(call.op)] + call.args
  }

  /** Fails on an empty buffer or an unknown tag; what it accepts is the
      encoding of what it returns. */
  function DecodeCall(bs: Bytes): (r: Option<RpcCall>)
    ensures r.None? <==> |bs| == 0 || bs[0] > 2
    ensures r.Some? ==> [MethodTag(r.value.op)] + r.value.args == bs
  {
    if |bs| == 0 then None
    else if bs[0] == 0 then Some(RpcCall(Increment, bs[1..]))
    else if bs[0] == 1 then Some(RpcCall(Decrement, bs[1..]))
    else if bs[0] == 2 then Some(RpcCall(Get, bs[1..]))
    else None
  }

  // ---------------------------------------------------------------------------
  // Replaying a change list: `CounterState::apply_changes`

  /** True when every `"counter"` entry of `changes` decodes. */
  predicate AllCounterEntriesDecode(changes: seq<Change>) {
    forall i :: 0 <= i < |changes| && changes[i].0 == CounterField ==> |changes[i].1| == 4
  }

  /** The outcome and the counter after applying `changes`, front to back, to
      a state holding `counter`: each `"counter"` entry overwrites the value,
      other names are skipped, and the first entry that does not decode stops
      the replay with `BadInputBytes`, keeping what was applied before it. */
  function Replay(counter: U32, changes: seq<Change>): (r: (Result<()>, U32))
    ensures r.0.Ok? <==> AllCounterEntriesDecode(changes)
    ensures r.0.Err? ==> r.0.error == BadInputBytes
    decreases |changes|
  {
    if changes == [] then (Ok(()), counter)
    else
      assert forall i :: 1 <= i < |changes| ==> changes[i] == changes[1..][i - 1];
      if changes[0].0 == CounterField then
        match DecodeU32(changes[0].1)
        case None => (Err(BadInputBytes), counter)
        case Some(v) => Replay(v, changes[1..])
      else Replay(counter, changes[1..])
  }

  lemma {:induction false} ReplayConcat(counter: U32, a: seq<Change>, b: seq<Change>)
    ensures Replay(counter, a + b) ==
            if Replay(counter, a).0.Ok? then Replay(Replay(counter, a).1, b) else Replay(counter, a)
    decreases |a|
  {
    if a == [] {
      assert a + b == b;
    } else {
      assert (a + b)[0] == a[0] && (a + b)[1..] == a[1..] + b;
      if a[0].0 == CounterField {
        match DecodeU32(a[0].1)
        case None =>
        case Some(v) => ReplayConcat(v, a[1..], b);
      } else {
        ReplayConcat(counter, a[1..], b);
      }
    }
  }

  /** The value carried by the last `"counter"` entry, if there is one. */
  function LastCounterEntry(changes: seq<Change>): Option<Bytes> {
    if changes == [] then None
    else if changes[|changes| - 1].0 == CounterField then Some(changes[|changes| - 1].1)
    else LastCounterEntry(changes[..|changes| - 1])
  }

  /** The last `"counter"` entry wins; with none, the counter is untouched. */
  lemma {:induction false} ReplayLastWins(counter: U32, changes: seq<Change>)
    requires AllCounterEntriesDecode(changes)
    ensures LastCounterEntry(changes).None? ==> Replay(counter, changes).1 == counter
    ensures LastCounterEntry(changes).Some? ==>
              DecodeU32(LastCounterEntry(changes).value) == Some(Replay(counter, changes).1)
    decreases |changes|
  {
    if changes != [] {
      var init: seq<Change>, last: Change := changes[..|changes| - 1], changes[|changes| - 1];
      assert changes == init + [last];
      assert AllCounterEntriesDecode(init) by {
        forall i | 0 <= i < |init| && init[i].0 == CounterField ensures |init[i].1| == 4 {
          assert init[i] == changes[i];
        }
      }
      ReplayConcat(counter, init, [last]);
      ReplayLastWins(counter, init);
      assert |[last][1..]| == 0;
    }
  }

  /** Only `"counter"` entries, in order. */
  function CounterEntries(changes: seq<Change>): (r: seq<Change>)
    ensures forall i :: 0 <= i < |r| ==> r[i].0 == CounterField
  {
    if changes == [] then []
    else (if changes[0].0 == CounterField then [changes[0]] else []) + CounterEntries(changes[1..])
  }

  /** Entries under unknown names have no effect at all. */
  lemma {:induction false} ReplayIgnoresOtherNames(counter: U32, changes: seq<Change>)
    ensures Replay(counter, changes) == Replay(counter, CounterEntries(changes))
    decreases |changes|
  {
    if changes != [] {
      var rest := CounterEntries(changes[1..]);
      if changes[0].0 == CounterField {
        assert CounterEntries(changes) == [changes[0]] + rest;
        assert ([changes[0]] + rest)[0] == changes[0] && ([changes[0]] + rest)[1..] == rest;
        match DecodeU32(changes[0].1)
        case None =>
        case Some(v) => ReplayIgnoresOtherNames(v, changes[1..]);
      } else {
        assert CounterEntries(changes) == rest;
        ReplayIgnoresOtherNames(counter, changes[1..]);
      }
    }
  }

  /** A failing replay has applied exactly the entries before the first
      `"counter"` entry that does not decode. */
  lemma ReplayStopsAtFirstBadEntry(counter: U32, changes: seq<Change>, k: nat)
    requires k < |changes| && changes[k].0 == CounterField && |changes[k].1| != 4
    requires AllCounterEntriesDecode(changes[..k])
    ensures Replay(counter, changes) == (Err(BadInputBytes), Replay(counter, changes[..k]).1)
  {
    assert changes == changes[..k] + changes[k..];
    ReplayConcat(counter, changes[..k], changes[k..]);
    assert changes[k..][0] == changes[k];
  }

  // ---------------------------------------------------------------------------
  // The guard's difference: `StateGuard::drop`

  /** What a guard taken when the counter was `start` and released when it is
      `now` reports: nothing if the value is the same, otherwise the single
      entry `("counter", encoding of now)`. Replaying it on `start` gives `now`. */
  function Diff(start: U32, now: U32): (d: seq<Change>)
    ensures d == [] <==> start == now
    ensures Replay(start, d) == (Ok(()), now)
  {
    if start != now then
      assert [(CounterField, EncodeU32(now))][1..] == [];
      [(CounterField, EncodeU32(now))]
    else []
  }

  /** The change list `drop` builds before deciding whether to send it. */
  method GuardChanges(start: U32, now: U32) returns (changes: seq<Change>)
    ensures changes == [] <==> start == now
    ensures changes != [] ==> changes == [(CounterField, EncodeU32(now))]
    ensures Replay(start, changes) == (Ok(()), now)
  {
    changes := [];
    if now != start {
      changes := changes + [(CounterField, EncodeU32(now))];
    }
    assert changes == Diff(start, now);
  }

  /** The batches a released guard puts on the state-update channel. */
  function Batches(start: U32, now: U32): seq<seq<Change>> {
    if start == now then [] else [Diff(start, now)]
  }

  /** What a client mirror holds after applying `batches` in order, starting
      from `counter`. The client loop logs a failed batch and goes on with
      whatever that batch applied. */
  function ReplayBatches(counter: U32, batches: seq<seq<Change>>): U32
    decreases |batches|
  {
    if batches == [] then counter else ReplayBatches(Replay(counter, batches[0]).1, batches[1..])
  }

  lemma {:induction false} ReplayBatchesSnoc(counter: U32, batches: seq<seq<Change>>, last: seq<Change>)
    ensures ReplayBatches(counter, batches + [last]) == Replay(ReplayBatches(counter, batches), last).1
    decreases |batches|
  {
    if batches == [] {
      assert batches + [last] == [last];
      assert |[last][1..]| == 0;
    } else {
      assert (batches + [last])[0] == batches[0];
      assert (batches + [last])[1..] == batches[1..] + [last];
      ReplayBatchesSnoc(Replay(counter, batches[0]).1, batches[1..], last);
    }
  }

  /** Diff/apply round trip over a session: if a mirror that replayed the
      batches sent so far holds `start`, then after also replaying what a
      guard sends for `start` to `now` it holds `now`. */
  lemma SyncStep(origin: U32, sent: seq<seq<Change>>, start: U32, now: U32)
    requires ReplayBatches(origin, sent) == start
    ensures ReplayBatches(origin, sent + Batches(start, now)) == now
  {
    if start != now {
      ReplayBatchesSnoc(origin, sent, Diff(start, now));
    } else {
      assert sent + [] == sent;
    }
  }

  /** The batches of two guards released one after the other, 0 to 1 and then
      1 to 2, bring a mirror to 2 when applied in release order but leave it
      at 1 when the same two batches arrive the other way round, which the
      source allows: each batch is sent by a task of its own. */
  lemma ReorderedBatchesLeaveStaleMirror()
    ensures multiset(Batches(0, 1) + Batches(1, 2)) == multiset(Batches(1, 2) + Batches(0, 1))
    ensures ReplayBatches(0, Batches(0, 1) + Batches(1, 2)) == 2
    ensures ReplayBatches(0, Batches(1, 2) + Batches(0, 1)) == 1
  {
    SyncStep(0, Batches(0, 1), 1, 2);
    SyncStep(0, Batches(1, 2), 2, 1);
  }

  // ---------------------------------------------------------------------------
  // The server side: `CounterState`, `CounterConnectionState` and `CounterHandler`

  class CounterState {
    var counter: U32

    /** `CounterState::default()`. */
    constructor ()
      ensures counter == 0
    {
      counter := 0;
    }

    /** `apply_changes`, the client-side mirror update. */
    method ApplyChanges(changes: seq<Change>) returns (r: Result<()>)
      modifies this
      ensures (r, counter) == Replay(old(counter), changes)
    {
      var i := 0;
      while i < |changes|
        invariant 0 <= i <= |changes|
        invariant Replay(old(counter), changes) == Replay(counter, changes[i..])
      {
        assert changes[i..][0] == changes[i] && changes[i..][1..] == changes[i + 1..];
        var (field, value) := changes[i];
        if field == CounterField {
          var decoded := DecodeU32(value);
          if decoded.None? {
            return Err(BadInputBytes);
          }
          counter := decoded.value;
        }
        i := i + 1;
      }
      return Ok(());
    }
  }

  /** The precondition of `handle_rpc_call` for a given counter: an
      `increment` that would overflow the `u32` field, or a `decrement` below
      zero, aborts the handler task and is outside the model. */
  predicate Admissible(counter: U32, input: Bytes) {
    match DecodeCall(input)
    case None => true
    case Some(call) =>
      match DecodeU32(call.args)
      case None => true
      case Some(amount) =>
        (call.op == Increment ==> counter + amount < U32Limit) &&
        (call.op == Decrement ==> amount <= counter)
  }

  /** `handle_rpc_call` on a connection whose counter is `counter`: the reply
      and the counter afterwards. A request whose envelope or (for `increment`
      and `decrement`) arguments do not decode gets `BadInputBytes` and runs
      no operation; every other request gets the encoded value of the counter
      after the operation. */
  function Dispatch(counter: U32, input: Bytes): (r: (Result<Bytes>, U32))
    requires Admissible(counter, input)
    ensures r.0.Err? <==> DecodeCall(input).None? ||
                          (DecodeCall(input).value.op != Get && DecodeU32(DecodeCall(input).value.args).None?)
    ensures r.0.Err? ==> r.0.error == BadInputBytes && r.1 == counter
    ensures r.0.Ok? ==> DecodeU32(r.0.value) == Some(r.1)
    ensures DecodeCall(input).Some? && DecodeCall(input).value.op == Get ==> r.1 == counter
    ensures DecodeCall(input).Some? && DecodeCall(input).value.op != Get &&
            DecodeU32(DecodeCall(input).value.args).Some? ==>
              var amount := DecodeU32(DecodeCall(input).value.args).value;
              r.1 == if DecodeCall(input).value.op == Increment then counter + amount else counter - amount
  {
    match DecodeCall(input)
    case None => (Err(BadInputBytes), counter)
    case Some(call) =>
      match call.op
      case Get => (Ok(EncodeU32(counter)), counter)
      case Increment =>
        (match DecodeU32(call.args)
         case None => (Err(BadInputBytes), counter)
         case Some(amount) => (Ok(EncodeU32(counter + amount)), counter + amount))
      case Decrement =>
        (match DecodeU32(call.args)
         case None => (Err(BadInputBytes), counter)
         case Some(amount) => (Ok(EncodeU32(counter - amount)), counter - amount))
  }

  /** One connection's handler: the mutex-guarded state and the batches the
      guard has sent on the state-update channel, oldest first. */
  class CounterHandler {
    var state: CounterState
    var updates: seq<seq<Change>>

    /** A client mirror that started from the default state and applied every
        batch sent so far, in order, holds the server's value. */
    ghost predicate Valid()
      reads this, state
    {
      ReplayBatches(0, updates) == state.counter
    }

    /** `Handler::new`: default state, nothing sent yet. */
    constructor ()
      ensures Valid() && fresh(state)
      ensures state.counter == 0 && updates == []
    {
      state := new CounterState();
      updates := [];
    }

    /** Releasing the guard taken when the counter was `snapshot`. */
    method ReleaseGuard(snapshot: U32)
      requires ReplayBatches(0, updates) == snapshot
      modifies this`updates
      ensures updates == old(updates) + Batches(snapshot, state.counter)
      ensures Valid()
    {
      var changes := GuardChanges(snapshot, state.counter);
      SyncStep(0, updates, snapshot, state.counter);
      if changes == [] {
        assert updates + [] == updates;
        return;
      }
      updates := updates + [changes];
    }

    method Increment(amount: U32) returns (r: U32)
      requires Valid()
      requires state.counter + amount < U32Limit
      modifies this`updates, state
      ensures Valid()
      ensures state.counter == old(state.counter) + amount && r == state.counter
      ensures updates == old(updates) + (if amount == 0 then [] else [[(CounterField, EncodeU32(r))]])
    {
      var snapshot := state.counter;
      state.counter := state.counter + amount;
      r := state.counter;
      ReleaseGuard(snapshot);
    }

    method Decrement(amount: U32) returns (r: U32)
      requires Valid()
      requires amount <= state.counter
      modifies this`updates, state
      ensures Valid()
      ensures state.counter == old(state.counter) - amount && r == state.counter
      ensures updates == old(updates) + (if amount == 0 then [] else [[(CounterField, EncodeU32(r))]])
    {
      var snapshot := state.counter;
      state.counter := state.counter - amount;
      r := state.counter;
      ReleaseGuard(snapshot);
    }

    method Get() returns (r: U32)
      requires Valid()
      modifies this`updates
      ensures Valid()
      ensures r == state.counter && updates == old(updates)
    {
      var snapshot := state.counter;
      r := state.counter;
      ReleaseGuard(snapshot);
    }

    method HandleRpcCall(input: Bytes) returns (r: Result<Bytes>)
      requires Valid()
      requires Admissible(state.counter, input)
      modifies this`updates, state
      ensures Valid()
      ensures (r, state.counter) == Dispatch(old(state.counter), input)
      ensures updates == old(updates) + Batches(old(state.counter), state.counter)
    {
      var call := DecodeCall(input);
      if call.None? {
        assert updates + [] == updates;
        return Err(BadInputBytes);
      }
      match call.value.op {
        case Increment =>
          var args := DecodeU32(call.value.args);
          if args.None? {
            assert updates + [] == updates;
            return Err(BadInputBytes);
          }
          var result := Increment(args.value);
          r := Ok(EncodeU32(result));
        case Decrement =>
          var args := DecodeU32(call.value.args);
          if args.None? {
            assert updates + [] == updates;
            return Err(BadInputBytes);
          }
          var result := Decrement(args.value);
          r := Ok(EncodeU32(result));
        case Get =>
          var result := Get();
          assert updates + [] == updates;
          r := Ok(EncodeU32(result));
      }
    }
  }

  /** The sequential form of the test in `main`: `n` increments of one, each
      on the same connection, raise the counter by `n`, and the client mirror
      stays in step after each of them. */
  method IncrementRepeatedly(handler: CounterHandler, n: nat)
    requires handler.Valid()
    requires handler.state.counter + n < U32Limit
    modifies handler`updates, handler.state
    ensures handler.Valid()
    ensures handler.state.counter == old(handler.state.counter) + n
  {
    var i := 0;
    while i < n
      invariant 0 <= i <= n
      invariant handler.Valid()
      invariant handler.state.counter == old(handler.state.counter) + i
    {
      var _ := handler.Increment(1);
      i := i + 1;
    }
  }

  // ---------------------------------------------------------------------------
  // The client side: `CounterClient`

  /** The sending end of a channel, as an opaque handle. */
  type Channel = nat

  class CounterClient {
    var shutdown: Option<Channel>
    var rpcTx: Option<Channel>

    /** `new` / `new_self_signed`: not connected. */
    constructor ()
      ensures shutdown == None && rpcTx == None
    {
      shutdown := None;
      rpcTx := None;
    }

    /** The end of `connect`, once the runtime has handed back its channels. */
    method Connect(shutdownTx: Channel, rpcChannel: Channel)
      modifies this
      ensures shutdown == Some(shutdownTx) && rpcTx == Some(rpcChannel)
    {
      shutdown := Some(shutdownTx);
      rpcTx := Some(rpcChannel);
    }

    /** `disconnect` takes the shutdown sender and signals on it; a second
        call finds nothing and signals nothing. The RPC channel is kept. */
    method Disconnect() returns (signalled: Option<Channel>)
      modifies this
      ensures signalled == old(shutdown) && shutdown == None && rpcTx == old(rpcTx)
    {
      signalled := shutdown;
      shutdown := None;
    }

    /** `handle_rpc_call` up to the hand-off: without an RPC channel the call
        fails with `ClientNotConnected`; otherwise it submits on that channel
        an envelope the server decodes back to `(op, args)`. */
    function Submit(op: Method, args: Bytes): (r: Result<(Channel, Bytes)>)
      reads this
      ensures r.Err? <==> rpcTx.None?
      ensures r.Err? ==> r.error == ClientNotConnected
      ensures r.Ok? ==> r.value.0 == rpcTx.value && DecodeCall(r.value.1) == Some(RpcCall(op, args))
    {
      match rpcTx
      case None => Err(ClientNotConnected)
      case Some(channel) => Ok((channel, EncodeCall(RpcCall(op, args))))
    }
  }

  /** The typed wrappers' handling of the reply: an error passes through, an
      output that is not a `u32` becomes `BadOutputBytes`. */
  function DecodeReply(reply: Result<Bytes>): (r: Result<U32>)
    ensures reply.Err? ==> r == Err(reply.error)
    ensures reply.Ok? ==> (r.Ok? <==> |reply.value| == 4)
    ensures reply.Ok? && r.Err? ==> r.error == BadOutputBytes
    ensures r.Ok? ==> reply == Ok(EncodeU32(r.value))
  {
    match reply
    case Err(e) => Err(e)
    case Ok(bytes) =>
      match DecodeU32(bytes)
      case None => Err(BadOutputBytes)
      case Some(v) => Ok(v)
  }

  /** The arguments each wrapper sends: `IncrementArgs`/`DecrementArgs` hold
      one `u32`; `get` sends none. */
  function ArgsFor(op: Method, amount: U32): Bytes {
    if op == Get then [] else EncodeU32(amount)
  }

  /** A call made through the client wrappers and served by `handle_rpc_call`
      returns to the caller the counter the server holds afterwards:
      `increment(a)` yields old + a, `decrement(a)` old - a, `get` old. */
  lemma WrapperRoundTrip(counter: U32, op: Method, amount: U32)
    requires op == Increment ==> counter + amount < U32Limit
    requires op == Decrement ==> amount <= counter
    ensures var input := EncodeCall(RpcCall(op, ArgsFor(op, amount)));
            Admissible(counter, input) &&
            var r := Dispatch(counter, input);
            DecodeReply(r.0) == Ok(r.1) &&
            r.1 == (match op
                    case Increment => counter + amount
                    case Decrement => counter - amount
                    case Get => counter)
  {
    var input := EncodeCall(RpcCall(op, ArgsFor(op, amount)));
    assert DecodeCall(input) == Some(RpcCall(op, ArgsFor(op, amount)));
    if op != Get {
      assert DecodeU32(ArgsFor(op, amount)) == Some(amount);
    }
  }
}

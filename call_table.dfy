/** The client's call-slot table (src/client.rs, `active_rpc_calls`) as a
    value: 256 slots indexed by call id, each empty or holding the completion
    channel of the caller waiting on that id. This module states what the two
    table-changing branches of the client loop do to it and proves, over any
    sequence of loop steps, that every caller is answered at most once and is
    never lost. The class in module RpcClient is proved against these
    functions. */
module CallTable {
  import opened Wire

  /** The completion channel (`oneshot::Sender`) of one caller. */
  type Waiter = nat

  type Slots = seq<Option<Waiter>>

  /** A value sent on a caller's completion channel. */
  datatype Reply = Reply(to: Waiter, result: Result<Bytes>)

  /** How far an outgoing request got: serialised and sent, not serialised,
      or serialised but not sent. */
  datatype SendOutcome = Sent | SerialiseFailed | SendFailed

  /** One step of the client loop, as far as the table is concerned:
      a request from the application, a decoded response from the server,
      or anything else that arrives (an undecodable or non-binary message, a
      read error, a state change, an event). */
  datatype Step =
    | Call(waiter: Waiter, outcome: SendOutcome)
    | Response(id: CallId, output: Result<Bytes>)
    | Other

  function EmptySlots(): (s: Slots)
    ensures |s| == MaxCalls && forall i :: 0 <= i < |s| ==> s[i].None?
  {
    seq(MaxCalls, _ => None)
  }

  /** `iter().position(|x| x.is_none())`: the lowest empty slot. */
  function FirstFree(s: Slots): (r: Option<nat>)
    ensures r.Some? ==> r.value < |s| && s[r.value].None? &&
                        forall j :: 0 <= j < r.value ==> s[j].Some?
    ensures r.None? <==> forall j :: 0 <= j < |s| ==> s[j].Some?
  {
    if s == [] then None
    else if s[0].None? then Some(0)
    else match FirstFree(s[1..])
      case None => None
      case Some(k) => Some(k + 1)
  }

  // ---------------------------------------------------------------------------
  // Who is waiting

  function Held(o: Option<Waiter>): multiset<Waiter> {
    if o.Some? then multiset{o.value} else multiset{}
  }

  /** The callers the table is holding, with multiplicity. */
  function Pending(s: Slots): multiset<Waiter> {
    if s == [] then multiset{} else Held(s[0]) + Pending(s[1..])
  }

  function ReplyTo(r: Option<Reply>): multiset<Waiter> {
    if r.Some? then multiset{r.value.to} else multiset{}
  }

  function Answered(rs: seq<Reply>): multiset<Waiter> {
    if rs == [] then multiset{} else multiset{rs[0].to} + Answered(rs[1..])
  }

  /** The callers that made a request in `steps`, with multiplicity. */
  function Callers(steps: seq<Step>): multiset<Waiter> {
    if steps == [] then multiset{} else Callers(steps[..|steps| - 1]) + Caller(steps[|steps| - 1])
  }

  function Caller(step: Step): multiset<Waiter> {
    if step.Call? then multiset{step.waiter} else multiset{}
  }

  /** Overwriting one slot trades the caller it held for the new one. */
  lemma {:induction false} PendingUpdate(s: Slots, i: nat, x: Option<Waiter>)
    requires i < |s|
    ensures Pending(s[i := x]) + Held(s[i]) == Pending(s) + Held(x)
  {
    var t := s[i := x];
    if i > 0 {
      var u := s[1..];
      assert t[0] == s[0] && s[i] == u[i - 1] && t[1..] == u[i - 1 := x];
      PendingUpdate(u, i - 1, x);
      var before, after := Pending(u), Pending(u[i - 1 := x]);
      assert Pending(t) == Held(s[0]) + after;
      assert Pending(s) == Held(s[0]) + before;
      forall w ensures (Pending(t) + Held(s[i]))[w] == (Pending(s) + Held(x))[w] {
        assert (after + Held(u[i - 1]))[w] == (before + Held(x))[w];
      }
    } else {
      assert t[1..] == s[1..];
    }
  }

  /** A table holds no more callers than it has slots. */
  lemma {:induction false} PendingBound(s: Slots)
    ensures |Pending(s)| <= |s|
  {
    if s != [] {
      PendingBound(s[1..]);
    }
  }

  // ---------------------------------------------------------------------------
  // The two branches of the loop that touch the table

  /** A request from the application (src/client.rs:169-211). The caller is
      registered in the lowest empty slot only when the request was both
      serialised and sent; otherwise the table is unchanged and the caller is
      answered at once with the matching error. */
  function StartCall(s: Slots, w: Waiter, outcome: SendOutcome): (r: (Slots, Option<Reply>))
    ensures |r.0| == |s|
    ensures r.1.Some? <==> FirstFree(s).None? || outcome != Sent
    ensures r.1.Some? ==>
              (r.0 == s && r.1.value.to == w &&
               r.1.value.result == Err(if FirstFree(s).None? then TooManyCallsInFlight
                                       else if outcome == SerialiseFailed then BadInputBytes
                                       else ClientNotConnected))
    ensures r.1.None? ==>
              (var id := FirstFree(s).value;
               s[id].None? && r.0 == s[id := Some(w)] &&
               forall j :: 0 <= j < id ==> s[j].Some?)
    ensures Pending(r.0) + ReplyTo(r.1) == Pending(s) + multiset{w}
  {
    var free := FirstFree(s);
    if free.None? then (s, Some(Reply(w, Err(TooManyCallsInFlight))))
    else if outcome == SerialiseFailed then (s, Some(Reply(w, Err(BadInputBytes))))
    else if outcome == SendFailed then (s, Some(Reply(w, Err(ClientNotConnected))))
    else
      assert outcome == Sent;
      PendingUpdate(s, free.value, Some(w));
      (s[free.value := Some(w)], None)
  }

  /** A response from the server (src/client.rs:224-233): the caller waiting
      on `id`, if any, gets `output` and its slot is emptied; a response for an
      empty slot is dropped. */
  function Deliver(s: Slots, id: CallId, output: Result<Bytes>): (r: (Slots, Option<Reply>))
    requires |s| == MaxCalls
    ensures |r.0| == |s|
    ensures r.1.Some? <==> s[id].Some?
    ensures s[id].Some? ==> r.0 == s[id := None] && r.1 == Some(Reply(s[id].value, output))
    ensures s[id].None? ==> r.0 == s
    ensures Pending(r.0) + ReplyTo(r.1) == Pending(s)
  {
    if s[id].Some? then
      PendingUpdate(s, id, None);
      (s[id := None], Some(Reply(s[id].value, output)))
    else (s, None)
  }

  function Apply(s: Slots, step: Step): (r: (Slots, Option<Reply>))
    requires |s| == MaxCalls
    ensures |r.0| == MaxCalls
  {
    match step
    case Call(w, outcome) => StartCall(s, w, outcome)
    case Response(id, output) => Deliver(s, id, output)
    case Other => (s, None)
  }

  function AsSent(r: Option<Reply>): (rs: seq<Reply>)
    ensures Answered(rs) == ReplyTo(r)
  {
    if r.Some? then [r.value] else []
  }

  /** The table and the replies sent, in order, after the loop has taken
      `steps` one after the other. */
  function Run(s: Slots, steps: seq<Step>): (r: (Slots, seq<Reply>))
    requires |s| == MaxCalls
    ensures |r.0| == MaxCalls
  {
    if steps == [] then (s, [])
    else
      var before := Run(s, steps[..|steps| - 1]);
      var last := Apply(before.0, steps[|steps| - 1]);
      (last.0, before.1 + AsSent(last.1))
  }

  /** Running one more step continues the run. */
  lemma RunSnoc(s: Slots, steps: seq<Step>, step: Step)
    requires |s| == MaxCalls
    ensures Run(s, steps + [step]).0 == Apply(Run(s, steps).0, step).0
    ensures Run(s, steps + [step]).1 == Run(s, steps).1 + AsSent(Apply(Run(s, steps).0, step).1)
  {
    assert (steps + [step])[..|steps|] == steps;
  }

  lemma AnsweredConcat(a: seq<Reply>, b: seq<Reply>)
    ensures Answered(a + b) == Answered(a) + Answered(b)
  {
    if a == [] {
      assert a + b == b;
    } else {
      assert (a + b)[0] == a[0] && (a + b)[1..] == a[1..] + b;
      AnsweredConcat(a[1..], b);
    }
  }

  /** No caller is lost or answered twice: over any run, the callers still
      waiting plus the callers answered are exactly the callers waiting at the
      start plus the callers that made a request. */
  lemma {:induction false} Conservation(s: Slots, steps: seq<Step>)
    requires |s| == MaxCalls
    ensures Pending(Run(s, steps).0) + Answered(Run(s, steps).1) == Pending(s) + Callers(steps)
  {
    if steps != [] {
      var init := steps[..|steps| - 1];
      var step := steps[|steps| - 1];
      var before := Run(s, init);
      var last := Apply(before.0, step);
      assert Run(s, steps) == (last.0, before.1 + AsSent(last.1));
      Conservation(s, init);
      AnsweredConcat(before.1, AsSent(last.1));
      ApplyConservation(before.0, step);
      Rebalance(Pending(last.0), ReplyTo(last.1), Pending(before.0), Caller(step),
                Answered(before.1), Pending(s), Callers(init));
    }
  }

  /** The multiset step of Conservation: the last step left `a` waiting and
      answered `e` out of what was waiting before it (`c`) and its caller
      (`g`); the steps before it answered `b` out of what the run started
      with (`f`) and their callers (`d`). */
  lemma Rebalance(a: multiset<Waiter>, e: multiset<Waiter>, c: multiset<Waiter>, g: multiset<Waiter>,
                  b: multiset<Waiter>, f: multiset<Waiter>, d: multiset<Waiter>)
    requires a + e == c + g
    requires c + b == f + d
    ensures a + (b + e) == f + (d + g)
  {
    forall w ensures (a + (b + e))[w] == (f + (d + g))[w] {
      assert (a + e)[w] == (c + g)[w];
      assert (c + b)[w] == (f + d)[w];
    }
  }

  lemma ApplyConservation(s: Slots, step: Step)
    requires |s| == MaxCalls
    ensures Pending(Apply(s, step).0) + ReplyTo(Apply(s, step).1) == Pending(s) + Caller(step)
  {
  }

  /** Exactly-once delivery: starting from the empty table, a caller that made
      one request is, after any run, either still waiting in exactly one slot
      or has been answered exactly once, never both. In particular no two
      waiting callers share a call id. */
  lemma ExactlyOnce(steps: seq<Step>, w: Waiter)
    requires Callers(steps)[w] == 1
    ensures Pending(Run(EmptySlots(), steps).0)[w] + Answered(Run(EmptySlots(), steps).1)[w] == 1
  {
    var s := EmptySlots();
    var r := Run(s, steps);
    EmptyPending(s);
    Conservation(s, steps);
    assert Pending(r.0) + Answered(r.1) == Callers(steps);
    assert (Pending(r.0) + Answered(r.1))[w] == Pending(r.0)[w] + Answered(r.1)[w];
  }

  /** ExactlyOnce for every caller at once. */
  lemma AllExactlyOnce(steps: seq<Step>)
    ensures forall w :: Callers(steps)[w] == 1 ==>
              Pending(Run(EmptySlots(), steps).0)[w] + Answered(Run(EmptySlots(), steps).1)[w] == 1
  {
    forall w | Callers(steps)[w] == 1
      ensures Pending(Run(EmptySlots(), steps).0)[w] + Answered(Run(EmptySlots(), steps).1)[w] == 1
    {
      ExactlyOnce(steps, w);
    }
  }

  lemma {:induction false} EmptyPending(s: Slots)
    requires forall i :: 0 <= i < |s| ==> s[i].None?
    ensures Pending(s) == multiset{}
  {
    if s != [] {
      EmptyPending(s[1..]);
    }
  }
}

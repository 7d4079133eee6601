/**
 * Outbound calls of cli/src/rpc.rs: `call` takes an id, sends the request and only then puts its
 * callback into the shared table; `dispatch_with_partial` takes a callback out and runs it.
 *
 * Sending and inserting are separate steps, so replies can be dispatched in between.
 */
module RpcCalls {
  import opened Prelude

  const ID_SPACE: nat := 0x1_0000_0000

  // Ids are a wrapping 32-bit counter; a call is named by how many ids were taken before it.
  function IdOf(call: nat): nat {
    call % ID_SPACE
  }

  // `ran` is the history of callbacks run, each with the id of the reply it was run on, and
  // `registered` that of calls inserted. `poisoned` is the mutex, after a reply without an id
  // made `dispatch_with_partial` panic under the lock.
  datatype State = State(taken: nat, sent: set<nat>, calls: map<nat, nat>,
                         registered: set<nat>, ran: seq<(nat, nat)>, poisoned: bool)

  datatype Step =
    | TakeStreamId
    | SendRequest(delivered: bool)
    | Register(call: nat)
    | Dispatch(id: Option<nat>)

  const INITIAL := State(0, {}, map[], {}, [], false)

  predicate Enabled(s: State, step: Step) {
    step.Register? ==> step.call in s.sent
  }

  function Next(s: State, step: Step): State
    requires Enabled(s, step)
  {
    match step
    case TakeStreamId => s.(taken := s.taken + 1)
    case SendRequest(delivered) => s.(taken := s.taken + 1, sent := if delivered then s.sent + {s.taken} else s.sent)
    case Register(call) =>
      if s.poisoned then s.(sent := s.sent - {call})
      else s.(sent := s.sent - {call}, calls := s.calls[IdOf(call) := call], registered := s.registered + {call})
    case Dispatch(None) => s.(poisoned := true)
    case Dispatch(Some(id)) =>
      if s.poisoned || id !in s.calls then s
      else s.(calls := s.calls - {id}, ran := s.ran + [(s.calls[id], id)])
  }

  // The state after `steps`, if every step was enabled.
  function Exec(steps: seq<Step>): Option<State> {
    if steps == [] then Some(INITIAL)
    else
      var last := |steps| - 1;
      match Exec(steps[..last])
      case None => None
      case Some(s) => if Enabled(s, steps[last]) then Some(Next(s, steps[last])) else None
  }

  function Answered(s: State): set<nat> {
    set k | 0 <= k < |s.ran| :: s.ran[k].0
  }

  ghost predicate Inv(s: State) {
    && (forall c :: c in s.sent || c in s.registered ==> c < s.taken)
    && s.sent !! s.registered
    && (forall k :: 0 <= k < |s.ran| ==> s.ran[k].0 in s.registered && s.ran[k].0 == s.ran[k].1)
    && (forall j, k :: 0 <= j < k < |s.ran| ==> s.ran[j].0 != s.ran[k].0)
    && (forall id :: id in s.calls <==> id in s.registered && id !in Answered(s))
    && (forall id :: id in s.calls ==> s.calls[id] == id)
  }

  lemma AnsweredGrows(s: State, step: Step)
    requires Inv(s) && Enabled(s, step)
    ensures Answered(Next(s, step)) ==
      Answered(s) +
        if step.Dispatch? && step.id.Some? && !s.poisoned && step.id.value in s.calls then {step.id.value} else {}
  {
    var s' := Next(s, step);
    if s'.ran != s.ran {
      assert s'.ran[|s.ran|].0 == step.id.value;
      forall c | c in Answered(s) ensures c in Answered(s') {
        var k :| 0 <= k < |s.ran| && s.ran[k].0 == c;
        assert s'.ran[k].0 == c;
      }
    }
  }

  lemma RanIsAnswered(s: State)
    ensures forall k :: 0 <= k < |s.ran| ==> s.ran[k].0 in Answered(s)
  {
  }

  lemma StepKeepsInv(s: State, step: Step)
    requires Inv(s) && Enabled(s, step) && Next(s, step).taken <= ID_SPACE
    ensures Inv(Next(s, step))
  {
    AnsweredGrows(s, step);
    RanIsAnswered(s);
    hide Answered;
    assert forall call :: call in s.sent ==> IdOf(call) == call;
    hide IdOf;
  }

  lemma {:induction false} RunInv(steps: seq<Step>)
    requires Exec(steps).Some? && Exec(steps).value.taken <= ID_SPACE
    ensures Inv(Exec(steps).value)
  {
    if steps == [] {
    } else {
      RunInv(steps[..|steps| - 1]);
      StepKeepsInv(Exec(steps[..|steps| - 1]).value, steps[|steps| - 1]);
    }
  }

  // Over every interleaving that takes at most 2^32 ids, no callback runs twice, each runs only
  // on a reply bearing its own id, and the table is exactly the registered unanswered calls.
  lemma CallbacksRunOnce(steps: seq<Step>)
    requires Exec(steps).Some? && Exec(steps).value.taken <= ID_SPACE
    ensures var s := Exec(steps).value;
      && (forall j, k :: 0 <= j < k < |s.ran| ==> s.ran[j].0 != s.ran[k].0)
      && (forall k :: 0 <= k < |s.ran| ==> s.ran[k].1 == s.ran[k].0 % 0x1_0000_0000)
      && s.calls == map c | c in s.registered && c !in Answered(s) :: c
  {
    RunInv(steps);
  }

  // ---------------------------------------------------------------------------------------------
  // Which calls can be registered

  // How many ids the steps take from the counter.
  function Taken(steps: seq<Step>): nat {
    if steps == [] then 0
    else
      var n := |steps| - 1;
      Taken(steps[..n]) + if steps[n].TakeStreamId? || steps[n].SendRequest? then 1 else 0
  }

  // Step `i` sends the request of `call`, and the request gets out.
  ghost predicate DeliveredAt(steps: seq<Step>, call: nat, i: nat) {
    i < |steps| && steps[i] == SendRequest(true) && Taken(steps[..i]) == call
  }

  // A call waits for its registration, or is registered, only if its request was delivered; and a
  // delivered one waits until its registration comes.
  lemma {:induction false} RegisteredWasSent(steps: seq<Step>, call: nat)
    requires Exec(steps).Some?
    ensures var s := Exec(steps).value;
      && s.taken == Taken(steps)
      && (call in s.sent || call in s.registered ==> exists i :: DeliveredAt(steps, call, i))
      && (Register(call) !in steps && (exists i :: DeliveredAt(steps, call, i)) ==> call in s.sent)
  {
    if steps == [] {
    } else {
      var n := |steps| - 1;
      var front, last := steps[..n], steps[n];
      RegisteredWasSent(front, call);
      assert steps == front + [last];
      DeliveredSnoc(steps, call);
      hide DeliveredAt, IdOf;
    }
  }

  lemma DeliveredSnoc(steps: seq<Step>, call: nat)
    requires steps != []
    ensures var n := |steps| - 1;
      (exists i :: DeliveredAt(steps, call, i)) <==>
        (exists i :: DeliveredAt(steps[..n], call, i)) || (steps[n] == SendRequest(true) && Taken(steps[..n]) == call)
  {
    hide Taken;
    var n := |steps| - 1;
    assert forall i :: 0 <= i <= n ==> steps[..n][..i] == steps[..i];
    if i: nat :| DeliveredAt(steps, call, i) {
      if i < n { assert DeliveredAt(steps[..n], call, i); }
    }
    if i: nat :| DeliveredAt(steps[..n], call, i) { assert DeliveredAt(steps, call, i); }
    if steps[n] == SendRequest(true) && Taken(steps[..n]) == call { assert DeliveredAt(steps, call, n); }
  }

  // ---------------------------------------------------------------------------------------------
  // Which calls are resolved

  // A reply to `call` was dispatched after its registration, the mutex being intact.
  ghost predicate RepliedAt(steps: seq<Step>, call: nat, i: nat, j: nat) {
    && i < j < |steps| && steps[i] == Register(call) && steps[j] == Dispatch(Some(call))
    && forall k :: 0 <= k < j ==> steps[k] != Dispatch(None)
  }

  ghost predicate RegisteredAt(steps: seq<Step>, call: nat, i: nat) {
    i < |steps| && steps[i] == Register(call) && forall k :: 0 <= k < i ==> steps[k] != Dispatch(None)
  }

  lemma {:induction false} HistoryOf(steps: seq<Step>, call: nat)
    requires Exec(steps).Some? && Exec(steps).value.taken <= ID_SPACE
    ensures var s := Exec(steps).value;
      && (s.poisoned <==> exists k :: 0 <= k < |steps| && steps[k] == Dispatch(None))
      && (call in s.registered <==> exists i :: RegisteredAt(steps, call, i))
      && (call in Answered(s) <==> exists i, j :: RepliedAt(steps, call, i, j))
  {
    if steps == [] { return; }
    var n := |steps| - 1;
    var front, last := steps[..n], steps[n];
    HistoryOf(front, call);
    RunInv(front);
    RunInv(steps);
    var s, s' := Exec(front).value, Exec(steps).value;
    assert steps == front + [last];
    forall i | RegisteredAt(front, call, i) ensures RegisteredAt(steps, call, i) {}
    forall i, j | RepliedAt(front, call, i, j) ensures RepliedAt(steps, call, i, j) {}
    forall i | RegisteredAt(steps, call, i)
      ensures RegisteredAt(front, call, i) || (i == n && last == Register(call) && !s.poisoned) {}
    forall i, j | RepliedAt(steps, call, i, j)
      ensures RepliedAt(front, call, i, j) ||
              (j == n && last == Dispatch(Some(call)) && !s.poisoned && RegisteredAt(front, call, i)) {}
    if last == Register(call) && !s.poisoned { assert RegisteredAt(steps, call, n); }
    AnsweredGrows(s, last);
    if last == Dispatch(Some(call)) && !s.poisoned && call in s.registered {
      var i :| RegisteredAt(front, call, i);
      assert RepliedAt(steps, call, i, n);
    }
    if last == Dispatch(None) { assert steps[n] == Dispatch(None); }
    if s.poisoned { var k :| 0 <= k < n && front[k] == Dispatch(None); assert steps[k] == Dispatch(None); }
  }

  // A call's callback runs exactly when a reply with its id is dispatched after the callback was
  // registered. In particular a reply dispatched before that, in the window between sending the
  // request and inserting the callback, resolves nothing.
  lemma ResolvedIffRepliedAfterRegistration(steps: seq<Step>, call: nat)
    requires Exec(steps).Some? && Exec(steps).value.taken <= ID_SPACE
    ensures call in Answered(Exec(steps).value) <==> exists i, j :: RepliedAt(steps, call, i, j)
  {
    HistoryOf(steps, call);
  }

  // The window is real: this run answers call 0 once, and leaves it pending.
  lemma EarlyReplyIsLost()
    ensures var run := [SendRequest(true), Dispatch(Some(0)), Register(0)];
      Exec(run) == Some(State(1, {}, map[0 := 0], {0}, [], false))
  {
    var s1 := State(1, {0}, map[], {}, [], false);
    assert INITIAL.sent + {0} == {0};
    ExecSnoc([], SendRequest(true));
    assert [] + [SendRequest(true)] == [SendRequest(true)];
    assert Exec([SendRequest(true)]) == Some(s1);
    ExecSnoc([SendRequest(true)], Dispatch(Some(0)));
    assert [SendRequest(true)] + [Dispatch(Some(0))] == [SendRequest(true), Dispatch(Some(0))];
    ExecSnoc([SendRequest(true), Dispatch(Some(0))], Register(0));
    assert [SendRequest(true), Dispatch(Some(0))] + [Register(0)]
        == [SendRequest(true), Dispatch(Some(0)), Register(0)];
    assert Next(s1, Register(0)) == State(1, {}, map[0 := 0], {0}, [], false);
  }

  lemma ExecSnoc(front: seq<Step>, last: Step)
    requires Exec(front).Some? && Enabled(Exec(front).value, last)
    ensures Exec(front + [last]) == Some(Next(Exec(front).value, last))
  {
    assert (front + [last])[..|front|] == front;
  }

  // ---------------------------------------------------------------------------------------------
  // The table as an object

  class CallTable {
    var taken: nat
    var calls: map<nat, nat>
    var poisoned: bool
    ghost var sent: set<nat>
    ghost var registered: set<nat>
    ghost var ran: seq<(nat, nat)>

    ghost function Now(): State
      reads this
    {
      State(taken, sent, calls, registered, ran, poisoned)
    }

    constructor ()
      ensures Now() == INITIAL
    {
      taken, calls, poisoned := 0, map[], false;
      sent, registered, ran := {}, {}, [];
    }

    // The first half of `call`: the request leaves, or the receiver of the result is dropped.
    method Begin(delivered: bool) returns (call: nat)
      modifies this
      ensures call == old(taken) && Now() == Next(old(Now()), SendRequest(delivered))
    {
      call := taken;
      taken := taken + 1;
      if delivered { sent := sent + {call}; }
    }

    // The second half of `call`.
    method Insert(call: nat)
      requires call in sent
      modifies this
      ensures Now() == Next(old(Now()), Register(call))
    {
      sent := sent - {call};
      if !poisoned {
        calls := calls[IdOf(call) := call];
        registered := registered + {call};
      }
    }

    // A message without a method; `run` is the callback it hands the outcome to.
    method DispatchReply(id: Option<nat>) returns (run: Option<nat>)
      modifies this
      ensures Now() == Next(old(Now()), Dispatch(id))
      ensures run.Some? <==> |ran| > |old(ran)|
      ensures run.Some? ==> id.Some? && ran == old(ran) + [(run.value, id.value)]
    {
      run := None;
      if id.None? {
        poisoned := true;
      } else if !poisoned && id.value in calls {
        run := Some(calls[id.value]);
        calls := calls - {id.value};
        ran := ran + [(run.value, id.value)];
      }
    }
  }
}

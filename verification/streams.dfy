/**
 * The stream multiplexer of cli/src/rpc.rs: the table of stream records behind one mutex, the
 * `write_loop` tasks spawned by `write`, and the write halves handed back and forth between them.
 *
 * Every lock scope is one atomic step, and so is every resumption of `write_all` and `shutdown`.
 * A run is any interleaving of such steps over any number of streams and tasks.
 */
module StreamProtocol {
  import opened Prelude

  type Segment = seq<byte>

  // A record of the table. `write` is the parked write half, named by its index in `pipes`.
  datatype Rec = Rec(write: Option<nat>, q: seq<Segment>, ended: bool)

  // Where a task stands: about to take the lock, writing its items, about to call `shutdown`,
  // or returned.
  datatype Pc = Check | Write | Close | Done

  // A `write_loop` activation, or (with `pc == Close` from the start) the tail of `remove`.
  // The first of `items` may be the unwritten suffix of a segment.
  datatype Task = Task(id: nat, w: nat, items: seq<Segment>, pc: Pc)

  // What the peer of a write half has seen.
  datatype Pipe = Pipe(out: seq<byte>, shutdowns: nat)

  // `halves`, `accepted` and `lossy` are history: the write half inserted under an id, the
  // segments `write` queued for it, and the ids one of whose writes failed.
  datatype State = State(
    recs: map<nat, Rec>, tasks: seq<Task>, pipes: seq<Pipe>,
    halves: map<nat, nat>, accepted: map<nat, seq<Segment>>, lossy: set<nat>)

  datatype Step =
    | Insert(id: nat)
    | Send(id: nat, buf: Segment)
    | Remove(id: nat)
    | TakeLock(t: nat)
    | WriteSome(t: nat, k: nat)
    | NextItem(t: nat)
    | WriteFails(t: nat)
    | Shutdown(t: nat)

  const INITIAL := State(map[], [], [], map[], map[], {})

  function Accepted(s: State, id: nat): seq<Segment> {
    if id in s.accepted then s.accepted[id] else []
  }

  predicate At(s: State, t: nat, pc: Pc) {
    t < |s.tasks| && s.tasks[t].pc == pc && s.tasks[t].w < |s.pipes|
  }

  // What the scheduler may run next.
  predicate Enabled(s: State, step: Step) {
    match step
    case Insert(_) => true
    case Send(_, _) => true
    case Remove(_) => true
    case TakeLock(t) => At(s, t, Check) || (At(s, t, Write) && s.tasks[t].items == [])
    case WriteSome(t, k) => At(s, t, Write) && s.tasks[t].items != [] && 1 <= k <= |s.tasks[t].items[0]|
    case NextItem(t) => At(s, t, Write) && s.tasks[t].items != [] && s.tasks[t].items[0] == []
    case WriteFails(t) => At(s, t, Write) && s.tasks[t].items != []
    case Shutdown(t) => At(s, t, Close)
  }

  function Next(s: State, step: Step): State
    requires Enabled(s, step)
  {
    match step
    case Insert(id) => InsertStep(s, id)
    case Send(id, buf) => SendStep(s, id, buf)
    case Remove(id) => RemoveStep(s, id)
    case TakeLock(t) => LockStep(s, t)
    case WriteSome(t, k) => WriteStep(s, t, k)
    case NextItem(t) => WithTask(s, t, s.tasks[t].(items := s.tasks[t].items[1..]))
    case WriteFails(t) =>
      // the inner `break` drops the rest of the drained items and takes the lock again
      WithTask(s, t, s.tasks[t].(items := [], pc := Check)).(lossy := s.lossy + {s.tasks[t].id})
    case Shutdown(t) =>
      var w := s.tasks[t].w;
      WithTask(s, t, s.tasks[t].(pc := Done))
        .(pipes := s.pipes[w := s.pipes[w].(shutdowns := s.pipes[w].shutdowns + 1)])
  }

  function WithTask(s: State, t: nat, task: Task): State
    requires t < |s.tasks|
  {
    s.(tasks := s.tasks[t := task])
  }

  // `write_all` hands over the next `k` bytes of the current item.
  function WriteStep(s: State, t: nat, k: nat): State
    requires At(s, t, Write) && s.tasks[t].items != [] && k <= |s.tasks[t].items[0]|
  {
    var w, items := s.tasks[t].w, s.tasks[t].items;
    WithTask(s, t, s.tasks[t].(items := [items[0][k..]] + items[1..]))
      .(pipes := s.pipes[w := s.pipes[w].(out := s.pipes[w].out + items[0][..k])])
  }

  function InsertStep(s: State, id: nat): State {
    s.(recs := s.recs[id := Rec(Some(|s.pipes|), [], false)],
       pipes := s.pipes + [Pipe([], 0)],
       halves := s.halves[id := |s.pipes|],
       accepted := s.accepted[id := []])
  }

  function SendStep(s: State, id: nat, buf: Segment): State {
    if id !in s.recs then s
    else
      var rec := s.recs[id];
      var s1 := s.(accepted := s.accepted[id := Accepted(s, id) + [buf]]);
      match rec.write
      case None => s1.(recs := s.recs[id := rec.(q := rec.q + [buf])])
      case Some(w) => s1.(recs := s.recs[id := rec.(write := None, q := rec.q + [buf])],
                          tasks := s.tasks + [Task(id, w, [], Check)])
  }

  function RemoveStep(s: State, id: nat): State {
    if id !in s.recs then s
    else
      match s.recs[id].write
      case Some(w) => s.(recs := s.recs - {id}, tasks := s.tasks + [Task(id, w, [], Close)])
      case None => s.(recs := s.recs[id := s.recs[id].(ended := true)])
  }

  // The locked block at the head of `write_loop`.
  function LockStep(s: State, t: nat): State
    requires t < |s.tasks|
  {
    var task := s.tasks[t];
    if task.id !in s.recs then WithTask(s, t, task.(pc := Close))
    else
      var rec := s.recs[task.id];
      if rec.q == [] then
        if rec.ended then WithTask(s, t, task.(pc := Close)).(recs := s.recs - {task.id})
        else WithTask(s, t, task.(pc := Done)).(recs := s.recs[task.id := rec.(write := Some(task.w))])
      else
        WithTask(s, t, task.(items := rec.q, pc := Write)).(recs := s.recs[task.id := rec.(q := task.items)])
  }

  // ---------------------------------------------------------------------------------------------
  // Runs

  ghost predicate Run(s: State, steps: seq<Step>, s': State)
    decreases |steps|
  {
    if steps == [] then s == s'
    else Enabled(s, steps[0]) && Run(Next(s, steps[0]), steps[1..], s')
  }

  // Stream ids come from a counter, so no id is inserted twice.
  ghost predicate FreshIds(used: set<nat>, steps: seq<Step>)
    decreases |steps|
  {
    steps == [] ||
    (if steps[0].Insert? then steps[0].id !in used && FreshIds(used + {steps[0].id}, steps[1..])
     else FreshIds(used, steps[1..]))
  }

  // ---------------------------------------------------------------------------------------------
  // The inductive invariant of one stream, with a witness for where its write half is.

  datatype Place = Absent | Parked | Held(t: nat) | Closed

  // No other stream can reach this stream's write half, and only the place's task works on it.
  ghost predicate Separate(s: State, id: nat, p: Place) {
    && (forall t :: 0 <= t < |s.tasks| ==> s.tasks[t].w < |s.pipes|)
    && (forall j :: j in s.recs && s.recs[j].write.Some? ==> s.recs[j].write.value < |s.pipes|)
    && (id in s.halves ==> s.halves[id] < |s.pipes|)
    && (id in s.halves ==>
          forall t :: 0 <= t < |s.tasks| && s.tasks[t].w == s.halves[id] ==> s.tasks[t].id == id)
    && (id in s.halves ==>
          forall j :: j in s.recs && s.recs[j].write == Some(s.halves[id]) ==> j == id)
    && (forall t :: 0 <= t < |s.tasks| && s.tasks[t].id == id && s.tasks[t].pc != Done ==> p == Held(t))
  }

  // All there is to know about one stream.
  datatype View = View(rec: Option<Rec>, task: Task, pipe: Pipe, sent: seq<Segment>, lossy: bool)

  function ViewOf(s: State, id: nat, p: Place): View
    requires id in s.halves && s.halves[id] < |s.pipes|
  {
    View(if id in s.recs then Some(s.recs[id]) else None,
         if p.Held? && p.t < |s.tasks| then s.tasks[p.t] else Task(id, s.halves[id], [], Done),
         s.pipes[s.halves[id]], Accepted(s, id), id in s.lossy)
  }

  // Bytes accepted and not yet written: what the loop holds, then what the record queues.
  function Unwritten(v: View): seq<byte> {
    Flatten(v.task.items) + if v.rec.Some? then Flatten(v.rec.value.q) else []
  }

  ghost predicate Good(v: View, id: nat, w: nat, p: Place) {
    && v.task.id == id && v.task.w == w
    && (v.task.pc != Write ==> v.task.items == [])
    && (!v.lossy ==> v.pipe.out + Unwritten(v) == Flatten(v.sent))
    && v.pipe.shutdowns == (if p.Closed? then 1 else 0)
    && match p
       case Absent => false
       case Parked => v.rec == Some(Rec(Some(w), [], false)) && v.task.pc == Done
       case Closed => v.rec == None && v.task.pc == Done
       case Held(_) =>
         v.task.pc != Done &&
         if v.task.pc == Close then v.rec == None else v.rec.Some? && v.rec.value.write == None
  }

  ghost predicate Inv(s: State, id: nat, p: Place) {
    && Separate(s, id, p)
    && (p.Held? ==> p.t < |s.tasks|)
    && if id in s.halves then Good(ViewOf(s, id, p), id, s.halves[id], p)
       else p == Absent && id !in s.recs && id !in s.lossy && Accepted(s, id) == []
  }

  // The place of stream `id` after a step.
  function NextPlace(s: State, id: nat, p: Place, step: Step): Place
    requires Enabled(s, step)
  {
    match step
    case Insert(i) => if i == id then Parked else p
    case Send(i, _) => if i == id && p.Parked? then Held(|s.tasks|) else p
    case Remove(i) => if i == id && p.Parked? then Held(|s.tasks|) else p
    case TakeLock(t) =>
      if s.tasks[t].id == id && id in s.recs && s.recs[id].q == [] && !s.recs[id].ended then Parked else p
    case Shutdown(t) => if s.tasks[t].id == id then Closed else p
    case _ => p
  }

  lemma InsertKeepsInv(s: State, id: nat, p: Place, i: nat)
    requires Inv(s, id, p) && i !in s.halves
    ensures Inv(InsertStep(s, i), id, if i == id then Parked else p)
    ensures i != id && id in s.halves ==> ViewOf(InsertStep(s, i), id, p) == ViewOf(s, id, p)
  {
  }

  // --- the callers' lock scopes, on this stream

  lemma SendParked(s: State, id: nat, buf: Segment)
    requires Inv(s, id, Parked)
    ensures Inv(SendStep(s, id, buf), id, Held(|s.tasks|))
  {
    var s' := SendStep(s, id, buf);
    assert Separate(s', id, Held(|s.tasks|)) by { hide Good; ParkedRec(s, id); }
    SendParkedGood(s, id, buf);
    hide Separate, Good, ViewOf;
  }

  lemma ParkedRec(s: State, id: nat)
    requires Inv(s, id, Parked)
    ensures id in s.halves && id in s.recs && s.recs[id] == Rec(Some(s.halves[id]), [], false)
  {
    hide Separate, Unwritten;
  }

  lemma SendParkedGood(s: State, id: nat, buf: Segment)
    requires Inv(s, id, Parked)
    ensures var s' := SendStep(s, id, buf);
      && s'.halves == s.halves && id in s.halves && s.halves[id] < |s'.pipes| && |s'.tasks| == |s.tasks| + 1
      && Good(ViewOf(s', id, Held(|s.tasks|)), id, s.halves[id], Held(|s.tasks|))
  {
    ParkedRec(s, id);
    var s', v := SendStep(s, id, buf), ViewOf(s, id, Parked);
    assert [] + [buf] == [buf];
    assert Flatten([buf]) == buf + Flatten([]) == buf;
    var v' := v.(rec := Some(Rec(None, [buf], false)),
                 task := Task(id, s.halves[id], [], Check), sent := v.sent + [buf]);
    assert ViewOf(s', id, Held(|s.tasks|)) == v';
    FlattenSnoc(v.sent, buf);
    hide Separate;
  }

  lemma SendQueued(s: State, id: nat, p: Place, buf: Segment)
    requires Inv(s, id, p) && p != Parked && id in s.recs
    ensures Inv(SendStep(s, id, buf), id, p)
  {
    hide Flatten;
    var s', v := SendStep(s, id, buf), ViewOf(s, id, p);
    var v' := v.(rec := Some(s.recs[id].(q := s.recs[id].q + [buf])), sent := v.sent + [buf]);
    assert ViewOf(s', id, p) == v';
    FlattenSnoc(v.sent, buf);
    FlattenSnoc(s.recs[id].q, buf);
  }

  lemma RemoveParked(s: State, id: nat)
    requires Inv(s, id, Parked)
    ensures Inv(RemoveStep(s, id), id, Held(|s.tasks|))
  {
  }

  lemma RemoveHeld(s: State, id: nat, p: Place)
    requires Inv(s, id, p) && p != Parked && id in s.recs
    ensures Inv(RemoveStep(s, id), id, p)
  {
  }

  // --- the same on another stream

  // A stream that looks the same is as good as before, as long as it stays separate.
  lemma SameView(s: State, s': State, id: nat, p: Place)
    requires Inv(s, id, p) && Separate(s', id, p) && s'.halves == s.halves && |s'.tasks| >= |s.tasks|
    requires id in s.halves ==> ViewOf(s', id, p) == ViewOf(s, id, p)
    requires id !in s.halves ==> id !in s'.recs && id !in s'.lossy && Accepted(s', id) == []
    ensures Inv(s', id, p)
  {
    hide Separate, ViewOf, Good, Accepted;
  }

  lemma SendElsewhere(s: State, id: nat, p: Place, i: nat, buf: Segment)
    requires Inv(s, id, p) && (i != id || i !in s.recs)
    ensures Inv(SendStep(s, i, buf), id, p)
    ensures id in s.halves ==> ViewOf(SendStep(s, i, buf), id, p) == ViewOf(s, id, p)
  {
    hide Good;
    var s' := SendStep(s, i, buf);
    assert Separate(s', id, p) by { hide ViewOf, Accepted; }
    assert id in s.halves ==> ViewOf(s', id, p) == ViewOf(s, id, p) by { hide Separate; }
    assert id !in s.halves ==> Accepted(s', id) == [] by { hide Separate, ViewOf; }
    hide ViewOf, Separate, Accepted;
    SameView(s, s', id, p);
  }

  lemma RemoveElsewhere(s: State, id: nat, p: Place, i: nat)
    requires Inv(s, id, p) && (i != id || i !in s.recs)
    ensures Inv(RemoveStep(s, i), id, p)
    ensures id in s.halves ==> ViewOf(RemoveStep(s, i), id, p) == ViewOf(s, id, p)
  {
    hide Good;
    SameView(s, RemoveStep(s, i), id, p);
  }

  // A task of another stream changes its own state and record, and at most its own pipe.
  lemma OtherTaskMoves(s: State, s': State, id: nat, p: Place, t: nat)
    requires Inv(s, id, p) && t < |s.tasks| && s.tasks[t].id != id
    requires s'.halves == s.halves && s'.accepted == s.accepted && (id in s'.lossy <==> id in s.lossy)
    requires |s'.tasks| == |s.tasks| && s'.tasks[t].id == s.tasks[t].id && s'.tasks[t].w == s.tasks[t].w
    requires forall u :: 0 <= u < |s.tasks| && u != t ==> s'.tasks[u] == s.tasks[u]
    requires |s'.pipes| == |s.pipes|
    requires forall w :: 0 <= w < |s.pipes| && w != s.tasks[t].w ==> s'.pipes[w] == s.pipes[w]
    requires forall j :: j != s.tasks[t].id ==> (j in s'.recs <==> j in s.recs)
    requires forall j :: j != s.tasks[t].id && j in s.recs ==> s'.recs[j] == s.recs[j]
    requires s.tasks[t].id in s'.recs ==>
               s'.recs[s.tasks[t].id].write == Some(s.tasks[t].w) ||
               (s.tasks[t].id in s.recs && s'.recs[s.tasks[t].id].write == s.recs[s.tasks[t].id].write)
    ensures Inv(s', id, p)
    ensures id in s.halves ==> ViewOf(s', id, p) == ViewOf(s, id, p)
  {
    if p.Held? { HeldIsOwn(s, id, p); }
    hide Good;
    SameView(s, s', id, p);
  }

  lemma HeldIsOwn(s: State, id: nat, p: Place)
    requires Inv(s, id, p) && p.Held?
    ensures p.t < |s.tasks| && s.tasks[p.t].id == id
  {
    hide Separate, Unwritten;
  }

  lemma LockElsewhere(s: State, id: nat, p: Place, t: nat)
    requires Inv(s, id, p) && t < |s.tasks| && s.tasks[t].id != id
    ensures Inv(LockStep(s, t), id, p)
    ensures id in s.halves ==> ViewOf(LockStep(s, t), id, p) == ViewOf(s, id, p)
  {
    OtherTaskMoves(s, LockStep(s, t), id, p, t) by { hide Inv; }
    hide Inv;
  }

  lemma LoopElsewhere(s: State, id: nat, p: Place, step: Step)
    requires Inv(s, id, p) && Enabled(s, step)
    requires step.WriteSome? || step.NextItem? || step.WriteFails? || step.Shutdown?
    requires s.tasks[step.t].id != id
    ensures Inv(Next(s, step), id, p)
    ensures id in s.halves ==> ViewOf(Next(s, step), id, p) == ViewOf(s, id, p)
  {
    OtherTaskMoves(s, Next(s, step), id, p, step.t) by { hide Inv; }
    hide Inv;
  }

  // --- the loop of this stream

  lemma LockParks(s: State, id: nat, t: nat)
    requires Inv(s, id, Held(t)) && LockReady(s, id, t) && s.recs[id].q == [] && !s.recs[id].ended
    ensures Inv(LockStep(s, t), id, Parked)
  {
  }

  lemma LockCloses(s: State, id: nat, t: nat)
    requires Inv(s, id, Held(t)) && LockReady(s, id, t) && s.recs[id].q == [] && s.recs[id].ended
    ensures Inv(LockStep(s, t), id, Held(t))
  {
  }

  lemma LockDrains(s: State, id: nat, t: nat)
    requires Inv(s, id, Held(t)) && LockReady(s, id, t) && s.recs[id].q != []
    ensures Inv(LockStep(s, t), id, Held(t))
  {
  }

  predicate LockReady(s: State, id: nat, t: nat) {
    && t < |s.tasks| && s.tasks[t].id == id && id in s.recs
    && (s.tasks[t].pc == Check || s.tasks[t].pc == Write) && s.tasks[t].items == []
  }

  lemma WriteKeepsInv(s: State, id: nat, t: nat, k: nat)
    requires Inv(s, id, Held(t)) && Enabled(s, WriteSome(t, k)) && s.tasks[t].id == id
    ensures Inv(WriteStep(s, t, k), id, Held(t))
  {
  }

  lemma NextItemKeepsInv(s: State, id: nat, t: nat)
    requires Inv(s, id, Held(t)) && Enabled(s, NextItem(t)) && s.tasks[t].id == id
    ensures Inv(Next(s, NextItem(t)), id, Held(t))
  {
    var s', v := Next(s, NextItem(t)), ViewOf(s, id, Held(t));
    assert ViewOf(s', id, Held(t)) == v.(task := v.task.(items := v.task.items[1..]));
    assert Flatten(v.task.items[1..]) == Flatten(v.task.items);
  }

  lemma FailureKeepsInv(s: State, id: nat, t: nat)
    requires Inv(s, id, Held(t)) && Enabled(s, WriteFails(t)) && s.tasks[t].id == id
    ensures Inv(Next(s, WriteFails(t)), id, Held(t))
  {
    hide Flatten;
    var s', v := Next(s, WriteFails(t)), ViewOf(s, id, Held(t));
    assert ViewOf(s', id, Held(t)) == v.(task := v.task.(items := [], pc := Check), lossy := true);
  }

  lemma ShutdownKeepsInv(s: State, id: nat, t: nat)
    requires Inv(s, id, Held(t)) && Enabled(s, Shutdown(t)) && s.tasks[t].id == id
    ensures Inv(Next(s, Shutdown(t)), id, Closed)
  {
    hide Flatten;
    var s', v := Next(s, Shutdown(t)), ViewOf(s, id, Held(t));
    assert ViewOf(s', id, Closed) == v.(task := Task(id, s.halves[id], [], Done), pipe := v.pipe.(shutdowns := 1));
  }

  lemma CallKeepsInv(s: State, id: nat, p: Place, step: Step)
    requires Inv(s, id, p) && (step.Insert? || step.Send? || step.Remove?)
    requires step.Insert? ==> step.id !in s.halves
    ensures Inv(Next(s, step), id, NextPlace(s, id, p, step))
  {
    if step.Insert? {
      InsertKeepsInv(s, id, p, step.id);
    } else if step.Send? {
      if step.id != id || id !in s.recs { SendElsewhere(s, id, p, step.id, step.buf); }
      else if p.Parked? { SendParked(s, id, step.buf); }
      else { SendQueued(s, id, p, step.buf); }
    } else {
      if step.id != id || id !in s.recs { RemoveElsewhere(s, id, p, step.id); }
      else if p.Parked? { RemoveParked(s, id); }
      else { RemoveHeld(s, id, p); }
    }
  }

  lemma LockKeepsInv(s: State, id: nat, p: Place, t: nat)
    requires Inv(s, id, p) && Enabled(s, TakeLock(t))
    ensures Inv(LockStep(s, t), id, NextPlace(s, id, p, TakeLock(t)))
  {
    if s.tasks[t].id != id { LockElsewhere(s, id, p, t); }
    else if s.recs[id].q != [] { LockDrains(s, id, t); }
    else if s.recs[id].ended { LockCloses(s, id, t); }
    else { LockParks(s, id, t); }
  }

  lemma StepKeepsInv(s: State, id: nat, p: Place, step: Step)
    requires Inv(s, id, p) && Enabled(s, step)
    requires step.Insert? ==> step.id !in s.halves
    ensures Inv(Next(s, step), id, NextPlace(s, id, p, step))
  {
    if step.Insert? || step.Send? || step.Remove? { CallKeepsInv(s, id, p, step); }
    else if step.TakeLock? { LockKeepsInv(s, id, p, step.t); }
    else if s.tasks[step.t].id != id { LoopElsewhere(s, id, p, step); }
    else if step.WriteSome? { WriteKeepsInv(s, id, step.t, step.k); }
    else if step.NextItem? { NextItemKeepsInv(s, id, step.t); }
    else if step.WriteFails? { FailureKeepsInv(s, id, step.t); }
    else { ShutdownKeepsInv(s, id, step.t); }
  }

  lemma {:induction false} RunKeepsInv(s: State, id: nat, p: Place, steps: seq<Step>, s': State) returns (p': Place)
    requires Inv(s, id, p) && Run(s, steps, s') && FreshIds(s.halves.Keys, steps)
    ensures Inv(s', id, p')
    decreases |steps|
  {
    hide Inv, Next, NextPlace;
    if steps == [] {
      p' := p;
    } else {
      StepKeepsInv(s, id, p, steps[0]);
      HalvesGrow(s, steps[0]);
      p' := RunKeepsInv(Next(s, steps[0]), id, NextPlace(s, id, p, steps[0]), steps[1..], s');
    }
  }

  lemma HalvesGrow(s: State, step: Step)
    requires Enabled(s, step)
    ensures if step.Insert? then Next(s, step).halves.Keys == s.halves.Keys + {step.id}
            else Next(s, step).halves.Keys == s.halves.Keys
  {
  }

  // A state some run from the empty table reaches, the inserted ids being distinct.
  ghost predicate Reachable(s: State) {
    exists steps :: Run(INITIAL, steps, s) && FreshIds({}, steps)
  }

  lemma ReachableInv(s: State, id: nat) returns (p: Place)
    requires Reachable(s)
    ensures Inv(s, id, p)
  {
    var steps :| Run(INITIAL, steps, s) && FreshIds({}, steps);
    assert INITIAL.halves.Keys == {};
    p := RunKeepsInv(INITIAL, id, Absent, steps, s);
  }

  // ---------------------------------------------------------------------------------------------
  // What every interleaving keeps

  // How many unfinished tasks hold write half `w`.
  function Holders(tasks: seq<Task>, w: nat): nat {
    if tasks == [] then 0
    else Holders(tasks[1..], w) + if tasks[0].pc != Done && tasks[0].w == w then 1 else 0
  }

  // Items that tasks of stream `id` have taken off its queue and not yet written.
  function Undrained(tasks: seq<Task>, id: nat): seq<byte> {
    if tasks == [] then []
    else (if tasks[0].pc != Done && tasks[0].id == id then Flatten(tasks[0].items) else []) + Undrained(tasks[1..], id)
  }

  lemma {:induction false} NoHolder(tasks: seq<Task>, id: nat, w: nat)
    requires forall t :: 0 <= t < |tasks| && tasks[t].w == w ==> tasks[t].pc == Done
    requires forall t :: 0 <= t < |tasks| && tasks[t].id == id ==> tasks[t].pc == Done
    ensures Holders(tasks, w) == 0 && Undrained(tasks, id) == []
  {
    if tasks == [] {
    } else {
      NoHolder(tasks[1..], id, w);
    }
  }

  lemma {:induction false} OneHolder(tasks: seq<Task>, id: nat, w: nat, only: nat)
    requires only < |tasks| && tasks[only].id == id && tasks[only].w == w && tasks[only].pc != Done
    requires forall t :: 0 <= t < |tasks| && t != only && tasks[t].w == w ==> tasks[t].pc == Done
    requires forall t :: 0 <= t < |tasks| && t != only && tasks[t].id == id ==> tasks[t].pc == Done
    ensures Holders(tasks, w) == 1 && Undrained(tasks, id) == Flatten(tasks[only].items)
  {
    if only == 0 { NoHolder(tasks[1..], id, w); } else { OneHolder(tasks[1..], id, w, only - 1); }
  }

  lemma CountHolders(s: State, id: nat, p: Place)
    requires Inv(s, id, p) && id in s.halves
    ensures Holders(s.tasks, s.halves[id]) == (if p.Held? then 1 else 0)
    ensures Undrained(s.tasks, id) == Flatten(ViewOf(s, id, p).task.items)
  {
    if p.Held? { OneHolder(s.tasks, id, s.halves[id], p.t); } else { NoHolder(s.tasks, id, s.halves[id]); }
  }

  // ---------------------------------------------------------------------------------------------
  // What the callers asked for, read off the steps of a run

  // The segments of the writes to `id` made while it had a record.
  ghost function Sent(s: State, steps: seq<Step>, id: nat): seq<Segment>
    decreases |steps|
  {
    if steps == [] || !Enabled(s, steps[0]) then []
    else
      (if steps[0].Send? && steps[0].id == id && id in s.recs then [steps[0].buf] else [])
      + Sent(Next(s, steps[0]), steps[1..], id)
  }

  // Some write of a task of stream `id` failed.
  ghost predicate Failed(s: State, steps: seq<Step>, id: nat)
    decreases |steps|
  {
    steps != [] && Enabled(s, steps[0]) &&
    ((steps[0].WriteFails? && s.tasks[steps[0].t].id == id) || Failed(Next(s, steps[0]), steps[1..], id))
  }

  // The segments of all writes to `id`.
  function Bufs(steps: seq<Step>, id: nat): seq<Segment> {
    if steps == [] then []
    else (if steps[0].Send? && steps[0].id == id then [steps[0].buf] else []) + Bufs(steps[1..], id)
  }

  lemma AcceptedStep(s: State, id: nat, step: Step)
    requires Enabled(s, step) && (step.Insert? && step.id == id ==> Accepted(s, id) == [])
    ensures Accepted(Next(s, step), id) == Accepted(s, id) +
      (if step.Send? && step.id == id && id in s.recs then [step.buf] else [])
  {
    assert Accepted(s, id) + [] == Accepted(s, id);
  }

  lemma LossyStep(s: State, id: nat, step: Step)
    requires Enabled(s, step)
    ensures id in Next(s, step).lossy <==> id in s.lossy || (step.WriteFails? && s.tasks[step.t].id == id)
  {
  }

  lemma HistoryStep(s: State, id: nat, p: Place, step: Step)
    requires Inv(s, id, p) && Enabled(s, step) && (step.Insert? ==> step.id !in s.halves)
    ensures Accepted(Next(s, step), id) == Accepted(s, id) +
      (if step.Send? && step.id == id && id in s.recs then [step.buf] else [])
    ensures id in Next(s, step).lossy <==> id in s.lossy || (step.WriteFails? && s.tasks[step.t].id == id)
  {
    NotYetAccepted(s, id, p);
    hide Inv, Next, Accepted;
    AcceptedStep(s, id, step);
    LossyStep(s, id, step);
  }

  lemma NotYetAccepted(s: State, id: nat, p: Place)
    requires Inv(s, id, p)
    ensures id !in s.halves ==> Accepted(s, id) == []
  {
    hide Separate;
  }

  lemma {:induction false} HistoryOfRun(s: State, id: nat, p: Place, steps: seq<Step>, s': State)
    requires Inv(s, id, p) && Run(s, steps, s') && FreshIds(s.halves.Keys, steps)
    ensures Accepted(s', id) == Accepted(s, id) + Sent(s, steps, id)
    ensures id in s'.lossy <==> id in s.lossy || Failed(s, steps, id)
    decreases |steps|
  {
    hide Inv, Next, NextPlace, Enabled, Accepted;
    if steps == [] {
      assert Accepted(s, id) + [] == Accepted(s, id);
    } else {
      var next := Next(s, steps[0]);
      StepKeepsInv(s, id, p, steps[0]);
      HalvesGrow(s, steps[0]);
      HistoryStep(s, id, p, steps[0]);
      HistoryOfRun(next, id, NextPlace(s, id, p, steps[0]), steps[1..], s');
      var now := if steps[0].Send? && steps[0].id == id && id in s.recs then [steps[0].buf] else [];
      Regroup(Accepted(s, id), now, Sent(next, steps[1..], id));
    }
  }

  // The recorded history is what the steps say.
  lemma HistoryIsRun(steps: seq<Step>, s: State, id: nat)
    requires Run(INITIAL, steps, s) && FreshIds({}, steps)
    ensures Reachable(s)
    ensures Accepted(s, id) == Sent(INITIAL, steps, id)
    ensures id in s.lossy <==> Failed(INITIAL, steps, id)
  {
    AbsentAtFirst(id);
    assert INITIAL.halves.Keys == {};
    HistoryOfRun(INITIAL, id, Absent, steps, s);
    hide Run, FreshIds, Sent, Failed;
    assert [] + Sent(INITIAL, steps, id) == Sent(INITIAL, steps, id);
  }

  ghost predicate NoRemove(steps: seq<Step>, id: nat) {
    forall i :: 0 <= i < |steps| ==> steps[i] != Remove(id)
  }

  lemma RecordStaysStep(s: State, id: nat, step: Step)
    requires id in s.recs && !s.recs[id].ended && Enabled(s, step) && step != Remove(id)
    requires step.Insert? ==> step.id != id
    ensures id in Next(s, step).recs && !Next(s, step).recs[id].ended
  {
  }

  lemma {:induction false} RecordStays(s: State, id: nat, p: Place, steps: seq<Step>, s': State)
    requires Inv(s, id, p) && id in s.halves && id in s.recs && !s.recs[id].ended
    requires Run(s, steps, s') && FreshIds(s.halves.Keys, steps) && NoRemove(steps, id)
    ensures id in s'.recs && !s'.recs[id].ended && Sent(s, steps, id) == Bufs(steps, id)
    decreases |steps|
  {
    hide Inv, Next, NextPlace, Enabled;
    if steps == [] {
    } else {
      StepKeepsInv(s, id, p, steps[0]);
      HalvesGrow(s, steps[0]);
      RecordStaysStep(s, id, steps[0]);
      assert NoRemove(steps[1..], id);
      RecordStays(Next(s, steps[0]), id, NextPlace(s, id, p, steps[0]), steps[1..], s');
    }
  }

  // A stream just inserted takes every segment sent to it until it is removed, whatever the state of
  // its loop.
  lemma NothingIsDropped(s: State, id: nat, steps: seq<Step>, s': State)
    requires Reachable(s) && id !in s.halves
    requires Run(Next(s, Insert(id)), steps, s') && FreshIds(s.halves.Keys + {id}, steps) && NoRemove(steps, id)
    ensures id in s'.recs && !s'.recs[id].ended
    ensures Accepted(s', id) == Bufs(steps, id)
  {
    var p := ReachableInv(s, id);
    var next := Next(s, Insert(id));
    StepKeepsInv(s, id, p, Insert(id));
    assert Accepted(next, id) == [] && next.halves.Keys == s.halves.Keys + {id};
    hide Inv, Next, NextPlace, Run, FreshIds, Accepted;
    RecordStays(next, id, Parked, steps, s');
    HistoryOfRun(next, id, Parked, steps, s');
    assert [] + Bufs(steps, id) == Bufs(steps, id);
  }

  lemma EndingStays(s: State, id: nat, step: Step)
    requires Ending(s, id) && Enabled(s, step) && (step.Insert? ==> step.id !in s.halves)
    ensures Ending(Next(s, step), id)
  {
  }

  lemma {:induction false} EndingForGood(s: State, id: nat, steps: seq<Step>, s': State)
    requires Ending(s, id) && Run(s, steps, s') && FreshIds(s.halves.Keys, steps)
    ensures Ending(s', id)
    decreases |steps|
  {
    hide Next, Enabled, Ending;
    if steps == [] {
    } else {
      HalvesGrow(s, steps[0]);
      EndingStays(s, id, steps[0]);
      EndingForGood(Next(s, steps[0]), id, steps[1..], s');
    }
  }

  lemma RemoveEnds(s: State, id: nat)
    requires id in s.halves && (id in s.recs && s.recs[id].write.Some? ==> !s.recs[id].ended)
    ensures Next(s, Remove(id)).halves == s.halves && Ending(Next(s, Remove(id)), id)
  {
  }

  lemma ParkedIsOpen(s: State, id: nat, p: Place)
    requires Inv(s, id, p) && id in s.halves && id in s.recs && s.recs[id].write.Some?
    ensures !s.recs[id].ended
  {
    hide Separate, Unwritten;
  }

  // A removed stream is ending for good: its record goes or is marked ended, and its write half is
  // never parked again.
  lemma RemoveIsFinal(s: State, id: nat, steps: seq<Step>, s': State)
    requires Reachable(s) && id in s.halves
    requires Run(Next(s, Remove(id)), steps, s') && FreshIds(s.halves.Keys, steps)
    ensures id in s'.halves && (id in s'.recs ==> s'.recs[id].ended && s'.recs[id].write.None?)
  {
    var p := ReachableInv(s, id);
    var next := Next(s, Remove(id));
    StepKeepsInv(s, id, p, Remove(id));
    hide Inv, Next, NextPlace, Run, FreshIds;
    if id in s.recs && s.recs[id].write.Some? { ParkedIsOpen(s, id, p); }
    RemoveEnds(s, id);
    EndingForGood(next, id, steps, s');
    var p' := RunKeepsInv(next, id, NextPlace(s, id, p, Remove(id)), steps, s');
    if id in s'.recs && s'.recs[id].write.Some? { ParkedIsOpen(s', id, p'); }
  }

  // Bytes written, then the items the loop holds, then the record's queue, are the segments sent to
  // the stream in order, as long as none of its writes failed.
  lemma BytesInOrder(steps: seq<Step>, s: State, id: nat)
    requires Run(INITIAL, steps, s) && FreshIds({}, steps) && id in s.halves && !Failed(INITIAL, steps, id)
    ensures s.halves[id] < |s.pipes|
    ensures s.pipes[s.halves[id]].out + Undrained(s.tasks, id) + (if id in s.recs then Flatten(s.recs[id].q) else [])
         == Flatten(Sent(INITIAL, steps, id))
  {
    HistoryIsRun(steps, s, id);
    hide Sent, Failed;
    var p := ReachableInv(s, id);
    CountHolders(s, id, p);
  }

  // A write half is parked, or held by one unfinished task, or shut down, and never two of these;
  // parked means nothing is queued and no end was asked for.
  lemma OnePlace(s: State, id: nat)
    requires Reachable(s) && id in s.halves
    ensures s.halves[id] < |s.pipes|
    ensures (if id in s.recs && s.recs[id].write.Some? then 1 else 0)
          + Holders(s.tasks, s.halves[id]) + s.pipes[s.halves[id]].shutdowns == 1
    ensures id in s.recs && s.recs[id].write.Some? ==>
              s.recs[id].write.value == s.halves[id] && s.recs[id].q == [] && !s.recs[id].ended
  {
    var p := ReachableInv(s, id);
    CountHolders(s, id, p);
  }

  // A shut-down pipe carries all that was sent, and the record is gone: shutdown never overtakes
  // data.
  lemma ShutdownIsLast(steps: seq<Step>, s: State, id: nat)
    requires Run(INITIAL, steps, s) && FreshIds({}, steps)
    requires id in s.halves && s.halves[id] < |s.pipes| && s.pipes[s.halves[id]].shutdowns > 0
    ensures s.pipes[s.halves[id]].shutdowns == 1 && id !in s.recs && Holders(s.tasks, s.halves[id]) == 0
    ensures !Failed(INITIAL, steps, id) ==> s.pipes[s.halves[id]].out == Flatten(Sent(INITIAL, steps, id))
  {
    HistoryIsRun(steps, s, id);
    hide Sent, Failed;
    var p := ReachableInv(s, id);
    CountHolders(s, id, p);
  }

  // ---------------------------------------------------------------------------------------------
  // What is written when writes fail

  // The way of the data: written, taken off the queue, queued; and all that was accepted.
  datatype Flow = Flow(out: seq<byte>, items: seq<Segment>, q: seq<Segment>, sent: seq<Segment>)

  function FlowOf(v: View): Flow {
    Flow(v.pipe.out, v.task.items, if v.rec.Some? then v.rec.value.q else [], v.sent)
  }

  // The accepted segments are those drained in `batches`, then the queue; and of each batch a
  // prefix was written.
  ghost predicate CutShort(f: Flow, batches: seq<seq<Segment>>, pieces: seq<seq<byte>>) {
    && |pieces| == |batches| && f.out == Flatten(pieces) && f.sent == Flatten(batches) + f.q
    && forall i :: 0 <= i < |pieces| ==> pieces[i] <= Flatten(batches[i])
  }

  // Of the batch being written, the rest is what the loop holds.
  ghost predicate Batched(f: Flow, batches: seq<seq<Segment>>, pieces: seq<seq<byte>>) {
    && CutShort(f, batches, pieces)
    && (f.items != [] ==>
          pieces != [] && pieces[|pieces| - 1] + Flatten(f.items) == Flatten(batches[|batches| - 1]))
  }

  ghost predicate Wrote(f: Flow, k: nat, f': Flow) {
    && f.items != [] && k <= |f.items[0]|
    && f' == f.(out := f.out + f.items[0][..k], items := [f.items[0][k..]] + f.items[1..])
  }

  // How one step moves the data of a stream.
  ghost predicate Moves(f: Flow, f': Flow) {
    || f' == f
    || (exists buf: Segment :: f' == f.(q := f.q + [buf], sent := f.sent + [buf]))
    || (f.items == [] && f' == f.(items := f.q, q := []))
    || (exists k :: Wrote(f, k, f'))
    || (f.items != [] && f.items[0] == [] && f' == f.(items := f.items[1..]))
    || f' == f.(items := [])
  }

  lemma AcceptKeepsBatched(f: Flow, buf: Segment, batches: seq<seq<Segment>>, pieces: seq<seq<byte>>)
    requires Batched(f, batches, pieces)
    ensures Batched(f.(q := f.q + [buf], sent := f.sent + [buf]), batches, pieces)
  {
    hide Flatten;
  }

  lemma DrainKeepsBatched(f: Flow, batches: seq<seq<Segment>>, pieces: seq<seq<byte>>)
    requires Batched(f, batches, pieces) && f.items == []
    ensures Batched(f.(items := f.q, q := []), batches + [f.q], pieces + [[]])
  {
    FlattenSnoc(batches, f.q);
    FlattenSnoc(pieces, []);
    hide Flatten;
    assert Flatten(batches) + f.q + [] == Flatten(batches) + f.q && f.out + [] == f.out;
    assert [] + Flatten(f.q) == Flatten(f.q);
  }

  lemma FlattenExtended(pieces: seq<seq<byte>>, extra: seq<byte>)
    requires pieces != []
    ensures var n := |pieces| - 1;
      Flatten(pieces[..n] + [pieces[n] + extra]) == Flatten(pieces) + extra
  {
    hide *;
    var n := |pieces| - 1;
    FlattenSnoc(pieces[..n], pieces[n] + extra);
    FlattenSnoc(pieces[..n], pieces[n]);
    assert pieces == pieces[..n] + [pieces[n]];
    Prefix(Flatten(pieces[..n]), pieces[n], extra);
  }

  lemma FlattenCut(items: seq<Segment>, k: nat)
    requires items != [] && k <= |items[0]|
    ensures Flatten(items) == items[0][..k] + Flatten([items[0][k..]] + items[1..])
  {
    var rest := [items[0][k..]] + items[1..];
    assert rest[1..] == items[1..];
    assert Flatten(rest) == items[0][k..] + Flatten(items[1..]);
    hide Flatten;
    assert items[0][..k] + (items[0][k..] + Flatten(items[1..])) == items[0] + Flatten(items[1..]);
  }

  lemma WriteKeepsBatched(f: Flow, k: nat, batches: seq<seq<Segment>>, pieces: seq<seq<byte>>)
    returns (pieces': seq<seq<byte>>)
    requires Batched(f, batches, pieces) && f.items != [] && k <= |f.items[0]|
    ensures Batched(f.(out := f.out + f.items[0][..k], items := [f.items[0][k..]] + f.items[1..]), batches, pieces')
  {
    hide Flatten;
    var n := |pieces| - 1;
    var extra, rest := f.items[0][..k], [f.items[0][k..]] + f.items[1..];
    pieces' := pieces[..n] + [pieces[n] + extra];
    FlattenExtended(pieces, extra);
    FlattenCut(f.items, k);
    Prefix(pieces[n], extra, Flatten(rest));
    forall i | 0 <= i < n ensures pieces'[i] == pieces[i] {}
  }

  lemma Prefix<T>(a: seq<T>, b: seq<T>, c: seq<T>)
    ensures a + (b + c) == (a + b) + c && a + b <= a + (b + c)
  {
  }

  lemma MoveKeepsBatched(f: Flow, f': Flow, batches: seq<seq<Segment>>, pieces: seq<seq<byte>>)
    returns (batches': seq<seq<Segment>>, pieces': seq<seq<byte>>)
    requires Batched(f, batches, pieces) && Moves(f, f')
    ensures Batched(f', batches', pieces')
  {
    batches', pieces' := batches, pieces;
    if f' == f {
    } else if buf: Segment :| f' == f.(q := f.q + [buf], sent := f.sent + [buf]) {
      AcceptKeepsBatched(f, buf, batches, pieces);
    } else if f.items == [] && f' == f.(items := f.q, q := []) {
      DrainKeepsBatched(f, batches, pieces);
      batches', pieces' := batches + [f.q], pieces + [[]];
    } else if f' == f.(items := []) {
      hide Flatten;
    } else if f.items[0] == [] && f' == f.(items := f.items[1..]) {
      assert Flatten(f.items) == Flatten(f.items[1..]);
    } else {
      var k: nat :| Wrote(f, k, f');
      pieces' := WriteKeepsBatched(f, k, batches, pieces);
    }
  }

  lemma CallMoves(s: State, id: nat, p: Place, step: Step)
    requires Inv(s, id, p) && id in s.halves && (step.Send? || step.Remove?) && step.id == id && id in s.recs
    requires Inv(Next(s, step), id, NextPlace(s, id, p, step))
    ensures Next(s, step).halves == s.halves
    ensures Moves(FlowOf(ViewOf(s, id, p)), FlowOf(ViewOf(Next(s, step), id, NextPlace(s, id, p, step))))
  {
    hide Flatten;
    var v, v' := ViewOf(s, id, p), ViewOf(Next(s, step), id, NextPlace(s, id, p, step));
    if step.Send? {
      assert FlowOf(v').q == FlowOf(v).q + [step.buf] && FlowOf(v').sent == FlowOf(v).sent + [step.buf];
      assert FlowOf(v') == FlowOf(v).(q := FlowOf(v).q + [step.buf], sent := FlowOf(v).sent + [step.buf]);
    } else {
      assert FlowOf(v') == FlowOf(v);
    }
  }

  lemma LockMoves(s: State, id: nat, t: nat)
    requires Inv(s, id, Held(t)) && id in s.halves && Enabled(s, TakeLock(t))
    requires Inv(LockStep(s, t), id, NextPlace(s, id, Held(t), TakeLock(t)))
    ensures LockStep(s, t).halves == s.halves
    ensures Moves(FlowOf(ViewOf(s, id, Held(t))),
                  FlowOf(ViewOf(LockStep(s, t), id, NextPlace(s, id, Held(t), TakeLock(t)))))
  {
    HeldTask(s, id, t);
    hide Flatten, Good;
    var p' := NextPlace(s, id, Held(t), TakeLock(t));
    var f, f' := FlowOf(ViewOf(s, id, Held(t))), FlowOf(ViewOf(LockStep(s, t), id, p'));
    if s.recs[id].q == [] {
      assert f' == f;
    } else {
      assert f' == f.(items := f.q, q := []);
    }
  }

  lemma WriteMoves(s: State, id: nat, t: nat, step: Step)
    requires Inv(s, id, Held(t)) && id in s.halves && Enabled(s, step) && ByTask(step, t) && !step.TakeLock?
    requires Inv(Next(s, step), id, NextPlace(s, id, Held(t), step))
    ensures Next(s, step).halves == s.halves
    ensures Moves(FlowOf(ViewOf(s, id, Held(t))), FlowOf(ViewOf(Next(s, step), id, NextPlace(s, id, Held(t), step))))
  {
    HeldTask(s, id, t);
    HeldHalf(s, id, t);
    hide Flatten, Good;
    var f, f' := FlowOf(ViewOf(s, id, Held(t))), FlowOf(ViewOf(Next(s, step), id, NextPlace(s, id, Held(t), step)));
    match step
    case WriteSome(_, k) =>
      assert Wrote(f, k, f');
    case NextItem(_) => assert f' == f.(items := f.items[1..]);
    case WriteFails(_) => assert f' == f.(items := []);
    case Shutdown(_) => assert f' == f;
  }

  lemma HeldHalf(s: State, id: nat, t: nat)
    requires Inv(s, id, Held(t)) && id in s.halves
    ensures t < |s.tasks| && s.tasks[t].w == s.halves[id]
  {
    hide Separate, Unwritten;
  }

  lemma StepMoves(s: State, id: nat, p: Place, step: Step)
    requires Inv(s, id, p) && id in s.halves && Enabled(s, step) && (step.Insert? ==> step.id !in s.halves)
    requires Inv(Next(s, step), id, NextPlace(s, id, p, step))
    ensures id in Next(s, step).halves
    ensures Moves(FlowOf(ViewOf(s, id, p)), FlowOf(ViewOf(Next(s, step), id, NextPlace(s, id, p, step))))
  {
    hide Good, Separate, Flatten, FlowOf;
    if step.Insert? { InsertKeepsInv(s, id, p, step.id); }
    else if step.Send? || step.Remove? {
      if step.id == id && id in s.recs { CallMoves(s, id, p, step); }
      else if step.Send? { SendElsewhere(s, id, p, step.id, step.buf); }
      else { RemoveElsewhere(s, id, p, step.id); }
    }
    else if s.tasks[step.t].id != id {
      if step.TakeLock? { LockElsewhere(s, id, p, step.t); } else { LoopElsewhere(s, id, p, step); }
    }
    else {
      OwnTaskIsHeld(s, id, p, step.t);
      if step.TakeLock? { LockMoves(s, id, step.t); } else { WriteMoves(s, id, step.t, step); }
    }
  }

  lemma OwnTaskIsHeld(s: State, id: nat, p: Place, t: nat)
    requires Inv(s, id, p) && t < |s.tasks| && s.tasks[t].id == id && s.tasks[t].pc != Done
    ensures p == Held(t)
  {
    hide Good;
  }

  lemma {:induction false} RunKeepsBatched(s: State, id: nat, p: Place, steps: seq<Step>, s': State,
                                           batches: seq<seq<Segment>>, pieces: seq<seq<byte>>)
    returns (p': Place, batches': seq<seq<Segment>>, pieces': seq<seq<byte>>)
    requires Inv(s, id, p) && Run(s, steps, s') && FreshIds(s.halves.Keys, steps)
    requires if id in s.halves then Batched(FlowOf(ViewOf(s, id, p)), batches, pieces)
             else batches == [] && pieces == []
    ensures Inv(s', id, p')
    ensures id in s'.halves ==> Batched(FlowOf(ViewOf(s', id, p')), batches', pieces')
    decreases |steps|
  {
    if steps == [] {
      p', batches', pieces' := p, batches, pieces;
    } else {
      var next, place := Next(s, steps[0]), NextPlace(s, id, p, steps[0]);
      StepKeepsInv(s, id, p, steps[0]);
      HalvesGrow(s, steps[0]);
      var b, c := batches, pieces;
      if id in s.halves {
        StepMoves(s, id, p, steps[0]);
        b, c := MoveKeepsBatched(FlowOf(ViewOf(s, id, p)), FlowOf(ViewOf(next, id, place)), batches, pieces);
      } else if steps[0] == Insert(id) {
        FreshFlow(s, id, p);
      }
      hide Next, NextPlace, Batched, FlowOf, Enabled, Good;
      p', batches', pieces' := RunKeepsBatched(next, id, place, steps[1..], s', b, c);
    }
  }

  lemma FreshFlow(s: State, id: nat, p: Place)
    requires Inv(s, id, p) && id !in s.halves && Inv(InsertStep(s, id), id, Parked)
    ensures id in InsertStep(s, id).halves
    ensures Batched(FlowOf(ViewOf(InsertStep(s, id), id, Parked)), [], [])
  {
    hide Separate;
    assert FlowOf(ViewOf(InsertStep(s, id), id, Parked)) == Flow([], [], [], []);
  }

  // What shows of a stream: written, queued and sent.
  function Shown(s: State, id: nat, sent: seq<Segment>): Flow
    requires id in s.halves && s.halves[id] < |s.pipes|
  {
    Flow(s.pipes[s.halves[id]].out, [], if id in s.recs then s.recs[id].q else [], sent)
  }

  // The last piece, and what the loop holds, are the last batch.
  ghost predicate Completes(undrained: seq<byte>, batches: seq<seq<Segment>>, pieces: seq<seq<byte>>) {
    undrained != [] ==>
      && pieces != [] && |pieces| == |batches|
      && pieces[|pieces| - 1] + undrained == Flatten(batches[|batches| - 1])
  }

  // In every interleaving, failed writes included: what was written of a stream is the segments sent
  // to it in order, cut short. They were drained in batches, of each of which a prefix was written;
  // of the last the loop may still hold the rest; and the queue is not yet drained.
  lemma WrittenDespiteFailures(steps: seq<Step>, s: State, id: nat)
    requires Run(INITIAL, steps, s) && FreshIds({}, steps) && id in s.halves
    ensures s.halves[id] < |s.pipes|
    ensures exists batches, pieces ::
      CutShort(Shown(s, id, Sent(INITIAL, steps, id)), batches, pieces)
      && Completes(Undrained(s.tasks, id), batches, pieces)
  {
    assert INITIAL.halves.Keys == {};
    hide *;
    HistoryIsRun(steps, s, id);
    AbsentAtFirst(id);
    var p, batches, pieces := RunKeepsBatched(INITIAL, id, Absent, steps, s, [], []);
    CountHolders(s, id, p);
    FlowSeen(s, id, p);
    CutShortSeen(FlowOf(ViewOf(s, id, p)), batches, pieces);
  }

  lemma AbsentAtFirst(id: nat)
    ensures Inv(INITIAL, id, Absent) && id !in INITIAL.halves
  {
  }

  lemma FlowSeen(s: State, id: nat, p: Place)
    requires Inv(s, id, p) && id in s.halves
    ensures s.halves[id] < |s.pipes|
    ensures FlowOf(ViewOf(s, id, p)).(items := []) == Shown(s, id, Accepted(s, id))
    ensures FlowOf(ViewOf(s, id, p)).items == ViewOf(s, id, p).task.items
  {
    hide Good;
  }

  // The items do not show in what is cut short, but their bytes complete the last piece.
  lemma CutShortSeen(f: Flow, batches: seq<seq<Segment>>, pieces: seq<seq<byte>>)
    requires Batched(f, batches, pieces)
    ensures CutShort(f.(items := []), batches, pieces) && Completes(Flatten(f.items), batches, pieces)
  {
  }

  // ---------------------------------------------------------------------------------------------
  // Termination of the loop of an ended stream

  function Weight(items: seq<Segment>): nat {
    if items == [] then 0 else |items[0]| + 1 + Weight(items[1..])
  }

  // How many more steps task `t` can take, given what its record queues.
  function Work(s: State, t: nat): nat
    requires t < |s.tasks|
  {
    var task := s.tasks[t];
    var queued := if task.id in s.recs then Weight(s.recs[task.id].q) else 0;
    match task.pc
    case Done => 0
    case Close => 1
    case Check => 2 + 3 * queued
    case Write => 3 + 3 * queued + Weight(task.items)
  }

  predicate ByTask(step: Step, t: nat) {
    !step.Insert? && !step.Send? && !step.Remove? && step.t == t
  }

  // An unfinished task can always run, whether or not its writes succeed.
  lemma TaskCanRun(s: State, id: nat, t: nat) returns (step: Step)
    requires Inv(s, id, Held(t)) && id in s.halves
    ensures ByTask(step, t) && Enabled(s, step)
  {
    var task := s.tasks[t];
    if task.pc == Close { step := Shutdown(t); }
    else if task.items == [] { step := TakeLock(t); }
    else if task.items[0] == [] { step := NextItem(t); }
    else { step := WriteSome(t, 1); }
  }

  ghost predicate Ending(s: State, id: nat) {
    id in s.halves && (id in s.recs ==> s.recs[id].ended)
  }

  // What the invariant says of whichever task holds a write half.
  lemma HeldTask(s: State, id: nat, t: nat)
    requires Inv(s, id, Held(t)) && id in s.halves
    ensures t < |s.tasks| && s.tasks[t].id == id && s.tasks[t].pc != Done
    ensures s.tasks[t].pc != Write ==> s.tasks[t].items == []
    ensures if s.tasks[t].pc == Close then id !in s.recs else id in s.recs && s.recs[id].write.None?
    ensures forall u :: 0 <= u < |s.tasks| && u != t && s.tasks[u].id == id ==> s.tasks[u].pc == Done
    ensures forall j :: j in s.recs && s.recs[j].write == Some(s.halves[id]) ==> j == id
  {
    hide Flatten;
  }

  lemma OwnStepShrinks(s: State, id: nat, t: nat, step: Step)
    requires Inv(s, id, Held(t)) && Ending(s, id) && ByTask(step, t) && Enabled(s, step)
    ensures Ending(Next(s, step), id) && t < |Next(s, step).tasks| && Work(Next(s, step), t) < Work(s, t)
    ensures NextPlace(s, id, Held(t), step) == (if step.Shutdown? then Closed else Held(t))
    ensures step.Shutdown? ==>
              Next(s, step).tasks[t].pc == Done && Next(s, step).tasks[t].id == id && id !in Next(s, step).recs
  {
    HeldTask(s, id, t);
    LoopStep(s, id, t, step);
    hide Inv, Work;
  }

  lemma ClosedStaysClosed(s: State, id: nat, t: nat, step: Step)
    requires Inv(s, id, Closed) && id in s.halves && t < |s.tasks| && s.tasks[t].pc == Done && s.tasks[t].id == id
    requires Enabled(s, step) && (step.Insert? ==> step.id !in s.halves)
    ensures NextPlace(s, id, Closed, step) == Closed && !ByTask(step, t)
    ensures t < |Next(s, step).tasks| && Next(s, step).tasks[t] == s.tasks[t]
    ensures id in Next(s, step).halves && id !in Next(s, step).recs
  {
    ClosedHasNoTask(s, id);
    hide Inv;
  }

  lemma ClosedHasNoTask(s: State, id: nat)
    requires Inv(s, id, Closed) && id in s.halves
    ensures id !in s.recs && forall t :: 0 <= t < |s.tasks| && s.tasks[t].id == id ==> s.tasks[t].pc == Done
  {
    hide Unwritten;
  }

  lemma OtherStepKeepsWork(s: State, id: nat, t: nat, step: Step)
    requires Inv(s, id, Held(t)) && Ending(s, id) && !ByTask(step, t) && Enabled(s, step)
    requires step.Insert? ==> step.id !in s.halves
    requires !(step.Send? && step.id == id)
    ensures Ending(Next(s, step), id) && t < |Next(s, step).tasks| && Work(Next(s, step), t) == Work(s, t)
    ensures NextPlace(s, id, Held(t), step) == Held(t)
  {
    HeldTask(s, id, t);
    if step.Insert? || step.Send? || step.Remove? { OtherCallKeepsWork(s, id, t, step); }
    else { OtherTaskKeepsWork(s, id, t, step); }
    hide Inv, Weight, Enabled, Next;
    assert Next(s, step).tasks[t].id == id;
  }

  // Any other task that can move belongs to another stream.
  lemma ActsElsewhere(s: State, id: nat, t: nat, step: Step)
    requires Inv(s, id, Held(t)) && id in s.halves && !ByTask(step, t) && Enabled(s, step)
    requires !(step.Insert? || step.Send? || step.Remove?)
    ensures step.t < |s.tasks| && s.tasks[step.t].id != id
  {
    HeldTask(s, id, t);
    hide Inv;
  }

  lemma OtherTaskKeepsWork(s: State, id: nat, t: nat, step: Step)
    requires Inv(s, id, Held(t)) && Ending(s, id) && !ByTask(step, t) && Enabled(s, step)
    requires !(step.Insert? || step.Send? || step.Remove?)
    ensures step.t < |s.tasks| && s.tasks[step.t].id != id
    ensures Ending(Next(s, step), id) && t < |Next(s, step).tasks| && Next(s, step).tasks[t] == s.tasks[t]
    ensures id in Next(s, step).recs <==> id in s.recs
    ensures id in s.recs ==> Next(s, step).recs[id] == s.recs[id]
  {
    hide Inv, Enabled, Next;
    ActsElsewhere(s, id, t, step);
    HeldTask(s, id, t);
    StaysApart(s, id, t, step);
  }

  lemma StaysApart(s: State, id: nat, t: nat, step: Step)
    requires t < |s.tasks| && Enabled(s, step) && !(step.Insert? || step.Send? || step.Remove?)
    requires step.t != t && step.t < |s.tasks| && s.tasks[step.t].id != id
    ensures var s' := Next(s, step);
      && s'.halves == s.halves && t < |s'.tasks| && s'.tasks[t] == s.tasks[t]
      && (id in s'.recs <==> id in s.recs) && (id in s.recs ==> s'.recs[id] == s.recs[id])
  {
  }

  lemma OtherCallKeepsWork(s: State, id: nat, t: nat, step: Step)
    requires Inv(s, id, Held(t)) && Ending(s, id) && (step.Insert? || step.Send? || step.Remove?)
    requires step.Insert? ==> step.id !in s.halves
    requires !(step.Send? && step.id == id)
    ensures Ending(Next(s, step), id) && t < |Next(s, step).tasks| && Next(s, step).tasks[t] == s.tasks[t]
    ensures id in Next(s, step).recs <==> id in s.recs
    ensures id in s.recs ==> Next(s, step).recs[id].q == s.recs[id].q
  {
    HeldTask(s, id, t);
    hide Inv;
  }

  function StepsOf(steps: seq<Step>, t: nat): nat {
    if steps == [] then 0 else StepsOf(steps[1..], t) + if ByTask(steps[0], t) then 1 else 0
  }

  lemma {:induction false} EndedLoopRuns(s: State, id: nat, t: nat, steps: seq<Step>, s': State) returns (p': Place)
    requires Inv(s, id, Held(t)) && Ending(s, id) && t < |s.tasks|
    requires Run(s, steps, s') && FreshIds(s.halves.Keys, steps)
    requires forall i :: 0 <= i < |steps| ==> !(steps[i].Send? && steps[i].id == id)
    ensures Inv(s', id, p') && Ending(s', id) && t < |s'.tasks|
    ensures p' == Held(t) || p' == Closed
    ensures p' == Held(t) ==> StepsOf(steps, t) + Work(s', t) <= Work(s, t)
    ensures p' == Closed ==> StepsOf(steps, t) <= Work(s, t) && s'.tasks[t].pc == Done
    decreases |steps|
  {
    hide Inv, Next, NextPlace, Enabled, Work;
    if steps == [] {
      p' := Held(t);
    } else {
      var next := Next(s, steps[0]);
      StepKeepsInv(s, id, Held(t), steps[0]);
      HalvesGrow(s, steps[0]);
      if ByTask(steps[0], t) { OwnStepShrinks(s, id, t, steps[0]); } else { OtherStepKeepsWork(s, id, t, steps[0]); }
      if steps[0] == Shutdown(t) {
        p' := Closed;
        ClosedForGood(next, id, t, steps[1..], s');
      } else {
        p' := EndedLoopRuns(next, id, t, steps[1..], s');
      }
    }
  }

  lemma {:induction false} ClosedForGood(s: State, id: nat, t: nat, steps: seq<Step>, s': State)
    requires Inv(s, id, Closed) && id in s.halves && t < |s.tasks| && s.tasks[t].pc == Done && s.tasks[t].id == id
    requires id !in s.recs && Run(s, steps, s') && FreshIds(s.halves.Keys, steps)
    ensures Inv(s', id, Closed) && id in s'.halves && id !in s'.recs && t < |s'.tasks| && s'.tasks[t].pc == Done
    ensures StepsOf(steps, t) == 0
    decreases |steps|
  {
    hide Inv, Next, NextPlace, Enabled;
    if steps == [] {
    } else {
      StepKeepsInv(s, id, Closed, steps[0]);
      HalvesGrow(s, steps[0]);
      ClosedStaysClosed(s, id, t, steps[0]);
      ClosedForGood(Next(s, steps[0]), id, t, steps[1..], s');
    }
  }

  // Once a stream is ended and writes to it stop, its loop takes at most `Work` more steps in any
  // interleaving, failed writes included; while it is unfinished it can run; and when it is
  // finished the record is gone and the write half is shut down.
  lemma EndedLoopTerminates(s: State, t: nat, steps: seq<Step>, s': State)
    requires Reachable(s) && t < |s.tasks| && s.tasks[t].pc != Done && Ending(s, s.tasks[t].id)
    requires Run(s, steps, s') && FreshIds(s.halves.Keys, steps)
    requires forall i :: 0 <= i < |steps| ==> !(steps[i].Send? && steps[i].id == s.tasks[t].id)
    ensures StepsOf(steps, t) <= Work(s, t) && t < |s'.tasks|
    ensures s'.tasks[t].pc != Done ==> exists step :: ByTask(step, t) && Enabled(s', step)
    ensures s'.tasks[t].pc == Done ==>
              var id := s.tasks[t].id;
              id !in s'.recs && id in s'.halves && s'.halves[id] < |s'.pipes| && s'.pipes[s'.halves[id]].shutdowns == 1
  {
    var id := s.tasks[t].id;
    var p := ReachableInv(s, id);
    var p' := EndedLoopRuns(s, id, t, steps, s');
    if p' == Held(t) { var step := TaskCanRun(s', id, t); }
  }

  // ---------------------------------------------------------------------------------------------
  // The shared table as an object: each method is one atomic step, `WriteLoop` runs a task alone.

  class Streams {
    var recs: map<nat, Rec>
    var tasks: seq<Task>
    var pipes: seq<Pipe>
    ghost var halves: map<nat, nat>
    ghost var accepted: map<nat, seq<Segment>>
    ghost var lossy: set<nat>

    ghost function Now(): State
      reads this
    {
      State(recs, tasks, pipes, halves, accepted, lossy)
    }

    constructor ()
      ensures Now() == INITIAL
    {
      recs, tasks, pipes := map[], [], [];
      halves, accepted, lossy := map[], map[], {};
    }

    method InsertStream(id: nat)
      modifies this
      ensures Now() == Next(old(Now()), Insert(id))
    {
      var w := |pipes|;
      pipes := pipes + [Pipe([], 0)];
      recs := recs[id := Rec(Some(w), [], false)];
      halves, accepted := halves[id := w], accepted[id := []];
    }

    method SendSegment(id: nat, buf: Segment)
      modifies this
      ensures Now() == Next(old(Now()), Send(id, buf))
    {
      if id in recs {
        var rec := recs[id];
        accepted := accepted[id := Accepted(Now(), id) + [buf]];
        rec := rec.(q := rec.q + [buf]);
        if rec.write.Some? {
          tasks := tasks + [Task(id, rec.write.value, [], Check)];
          rec := rec.(write := None);
        }
        recs := recs[id := rec];
      }
    }

    method RemoveStream(id: nat)
      modifies this
      ensures Now() == Next(old(Now()), Remove(id))
    {
      if id in recs {
        if recs[id].write.Some? {
          tasks := tasks + [Task(id, recs[id].write.value, [], Close)];
          recs := recs - {id};
        } else {
          recs := recs[id := recs[id].(ended := true)];
        }
      }
    }

    method LockScope(t: nat)
      requires Enabled(Now(), TakeLock(t))
      modifies this
      ensures Now() == Next(old(Now()), TakeLock(t))
    {
      var task := tasks[t];
      if task.id !in recs {
        task := task.(pc := Close);
      } else {
        var rec := recs[task.id];
        if rec.q == [] {
          if rec.ended {
            recs, task := recs - {task.id}, task.(pc := Close);
          } else {
            recs, task := recs[task.id := rec.(write := Some(task.w))], task.(pc := Done);
          }
        } else {
          recs, task := recs[task.id := rec.(q := task.items)], task.(items := rec.q, pc := Write);
        }
      }
      tasks := tasks[t := task];
    }

    // One resumption of `write_all` on the first item; it may write any part of it, or fail.
    method WriteAll(t: nat) returns (ghost step: Step)
      requires At(Now(), t, Write) && tasks[t].items != []
      modifies this
      ensures ByTask(step, t) && old(Enabled(Now(), step)) && Now() == Next(old(Now()), step)
    {
      var task := tasks[t];
      if * {
        step := WriteFails(t);
        tasks := tasks[t := task.(items := [], pc := Check)];
        lossy := lossy + {task.id};
      } else if task.items[0] == [] {
        step := NextItem(t);
        tasks := tasks[t := task.(items := task.items[1..])];
      } else {
        var k: nat :| 1 <= k <= |task.items[0]|;
        step := WriteSome(t, k);
        pipes := pipes[task.w := pipes[task.w].(out := pipes[task.w].out + task.items[0][..k])];
        tasks := tasks[t := task.(items := [task.items[0][k..]] + task.items[1..])];
      }
    }

    method ShutdownHalf(t: nat)
      requires At(Now(), t, Close)
      modifies this
      ensures Now() == Next(old(Now()), Shutdown(t))
    {
      var w := tasks[t].w;
      pipes := pipes[w := pipes[w].(shutdowns := pipes[w].shutdowns + 1)];
      tasks := tasks[t := tasks[t].(pc := Done)];
    }

    // `write_loop` run to its end without interference: it stops, and everything accepted has been
    // written unless a write failed. The write half is parked again, or shut down with its record gone.
    method WriteLoop(t: nat, id: nat)
      requires Inv(Now(), id, Held(t)) && id in halves
      modifies this
      ensures t < |tasks| && tasks[t].pc == Done && halves == old(halves) && accepted == old(accepted)
      ensures halves[id] < |pipes| && (id !in lossy ==> pipes[halves[id]].out == Flatten(Accepted(Now(), id)))
      ensures if id in recs then recs[id] == Rec(Some(halves[id]), [], false)
              else pipes[halves[id]].shutdowns == 1
    {
      ghost var p := Held(t);
      while tasks[t].pc != Done
        invariant id in halves && halves == old(halves) && accepted == old(accepted)
        invariant Inv(Now(), id, p) && t < |tasks| && (tasks[t].pc != Done ==> p == Held(t))
        invariant p == Held(t) || p == Parked || p == Closed
        invariant tasks[t].pc == Done ==> p != Held(t)
        decreases Work(Now(), t)
      {
        ghost var s, step := Now(), TakeLock(t);
        if tasks[t].pc == Close {
          step := Shutdown(t);
          ShutdownHalf(t);
        } else if tasks[t].pc == Write && tasks[t].items != [] {
          step := WriteAll(t);
        } else {
          LockScope(t);
        }
        StepKeepsInv(s, id, p, step);
        LoopStep(s, id, t, step);
        p := NextPlace(s, id, p, step);
      }
    }
  }

  lemma LoopStep(s: State, id: nat, t: nat, step: Step)
    requires Inv(s, id, Held(t)) && id in s.halves && ByTask(step, t) && Enabled(s, step)
    ensures var s', p' := Next(s, step), NextPlace(s, id, Held(t), step);
            && s'.halves == s.halves && s'.accepted == s.accepted && t < |s'.tasks|
            && Work(s', t) < Work(s, t)
            && (s'.tasks[t].pc == Done <==> p' != Held(t)) && (p' == Held(t) || p' == Parked || p' == Closed)
  {
    HeldTask(s, id, t);
    LoopTurn(s, id, t, step);
    if step.TakeLock? { LockShrinks(s, id, t); } else { WriteShrinks(s, id, t, step); }
    hide Inv, Work, NextPlace, LockStep;
  }

  lemma LoopTurn(s: State, id: nat, t: nat, step: Step)
    requires t < |s.tasks| && s.tasks[t].id == id && ByTask(step, t) && Enabled(s, step)
    requires if s.tasks[t].pc == Close then id !in s.recs else id in s.recs
    ensures var s', p' := Next(s, step), NextPlace(s, id, Held(t), step);
      && s'.halves == s.halves && s'.accepted == s.accepted && t < |s'.tasks|
      && (s'.tasks[t].pc == Done <==> p' != Held(t)) && (p' == Held(t) || p' == Parked || p' == Closed)
  {
  }

  lemma LockShrinks(s: State, id: nat, t: nat)
    requires Inv(s, id, Held(t)) && id in s.halves && Enabled(s, TakeLock(t))
    ensures t < |LockStep(s, t).tasks| && Work(LockStep(s, t), t) < Work(s, t)
  {
    HeldTask(s, id, t);
    hide Inv;
  }

  lemma WriteShrinks(s: State, id: nat, t: nat, step: Step)
    requires Inv(s, id, Held(t)) && id in s.halves && ByTask(step, t) && Enabled(s, step) && !step.TakeLock?
    ensures t < |Next(s, step).tasks| && Work(Next(s, step), t) < Work(s, t)
  {
    HeldTask(s, id, t);
    hide Inv;
  }
}

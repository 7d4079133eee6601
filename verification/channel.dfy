/**
 * The read branch of `start_msgpack_rpc` in cli/src/msgpack_rpc.rs. It drains decoded frames and
 * posts replies to a bounded channel whose only receiver is another branch of the same loop, so
 * nothing is received before the batch is finished.
 */
module ReplyChannel {
  import opened Prelude
  import opened FrameParser
  import MessagePack

  const CAPACITY: nat := 8

  // What dispatching one frame does to the channel: nothing; one message sent by the loop itself;
  // `n` messages sent later by spawned tasks; or, for a duplex method, a message sent by the loop
  // followed by `n` from its streams.
  datatype Action = Skip | Reply | Later(n: nat) | OpenStream(n: nat)

  // `background` counts the messages spawned tasks still have to send.
  datatype State = State(queued: nat, todo: seq<Action>, background: nat)

  datatype Step = LoopStep | TaskStep

  predicate LoopSends(a: Action) {
    a.Reply? || a.OpenStream?
  }

  predicate Enabled(s: State, step: Step) {
    match step
    case LoopStep => s.todo != [] && (LoopSends(s.todo[0]) ==> s.queued < CAPACITY)
    case TaskStep => s.background > 0 && s.queued < CAPACITY
  }

  function Next(s: State, step: Step): State
    requires Enabled(s, step)
  {
    match step
    case TaskStep => s.(queued := s.queued + 1, background := s.background - 1)
    case LoopStep =>
      var rest := s.todo[1..];
      match s.todo[0]
      case Skip => s.(todo := rest)
      case Reply => s.(todo := rest, queued := s.queued + 1)
      case Later(n) => s.(todo := rest, background := s.background + n)
      case OpenStream(n) => s.(todo := rest, queued := s.queued + 1, background := s.background + n)
  }

  ghost predicate Run(s: State, steps: seq<Step>, s': State)
    decreases |steps|
  {
    if steps == [] then s == s'
    else Enabled(s, steps[0]) && Run(Next(s, steps[0]), steps[1..], s')
  }

  // The batch is unfinished and nothing at all can run.
  predicate Stuck(s: State) {
    s.todo != [] && !Enabled(s, LoopStep) && !Enabled(s, TaskStep)
  }

  ghost predicate CanStick(s: State) {
    exists steps, s' :: Run(s, steps, s') && Stuck(s')
  }

  // ---------------------------------------------------------------------------------------------

  predicate AnySend(todo: seq<Action>) {
    exists i :: 0 <= i < |todo| && LoopSends(todo[i])
  }

  // Messages that can be in the channel, because of this batch, when the loop makes its last send.
  function Demand(todo: seq<Action>): nat {
    if !AnySend(todo) then 0
    else
      var rest := Demand(todo[1..]);
      match todo[0]
      case Skip => rest
      case Reply => rest + 1
      case Later(n) => rest + n
      case OpenStream(n) => rest + 1 + if AnySend(todo[1..]) then n else 0
  }

  predicate Safe(s: State) {
    s.queued <= CAPACITY && (AnySend(s.todo) ==> s.queued + s.background + Demand(s.todo) <= CAPACITY)
  }

  lemma SafeStep(s: State, step: Step)
    requires Safe(s) && Enabled(s, step)
    ensures Safe(Next(s, step))
  {
    if step == LoopStep { HeadDemand(s.todo); }
  }

  lemma HeadDemand(todo: seq<Action>)
    requires todo != []
    ensures AnySend(todo) <==> LoopSends(todo[0]) || AnySend(todo[1..])
    ensures AnySend(todo) && LoopSends(todo[0]) ==> Demand(todo) >= 1
  {
    if AnySend(todo[1..]) {
      var i :| 0 <= i < |todo[1..]| && LoopSends(todo[1..][i]);
      assert LoopSends(todo[i + 1]);
    }
  }

  lemma {:induction false} SafeRunNeverBlocks(s: State, steps: seq<Step>, s': State)
    requires Safe(s) && Run(s, steps, s')
    ensures Safe(s') && (s'.todo != [] ==> Enabled(s', LoopStep))
    decreases |steps|
  {
    if steps == [] {
      if s.todo != [] { HeadDemand(s.todo); }
    } else {
      SafeStep(s, steps[0]);
      SafeRunNeverBlocks(Next(s, steps[0]), steps[1..], s');
    }
  }

  // With more demand than room, let spawned tasks send first and the loop runs into a full channel.
  lemma {:induction false} UnsafeRunSticks(s: State) returns (steps: seq<Step>, s': State)
    requires s.queued <= CAPACITY && !Safe(s)
    ensures Run(s, steps, s') && Stuck(s')
    decreases |s.todo|, s.background
  {
    HeadDemand(s.todo);
    if Enabled(s, TaskStep) {
      steps, s' := UnsafeRunSticks(Next(s, TaskStep));
      steps := [TaskStep] + steps;
    } else if Enabled(s, LoopStep) {
      steps, s' := UnsafeRunSticks(Next(s, LoopStep));
      steps := [LoopStep] + steps;
    } else {
      steps, s' := [], s;
    }
  }

  // The read branch can finish its batch under every scheduling of the spawned tasks exactly when
  // the channel has room for what is queued and what the batch can produce by the loop's last send.
  lemma BatchCompletesIffRoom(s: State)
    requires s.queued <= CAPACITY
    ensures CanStick(s) <==> !Safe(s)
    ensures Safe(s) ==> forall steps, s' :: Run(s, steps, s') && s'.todo != [] ==> Enabled(s', LoopStep)
  {
    if Safe(s) {
      forall steps, s' | Run(s, steps, s')
        ensures !Stuck(s') && (s'.todo != [] ==> Enabled(s', LoopStep))
      {
        SafeRunNeverBlocks(s, steps, s');
      }
    } else {
      var steps, s' := UnsafeRunSticks(s);
    }
  }

  // All messages the batch produces.
  function Produced(todo: seq<Action>): nat {
    if todo == [] then 0
    else
      Produced(todo[1..]) +
      match todo[0]
      case Skip => 0
      case Reply => 1
      case Later(n) => n
      case OpenStream(n) => 1 + n
  }

  lemma {:induction false} DemandIsProduced(todo: seq<Action>)
    ensures Demand(todo) <= Produced(todo)
  {
    if todo == [] {
    } else {
      DemandIsProduced(todo[1..]);
    }
  }

  // Every run of a batch is finite: steps taken are bounded by frames plus messages to send.
  lemma {:induction false} RunsAreBounded(s: State, steps: seq<Step>, s': State)
    requires Run(s, steps, s')
    ensures |steps| + |s'.todo| + s'.background + Produced(s'.todo) <= |s.todo| + s.background + Produced(s.todo)
    decreases |steps|
  {
    if steps == [] {
    } else {
      RunsAreBounded(Next(s, steps[0]), steps[1..], s');
    }
  }

  // Messages queued at entry plus messages produced during the batch within the capacity suffice.
  lemma RoomForAllSuffices(s: State, steps: seq<Step>, s': State)
    requires s.queued + s.background + Produced(s.todo) <= 8
    requires Run(s, steps, s') && s'.todo != []
    ensures Enabled(s', LoopStep)
  {
    DemandIsProduced(s.todo);
    SafeRunNeverBlocks(s, steps, s');
  }

  lemma {:induction false} DemandOfReplies(n: nat)
    ensures Demand(seq(n, _ => Reply)) == n && (n > 0 ==> AnySend(seq(n, _ => Reply)))
  {
    if n > 0 {
      var todo := seq(n, _ => Reply);
      assert todo[1..] == seq(n - 1, _ => Reply) && LoopSends(todo[0]);
      DemandOfReplies(n - 1);
    }
  }

  // From an empty channel, n synchronous replies in one batch go through exactly when n <= 8.
  lemma NineRepliesDeadlock(n: nat)
    ensures CanStick(State(0, seq(n, _ => Reply), 0)) <==> n > 8
  {
    DemandOfReplies(n);
    BatchCompletesIffRoom(State(0, seq(n, _ => Reply), 0));
  }

  // ---------------------------------------------------------------------------------------------
  // The read branch on real bytes, while no spawned task runs

  // What dispatching a frame returns: an immediate reply or none; a future to spawn; or a future and,
  // for a duplex method, the message that announces its streams.
  datatype Dispatched =
    | Sync(reply: Option<MessagePack.Bytes>)
    | Future
    | Stream(opening: Option<MessagePack.Bytes>)

  // What the loop itself sends for it.
  function Posted(d: Dispatched): Option<MessagePack.Bytes> {
    match d
    case Sync(reply) => reply
    case Future => None
    case Stream(opening) => opening
  }

  function Posts(frames: seq<Message>, dispatch: Message -> Dispatched): seq<MessagePack.Bytes> {
    if frames == [] then []
    else
      match Posted(dispatch(frames[0]))
      case None => Posts(frames[1..], dispatch)
      case Some(v) => [v] + Posts(frames[1..], dispatch)
  }

  function Spawns(frames: seq<Message>, dispatch: Message -> Dispatched): nat {
    if frames == [] then 0 else (if dispatch(frames[0]).Sync? then 0 else 1) + Spawns(frames[1..], dispatch)
  }

  // The loop sends a synchronous reply, and the announcement of opened streams; nothing else.
  lemma PostsOf(frame: Message, more: seq<Message>, dispatch: Message -> Dispatched)
    ensures Posts([frame] + more, dispatch) ==
      (match dispatch(frame)
       case Sync(Some(v)) => [v]
       case Stream(Some(v)) => [v]
       case _ => []) + Posts(more, dispatch)
    ensures Spawns([frame] + more, dispatch) == (if dispatch(frame).Sync? then 0 else 1) + Spawns(more, dispatch)
  {
    assert ([frame] + more)[1..] == more;
  }

  lemma PostsStep(frame: Message, more: seq<Message>, dispatch: Message -> Dispatched)
    ensures Posts([frame] + more, dispatch) ==
      (if Posted(dispatch(frame)).Some? then [Posted(dispatch(frame)).value] else []) + Posts(more, dispatch)
    ensures Spawns([frame] + more, dispatch) == (if dispatch(frame).Sync? then 0 else 1) + Spawns(more, dispatch)
  {
    assert ([frame] + more)[1..] == more;
    hide Posted;
  }

  lemma NoPosts(dispatch: Message -> Dispatched)
    ensures Posts([], dispatch) == [] && Spawns([], dispatch) == 0
  {
  }

  // The abstract batch of the frames: what each does to the channel, a spawned future sending at
  // most `later` messages.
  function Actions(frames: seq<Message>, dispatch: Message -> Dispatched, later: nat): seq<Action> {
    if frames == [] then []
    else
      var d := dispatch(frames[0]);
      var action :=
        if d.Sync? then (if d.reply.Some? then Reply else Skip)
        else if Posted(d).Some? then OpenStream(later)
        else Later(later);
      [action] + Actions(frames[1..], dispatch, later)
  }

  lemma {:induction false} PostsAreProduced(frames: seq<Message>, dispatch: Message -> Dispatched, later: nat)
    ensures Produced(Actions(frames, dispatch, later)) ==
      |Posts(frames, dispatch)| + later * Spawns(frames, dispatch)
  {
    if frames == [] {
    } else {
      var actions := Actions(frames, dispatch, later);
      PostsAreProduced(frames[1..], dispatch, later);
      assert actions[1..] == Actions(frames[1..], dispatch, later);
      assert later * (1 + Spawns(frames[1..], dispatch)) == later + later * Spawns(frames[1..], dispatch);
    }
  }

  // A step of the loop is the dispatch of the next frame: its own message is in the channel at once,
  // those of its future are still to come.
  lemma LoopStepIsDispatch(frames: seq<Message>, dispatch: Message -> Dispatched, later: nat,
                           queued: nat, background: nat)
    requires frames != [] && queued < CAPACITY
    ensures var s := State(queued, Actions(frames, dispatch, later), background);
      && Enabled(s, LoopStep)
      && Next(s, LoopStep) == State(
           match dispatch(frames[0])
           case Sync(Some(_)) => queued + 1
           case Stream(Some(_)) => queued + 1
           case _ => queued,
           Actions(frames[1..], dispatch, later),
           if dispatch(frames[0]).Sync? then background else background + later)
  {
    var actions := Actions(frames, dispatch, later);
    assert actions[1..] == Actions(frames[1..], dispatch, later);
  }

  // A batch of real frames goes through under every scheduling if what the loop posts and what its
  // futures send fits with what is queued.
  lemma FramesGoThrough(frames: seq<Message>, dispatch: Message -> Dispatched, later: nat, queued: nat,
                        steps: seq<Step>, s': State)
    requires queued + |Posts(frames, dispatch)| + later * Spawns(frames, dispatch) <= CAPACITY
    requires Run(State(queued, Actions(frames, dispatch, later), 0), steps, s') && s'.todo != []
    ensures Enabled(s', LoopStep)
  {
    PostsAreProduced(frames, dispatch, later);
    RoomForAllSuffices(State(queued, Actions(frames, dispatch, later), 0), steps, s');
  }

  class Connection {
    const codec: MsgPackCodec
    var writeQueue: seq<MessagePack.Bytes>
    var spawned: nat

    constructor ()
      ensures fresh(codec) && codec.buf == [] && writeQueue == [] && spawned == 0
    {
      codec := new MsgPackCodec();
      writeQueue, spawned := [], 0;
    }

    // Append what was read, then decode and dispatch frames until one is incomplete or bad, posting
    // to the queue and spawning futures. A full queue stops the branch, there being nobody else to
    // receive.
    method ReadBranch(read: MessagePack.Bytes, dispatch: Message -> Dispatched)
      returns (stalled: bool, bad: bool)
      requires |writeQueue| <= CAPACITY
      modifies this, codec
      ensures var d := Drain(old(codec.buf) + read);
        var wanted := old(writeQueue) + Posts(d.frames, dispatch);
        && (stalled <==> |wanted| > CAPACITY)
        && (if stalled then writeQueue == wanted[..CAPACITY]
            else
              && writeQueue == wanted && spawned == old(spawned) + Spawns(d.frames, dispatch)
              && codec.buf == d.rest && bad == d.bad)
    {
      hide *;
      codec.buf := codec.buf + read;
      stalled, bad := false, false;
      ghost var d := Drain(codec.buf);
      ghost var wanted := writeQueue + Posts(d.frames, dispatch);
      while true
        invariant |writeQueue| <= CAPACITY
        invariant Drain(codec.buf).rest == d.rest && Drain(codec.buf).bad == d.bad
        invariant writeQueue + Posts(Drain(codec.buf).frames, dispatch) == wanted
        invariant spawned + Spawns(Drain(codec.buf).frames, dispatch) == old(spawned) + Spawns(d.frames, dispatch)
        decreases |codec.buf|
      {
        DrainStep(codec.buf);
        var frame := codec.DecodeFrame();
        if !frame.Frame? {
          NoPosts(dispatch);
          bad := frame.InvalidData?;
          break;
        }
        PostsStep(frame.message, Drain(codec.buf).frames, dispatch);
        var result := dispatch(frame.message);
        var post := Posted(result);
        if post.Some? {
          if |writeQueue| == CAPACITY {
            stalled := true;
            break;
          }
          writeQueue := writeQueue + [post.value];
        }
        if !result.Sync? { spawned := spawned + 1; }
      }
    }
  }
}

/** scala-adapter/src/main/scala/AdapterMain.scala: connection loops and request stages sharing one
    fixed pool of four threads.

    A socket connection's loop is itself a task on the pool; the standard-input loop is not.  A
    request is a chain of stages, each submitted when the one before it has finished; the last stage
    writes the reply.  A failed stage makes the later ones do nothing, but they still run.

    Handlers on a request's future are pool tasks too: the one that logs a failure, and those that a
    loop waiting for capacity registers on each request in flight.  The loop is awake again only when
    one of its handlers has run. */
module AdapterPool {
  const THREADS := 4
  const MAX_IN_FLIGHT := 64

  /** `Wake(l, wait)` ends the wait with that number of loop `l`. */
  datatype Handler = LogFailure | Wake(l: nat, wait: nat)

  datatype Task = LoopTask(l: nat) | StageTask(r: nat) | CallbackTask(handler: Handler)

  datatype Envelope = Envelope(id: string, session: string, version: int)

  /** A line as the loop sees it: rejected by the decoder, or a request whose first stage is followed
      by `more` further ones. */
  datatype Line = Rejected | Decoded(envelope: Envelope, more: nat)

  /** `left` stages are still to run; `handlers` are submitted when the last one has. */
  datatype Request = Request(loop: nat, line: Line, left: nat, failed: bool, handlers: seq<Handler>)

  datatype Phase =
    | Submitted        // the loop task waits for a thread
    | Reading          // waiting for the next line
    | Holding(line: Line)   // a line has been read, there may be no capacity for it
    | Waiting(line: Line, wait: nat)   // blocked until a handler of this wait has run
    | Draining         // end of input, waiting for the requests in flight, for a limited time
    | Ended

  datatype Loop = Loop(onPool: bool, phase: Phase, inflight: seq<nat>, waits: nat)

  datatype Reply = Reply(loop: nat, envelope: Envelope)

  /** A reply handed to its writer; a closed socket's writer drops it without an error. */
  datatype Written = Written(reply: Reply, delivered: bool)

  datatype State = State(
    queue: seq<Task>,
    running: seq<Task>,
    loops: seq<Loop>,
    requests: seq<Request>,
    output: seq<Written>)

  const INITIAL := State([], [], [], [], [])

  datatype Action =
    | Open(onPool: bool)
    | Start                          // an idle thread takes the oldest task
    | Finish(i: nat, succeeds: bool) // the stage on thread `i` ends
    | Call(i: nat)                   // the handler on thread `i` ends
    | Read(l: nat, line: Line)
    | Wait(l: nat)                   // no capacity: register handlers and block
    | Submit(l: nat)
    | EndOfInput(l: nat)
    | Leave(l: nat, crashed: bool)   // done or timed out while draining, or broken while reading
  {
    predicate OfPool() {
      Start? || Finish? || Call?
    }
  }

  predicate Completed(s: State, r: nat) {
    r < |s.requests| && s.requests[r].left == 0
  }

  /** `pruneCompleted` */
  function Prune(s: State, inflight: seq<nat>): seq<nat> {
    if inflight == [] then []
    else
      var n := |inflight| - 1;
      Prune(s, inflight[..n]) + (if Completed(s, inflight[n]) then [] else [inflight[n]])
  }

  predicate HasCapacity(s: State, l: nat)
    requires l < |s.loops|
  {
    |Prune(s, s.loops[l].inflight)| < MAX_IN_FLIGHT
  }

  function WithoutTask(tasks: seq<Task>, t: Task): seq<Task> {
    if tasks == [] then []
    else
      var n := |tasks| - 1;
      if tasks[n] == t then tasks[..n] else WithoutTask(tasks[..n], t) + [tasks[n]]
  }

  predicate Possible(s: State, a: Action) {
    match a
    case Open(_) => true
    case Start => |s.running| < THREADS && s.queue != []
    case Finish(i, _) => i < |s.running| && s.running[i].StageTask? && s.running[i].r < |s.requests|
    case Call(i) => i < |s.running| && s.running[i].CallbackTask?
    case Read(l, _) => l < |s.loops| && s.loops[l].phase.Reading?
    case Wait(l) => l < |s.loops| && s.loops[l].phase.Holding? && !HasCapacity(s, l)
    case Submit(l) => l < |s.loops| && s.loops[l].phase.Holding? && HasCapacity(s, l)
    case EndOfInput(l) => l < |s.loops| && s.loops[l].phase.Reading?
    case Leave(l, crashed) =>
      l < |s.loops| && (if crashed then s.loops[l].phase.Reading? else s.loops[l].phase.Draining?)
  }

  function Callbacks(handlers: seq<Handler>): (tasks: seq<Task>)
    ensures |tasks| == |handlers| && forall i | 0 <= i < |handlers| :: tasks[i] == CallbackTask(handlers[i])
  {
    seq(|handlers|, i requires 0 <= i < |handlers| => CallbackTask(handlers[i]))
  }

  /** Register a handler on each of these requests. */
  function Registered(requests: seq<Request>, inflight: seq<nat>, h: Handler): (more: seq<Request>)
    ensures |more| == |requests|
  {
    if inflight == [] then requests
    else
      var n := |inflight| - 1;
      var before, r := Registered(requests, inflight[..n], h), inflight[n];
      if r < |requests| then before[r := before[r].(handlers := before[r].handlers + [h])] else before
  }

  /** The socket of loop `l` has been closed. */
  predicate Closed(s: State, l: nat) {
    l < |s.loops| && s.loops[l].onPool && s.loops[l].phase.Ended?
  }

  function Awake(s: State, h: Handler): State {
    if h.Wake? && h.l < |s.loops| && s.loops[h.l].phase.Waiting? && s.loops[h.l].phase.wait == h.wait
    then SetPhase(s, h.l, Holding(s.loops[h.l].phase.line)) else s
  }

  function SetPhase(s: State, l: nat, p: Phase): State
    requires l < |s.loops|
  {
    s.(loops := s.loops[l := s.loops[l].(phase := p)])
  }

  function Step(s: State, a: Action): State
    requires Possible(s, a)
  {
    match a
    case Open(onPool) =>
      var l := |s.loops|;
      s.(loops := s.loops + [Loop(onPool, if onPool then Submitted else Reading, [], 0)],
         queue := if onPool then s.queue + [LoopTask(l)] else s.queue)
    case Start =>
      var t := s.queue[0];
      var u := s.(queue := s.queue[1..], running := s.running + [t]);
      if t.LoopTask? && t.l < |s.loops| then SetPhase(u, t.l, Reading) else u
    case Finish(i, succeeds) =>
      var r := s.running[i].r;
      var q := s.requests[r];
      var done := q.(left := if q.left > 0 then q.left - 1 else 0, failed := q.failed || !succeeds);
      var u := s.(running := s.running[..i] + s.running[i + 1..]);
      if done.left > 0 then u.(requests := s.requests[r := done], queue := s.queue + [StageTask(r)])
      else
        u.(requests := s.requests[r := done.(handlers := [])],
           queue := s.queue + Callbacks(q.handlers),
           output := if !done.failed && q.line.Decoded?
                     then s.output + [Written(Reply(q.loop, q.line.envelope), !Closed(s, q.loop))] else s.output)
    case Call(i) => Awake(s.(running := s.running[..i] + s.running[i + 1..]), s.running[i].handler)
    case Wait(l) =>
      var loop := s.loops[l];
      var inflight := Prune(s, loop.inflight);
      s.(loops := s.loops[l := Loop(loop.onPool, Waiting(loop.phase.line, loop.waits), inflight, loop.waits + 1)],
         requests := Registered(s.requests, inflight, Wake(l, loop.waits)))
    case Read(l, line) => SetPhase(s, l, Holding(line))
    case Submit(l) =>
      var r := |s.requests|;
      var line := s.loops[l].phase.line;
      var stages := if line.Decoded? then 1 + line.more else 0;
      s.(loops := s.loops[l := s.loops[l].(phase := Reading, inflight := Prune(s, s.loops[l].inflight) + [r])],
         requests := s.requests + [Request(l, line, stages, false, if stages > 0 then [LogFailure] else [])],
         queue := s.queue + [if stages > 0 then StageTask(r) else CallbackTask(LogFailure)])
    case EndOfInput(l) => SetPhase(s, l, Draining)
    case Leave(l, _) =>
      var u := SetPhase(s, l, Ended);
      if s.loops[l].onPool then u.(running := WithoutTask(s.running, LoopTask(l))) else u
  }

  ghost predicate IsRun(acts: seq<Action>, trace: seq<State>) {
    && |trace| == |acts| + 1 && trace[0] == INITIAL
    && forall k | 0 <= k < |acts| :: Possible(trace[k], acts[k]) && trace[k + 1] == Step(trace[k], acts[k])
  }

  // ---------------------------------------------------------------------------------------------
  // What every reachable state satisfies
  // ---------------------------------------------------------------------------------------------

  function Count<A(==)>(xs: seq<A>, x: A): nat {
    if xs == [] then 0 else Count(xs[..|xs| - 1], x) + (if xs[|xs| - 1] == x then 1 else 0)
  }

  lemma {:induction false} CountAppend<A>(xs: seq<A>, ys: seq<A>, x: A)
    ensures Count(xs + ys, x) == Count(xs, x) + Count(ys, x)
  {
    if ys == [] {
      assert xs + ys == xs;
    } else {
      var n := |ys| - 1;
      CountAppend(xs, ys[..n], x);
      assert (xs + ys)[..|xs| + n] == xs + ys[..n];
    }
  }

  lemma {:induction false} CountMember<A>(xs: seq<A>, x: A)
    ensures Count(xs, x) > 0 <==> x in xs
  {
    if xs != [] {
      var n := |xs| - 1;
      CountMember(xs[..n], x);
      assert xs == xs[..n] + [xs[n]];
    }
  }

  /** How many copies of a stage or loop the pool should hold, waiting or running. */
  function Expected(s: State, t: Task): nat
    requires !t.CallbackTask?
  {
    match t
    case StageTask(r) => if r < |s.requests| && s.requests[r].left > 0 then 1 else 0
    case LoopTask(l) => if l < |s.loops| && s.loops[l].onPool && !s.loops[l].phase.Ended? then 1 else 0
  }

  ghost predicate Accounted(s: State, t: Task) {
    t.CallbackTask? || Count(s.queue, t) + Count(s.running, t) == Expected(s, t)
  }

  /** No stage is lost or run twice, and a loop holds a thread exactly from its start to its end. */
  ghost predicate TasksAccounted(s: State) {
    && (forall t :: Accounted(s, t))
    && (forall l | 0 <= l < |s.loops| && s.loops[l].onPool ::
          s.loops[l].phase.Submitted? <==> LoopTask(l) in s.queue)
    && (forall l | 0 <= l < |s.loops| && s.loops[l].phase.Submitted? :: s.loops[l].onPool)
  }

  ghost predicate Bounded(s: State) {
    && |s.running| <= THREADS
    && (forall l | 0 <= l < |s.loops| :: |s.loops[l].inflight| <= MAX_IN_FLIGHT)
    && (forall l, r | 0 <= l < |s.loops| && r in s.loops[l].inflight :: r < |s.requests|)
  }

  lemma CountRemoved<A>(xs: seq<A>, i: nat, x: A)
    requires i < |xs|
    ensures Count(xs[..i] + xs[i + 1..], x) == Count(xs, x) - (if xs[i] == x then 1 else 0)
  {
    SplitAt(xs, i);
    CountMiddle(xs[..i], xs[i], xs[i + 1..], x);
  }

  lemma SplitAt<A>(xs: seq<A>, i: nat)
    requires i < |xs|
    ensures xs == (xs[..i] + [xs[i]]) + xs[i + 1..]
  {
  }

  lemma CountMiddle<A>(front: seq<A>, y: A, back: seq<A>, x: A)
    ensures Count((front + [y]) + back, x) == Count(front + back, x) + (if x == y then 1 else 0)
  {
    CountAppend(front, back, x);
    CountAppend(front + [y], back, x);
    CountOne(front, y, x);
  }

  lemma CountOne<A>(xs: seq<A>, y: A, x: A)
    ensures Count(xs + [y], x) == Count(xs, x) + (if x == y then 1 else 0)
  {
    assert (xs + [y])[..|xs|] == xs;
  }

  lemma {:induction false} CountWithout(tasks: seq<Task>, gone: Task, t: Task)
    ensures Count(WithoutTask(tasks, gone), t) ==
            if t == gone && Count(tasks, t) > 0 then Count(tasks, t) - 1 else Count(tasks, t)
    ensures |WithoutTask(tasks, gone)| <= |tasks|
  {
    if tasks != [] {
      var n := |tasks| - 1;
      CountWithout(tasks[..n], gone, t);
      if tasks[n] != gone {
        CountOne(WithoutTask(tasks[..n], gone), tasks[n], t);
      }
    }
  }

  lemma {:induction false} PruneKeeps(s: State, inflight: seq<nat>)
    ensures |Prune(s, inflight)| <= |inflight|
    ensures forall r | r in Prune(s, inflight) :: r in inflight && !Completed(s, r)
  {
    if inflight != [] {
      PruneKeeps(s, inflight[..|inflight| - 1]);
    }
  }

  lemma BoundedStep(s: State, a: Action)
    requires Bounded(s) && Possible(s, a)
    ensures Bounded(Step(s, a))
  {
    match a {
      case Leave(l, _) => CountWithout(s.running, LoopTask(l), LoopTask(l));
      case Submit(l) => PruneKeeps(s, s.loops[l].inflight);
      case Wait(l) => PruneKeeps(s, s.loops[l].inflight);
      case _ =>
    }
  }

  /** Registering a handler changes nothing else, and reaches exactly the requests named. */
  lemma {:induction false} RegisteredFacts(requests: seq<Request>, inflight: seq<nat>, h: Handler, r: nat)
    requires r < |requests|
    ensures
      var q := Registered(requests, inflight, h)[r];
      && q == requests[r].(handlers := q.handlers)
      && requests[r].handlers <= q.handlers
      && (r in inflight ==> h in q.handlers) && (r !in inflight ==> q == requests[r])
  {
    if inflight != [] {
      var n := |inflight| - 1;
      RegisteredFacts(requests, inflight[..n], h, r);
      assert inflight == inflight[..n] + [inflight[n]];
    }
  }

  lemma {:induction false} CountCallbacks(tasks: seq<Task>, t: Task)
    requires !t.CallbackTask? && forall i | 0 <= i < |tasks| :: tasks[i].CallbackTask?
    ensures Count(tasks, t) == 0
  {
    if tasks != [] {
      CountCallbacks(tasks[..|tasks| - 1], t);
    }
  }

  lemma OpenAccounted(s: State, s': State, onPool: bool, t: Task)
    requires Accounted(s, t) && s' == Step(s, Open(onPool))
    ensures Accounted(s', t)
  {
    CountOne(s.queue, LoopTask(|s.loops|), t);
    match t {
      case StageTask(_) => assert Expected(s', t) == Expected(s, t);
      case LoopTask(l) => assert l < |s.loops| ==> s'.loops[l] == s.loops[l];
      case CallbackTask(_) =>
    }
  }

  /** Moving the first task from one list to the other keeps all counts. */
  lemma MoveFirst(queue: seq<Task>, running: seq<Task>, t: Task)
    requires queue != []
    ensures Count(queue[1..], t) + Count(running + [queue[0]], t) == Count(queue, t) + Count(running, t)
  {
    CountRemoved(queue, 0, t);
    assert queue[..0] + queue[1..] == queue[1..];
    CountOne(running, queue[0], t);
  }

  lemma StartAccounted(s: State, t: Task)
    requires Possible(s, Start) && Accounted(s, t) && TasksAccounted(s)
    ensures Accounted(Step(s, Start), t)
  {
    MoveFirst(s.queue, s.running, t);
    if s.queue[0].LoopTask? {
      var l := s.queue[0].l;
      StartedOnce(s, l);
      CountMember(s.queue, LoopTask(l));
      assert Accounted(s, LoopTask(l));
      assert !s.loops[l].phase.Ended?;
    }
  }

  lemma FinishAccounted(s: State, i: nat, succeeds: bool, t: Task)
    requires Possible(s, Finish(i, succeeds)) && TasksAccounted(s)
    ensures Accounted(Step(s, Finish(i, succeeds)), t)
  {
    assert Accounted(s, t);
    if !t.CallbackTask? {
      RunningStageIsDue(s, i);
      CountRemoved(s.running, i, t);
      FinishQueued(s, i, Step(s, Finish(i, succeeds)), succeeds, t);
    }
  }

  /** The next stage is queued, or else the handlers are. */
  lemma FinishQueued(s: State, i: nat, s': State, succeeds: bool, t: Task)
    requires Possible(s, Finish(i, succeeds)) && s' == Step(s, Finish(i, succeeds)) && !t.CallbackTask?
    ensures
      var r := s.running[i].r;
      && s'.running == s.running[..i] + s.running[i + 1..] && s'.loops == s.loops
      && |s'.requests| == |s.requests|
      && s'.requests[r].left == (if s.requests[r].left > 0 then s.requests[r].left - 1 else 0)
      && (forall q | 0 <= q < |s.requests| && q != r :: s'.requests[q] == s.requests[q])
      && Count(s'.queue, t) == Count(s.queue, t) + (if s.requests[r].left > 1 && t == StageTask(r) then 1 else 0)
  {
    var q := s.requests[s.running[i].r];
    CountOne(s.queue, StageTask(s.running[i].r), t);
    CountAppend(s.queue, Callbacks(q.handlers), t);
    CountCallbacks(Callbacks(q.handlers), t);
  }

  lemma CallAccounted(s: State, i: nat, t: Task)
    requires Possible(s, Call(i)) && Accounted(s, t)
    ensures Accounted(Step(s, Call(i)), t)
  {
    CountRemoved(s.running, i, t);
  }

  lemma WaitAccounted(s: State, l: nat, t: Task)
    requires Possible(s, Wait(l)) && Accounted(s, t)
    ensures Accounted(Step(s, Wait(l)), t)
  {
    if t.StageTask? && t.r < |s.requests| {
      RegisteredFacts(s.requests, Prune(s, s.loops[l].inflight), Wake(l, s.loops[l].waits), t.r);
    }
  }

  lemma SubmitAccounted(s: State, l: nat, t: Task)
    requires Possible(s, Submit(l)) && Accounted(s, t)
    ensures Accounted(Step(s, Submit(l)), t)
  {
    var line := s.loops[l].phase.line;
    CountOne(s.queue, if line.Decoded? then StageTask(|s.requests|) else CallbackTask(LogFailure), t);
  }

  lemma LeaveAccounted(s: State, l: nat, crashed: bool, t: Task)
    requires Possible(s, Leave(l, crashed)) && Accounted(s, t) && TasksAccounted(s)
    ensures Accounted(Step(s, Leave(l, crashed)), t)
  {
    CountWithout(s.running, LoopTask(l), t);
    CountMember(s.queue, LoopTask(l));
    assert Accounted(s, LoopTask(l));
  }

  lemma StepAccounted(s: State, a: Action, t: Task)
    requires Possible(s, a) && TasksAccounted(s)
    ensures Accounted(Step(s, a), t)
  {
    assert Accounted(s, t);
    match a {
      case Open(onPool) => OpenAccounted(s, Step(s, a), onPool, t);
      case Start => StartAccounted(s, t);
      case Finish(i, succeeds) => FinishAccounted(s, i, succeeds, t);
      case Call(i) => CallAccounted(s, i, t);
      case Wait(l) => WaitAccounted(s, l, t);
      case Submit(l) => SubmitAccounted(s, l, t);
      case Leave(l, crashed) => LeaveAccounted(s, l, crashed, t);
      case _ =>
    }
  }

  /** A loop is waiting for its thread exactly while its task is in the queue. */
  lemma SubmittedStep(s: State, a: Action, l: nat)
    requires Possible(s, a) && TasksAccounted(s) && l < |Step(s, a).loops|
    ensures
      var s' := Step(s, a);
      && (s'.loops[l].onPool ==> (s'.loops[l].phase.Submitted? <==> LoopTask(l) in s'.queue))
      && (s'.loops[l].phase.Submitted? ==> s'.loops[l].onPool)
  {
    var s' := Step(s, a);
    match a {
      case Open(onPool) =>
        if l == |s.loops| {
          CountMember(s.queue, LoopTask(l));
          assert Accounted(s, LoopTask(l));
        }
      case Start =>
        assert s.queue == [s.queue[0]] + s.queue[1..];
        if LoopTask(l) == s.queue[0] {
          StartedOnce(s, l);
        }
      case _ =>
    }
  }

  lemma StartedOnce(s: State, l: nat)
    requires s.queue != [] && s.queue[0] == LoopTask(l) && TasksAccounted(s)
    ensures LoopTask(l) !in s.queue[1..] && l < |s.loops| && s.loops[l].onPool
  {
    var t := LoopTask(l);
    assert Accounted(s, t);
    CountAppend([t], s.queue[1..], t);
    assert s.queue == [t] + s.queue[1..];
    assert [t][..0] == [] && Count([t], t) == 1;
    CountMember(s.queue[1..], t);
  }

  /** Some handler that ends the wait `w` of loop `l` is still to run. */
  ghost predicate WillWake(s: State, l: nat, w: nat) {
    || CallbackTask(Wake(l, w)) in s.queue
    || CallbackTask(Wake(l, w)) in s.running
    || exists r: nat :: Registers(s.requests, r, Wake(l, w))
  }

  ghost predicate Registers(requests: seq<Request>, r: nat, h: Handler) {
    r < |requests| && requests[r].left > 0 && h in requests[r].handlers
  }

  /** No loop sleeps for ever for want of a handler. */
  ghost predicate WakesDue(s: State) {
    && (forall l: nat | l < |s.loops| && s.loops[l].phase.Waiting? :: WillWake(s, l, s.loops[l].phase.wait))
    && (forall r: nat | r < |s.requests| && s.requests[r].left == 0 :: s.requests[r].handlers == [])
  }

  ghost predicate Inv(s: State) {
    TasksAccounted(s) && Bounded(s) && WakesDue(s)
  }

  lemma WakeStart(s: State, l: nat, w: nat)
    requires Possible(s, Start) && WillWake(s, l, w)
    ensures WillWake(Step(s, Start), l, w)
  {
    var s' := Step(s, Start);
    assert s.queue == [s.queue[0]] + s.queue[1..];
    assert s'.requests == s.requests;
  }

  lemma WakeFinish(s: State, i: nat, succeeds: bool, l: nat, w: nat)
    requires Possible(s, Finish(i, succeeds)) && WillWake(s, l, w)
    ensures WillWake(Step(s, Finish(i, succeeds)), l, w)
  {
    var s', h := Step(s, Finish(i, succeeds)), Wake(l, w);
    assert s.running == s.running[..i] + [s.running[i]] + s.running[i + 1..];
    if r: nat :| Registers(s.requests, r, h) {
      if r == s.running[i].r && s.requests[r].left == 1 {
        var j :| 0 <= j < |s.requests[r].handlers| && s.requests[r].handlers[j] == h;
        assert Callbacks(s.requests[r].handlers)[j] == CallbackTask(h);
        assert CallbackTask(h) in s'.queue;
      } else {
        assert Registers(s'.requests, r, h);
      }
    }
  }

  /** A handler that has run has woken its loop, if that was still in the same wait. */
  lemma WakeCall(s: State, i: nat, l: nat)
    requires Possible(s, Call(i)) && WakesDue(s) && l < |s.loops| && Step(s, Call(i)).loops[l].phase.Waiting?
    ensures WillWake(Step(s, Call(i)), l, Step(s, Call(i)).loops[l].phase.wait)
  {
    var s' := Step(s, Call(i));
    assert s.running == s.running[..i] + [s.running[i]] + s.running[i + 1..];
    var w := s.loops[l].phase.wait;
    assert WillWake(s, l, w) && s'.requests == s.requests;
    if r: nat :| Registers(s.requests, r, Wake(l, w)) {
      assert Registers(s'.requests, r, Wake(l, w));
    }
  }

  /** A loop that begins to wait has a handler on some request that is not finished. */
  lemma WakeWait(s: State, l: nat, k: nat)
    requires Possible(s, Wait(l)) && WakesDue(s) && Bounded(s) && k < |s.loops|
    requires Step(s, Wait(l)).loops[k].phase.Waiting?
    ensures WillWake(Step(s, Wait(l)), k, Step(s, Wait(l)).loops[k].phase.wait)
  {
    var s' := Step(s, Wait(l));
    var inflight, h := Prune(s, s.loops[l].inflight), Wake(l, s.loops[l].waits);
    PruneKeeps(s, s.loops[l].inflight);
    if k == l {
      var r := inflight[0];
      assert r in inflight && !Completed(s, r);
      RegisteredFacts(s.requests, inflight, h, r);
      assert Registers(s'.requests, r, h);
    } else {
      var w := s.loops[k].phase.wait;
      assert WillWake(s, k, w);
      if r: nat :| Registers(s.requests, r, Wake(k, w)) {
        RegisteredFacts(s.requests, inflight, h, r);
        assert Registers(s'.requests, r, Wake(k, w));
      }
    }
  }

  lemma WakeElsewhere(s: State, a: Action, l: nat, w: nat)
    requires Possible(s, a) && WillWake(s, l, w)
    requires a.Open? || a.Read? || a.Submit? || a.EndOfInput? || a.Leave?
    ensures WillWake(Step(s, a), l, w)
  {
    var s' := Step(s, a);
    if a.Leave? && s.loops[a.l].onPool {
      WithoutOther(s.running, LoopTask(a.l), CallbackTask(Wake(l, w)));
    }
    if r: nat :| Registers(s.requests, r, Wake(l, w)) {
      assert Registers(s'.requests, r, Wake(l, w));
    }
  }

  lemma {:induction false} WithoutOther(tasks: seq<Task>, gone: Task, t: Task)
    requires t != gone
    ensures t in WithoutTask(tasks, gone) <==> t in tasks
  {
    if tasks != [] {
      var n := |tasks| - 1;
      assert tasks == tasks[..n] + [tasks[n]];
      WithoutOther(tasks[..n], gone, t);
    }
  }

  lemma WaitsBefore(s: State, a: Action, l: nat)
    requires Possible(s, a) && l < |Step(s, a).loops| && Step(s, a).loops[l].phase.Waiting?
    requires !a.Call? && !a.Wait?
    ensures l < |s.loops| && s.loops[l].phase == Step(s, a).loops[l].phase
  {
  }

  lemma HandlersStep(s: State, a: Action)
    requires Possible(s, a) && WakesDue(s) && Bounded(s)
    ensures
      var s' := Step(s, a);
      forall r: nat | r < |s'.requests| && s'.requests[r].left == 0 :: s'.requests[r].handlers == []
  {
    if a.Wait? {
      var inflight := Prune(s, s.loops[a.l].inflight);
      PruneKeeps(s, s.loops[a.l].inflight);
      forall r: nat | r < |s.requests| && Step(s, a).requests[r].left == 0
        ensures Step(s, a).requests[r].handlers == []
      {
        RegisteredFacts(s.requests, inflight, Wake(a.l, s.loops[a.l].waits), r);
      }
    }
  }

  lemma WakesStep(s: State, a: Action)
    requires Possible(s, a) && WakesDue(s) && Bounded(s)
    ensures WakesDue(Step(s, a))
  {
    var s' := Step(s, a);
    HandlersStep(s, a);
    forall l: nat | l < |s'.loops| && s'.loops[l].phase.Waiting?
      ensures WillWake(s', l, s'.loops[l].phase.wait)
    {
      if a.Call? {
        WakeCall(s, a.i, l);
      } else if a.Wait? {
        WakeWait(s, a.l, l);
      } else {
        WaitsBefore(s, a, l);
        var w := s.loops[l].phase.wait;
        match a {
          case Start => WakeStart(s, l, w);
          case Finish(i, succeeds) => WakeFinish(s, i, succeeds, l, w);
          case _ => WakeElsewhere(s, a, l, w);
        }
      }
    }
  }

  lemma InvStep(s: State, a: Action)
    requires Inv(s) && Possible(s, a)
    ensures Inv(Step(s, a))
  {
    BoundedStep(s, a);
    WakesStep(s, a);
    var s' := Step(s, a);
    forall t
      ensures Accounted(s', t)
    {
      StepAccounted(s, a, t);
    }
    forall l | 0 <= l < |s'.loops|
      ensures s'.loops[l].onPool ==> (s'.loops[l].phase.Submitted? <==> LoopTask(l) in s'.queue)
      ensures s'.loops[l].phase.Submitted? ==> s'.loops[l].onPool
    {
      SubmittedStep(s, a, l);
    }
  }

  /** In every reachable state at most four tasks run and no connection has more than 64 requests in
      flight; every stage still to be run is in the pool exactly once, and every open connection loop
      is; and every loop that waits has a handler to come that will wake it. */
  lemma {:induction false} RunInv(acts: seq<Action>, trace: seq<State>)
    requires IsRun(acts, trace)
    ensures Inv(trace[|acts|])
    ensures |trace[|acts|].running| <= 4
    ensures forall l | 0 <= l < |trace[|acts|].loops| :: |trace[|acts|].loops[l].inflight| <= 64
  {
    if acts != [] {
      var n := |acts| - 1;
      assert IsRun(acts[..n], trace[..n + 1]);
      RunInv(acts[..n], trace[..n + 1]);
      InvStep(trace[n], acts[n]);
    }
  }

  // ---------------------------------------------------------------------------------------------
  // Progress
  // ---------------------------------------------------------------------------------------------

  /** The threads held by connection loops. */
  function LoopThreads(running: seq<Task>): nat {
    if running == [] then 0
    else
      var n := |running| - 1;
      LoopThreads(running[..n]) + (if running[n].LoopTask? then 1 else 0)
  }

  ghost predicate Unfinished(s: State) {
    exists r :: 0 <= r < |s.requests| && s.requests[r].left > 0
  }

  predicate Holds(tasks: seq<Task>) {
    exists i :: 0 <= i < |tasks| && tasks[i].CallbackTask?
  }

  /** The pool has something to do besides running connection loops. */
  ghost predicate PoolHasWork(s: State) {
    Unfinished(s) || Holds(s.queue) || Holds(s.running)
  }

  /** The pool itself can move: a thread can take a task, or a running stage or handler can end. */
  ghost predicate PoolCanMove(s: State) {
    Possible(s, Start) || (exists i: nat :: Possible(s, Finish(i, true))) || (exists i: nat :: Possible(s, Call(i)))
  }

  lemma {:induction false} AllLoops(running: seq<Task>)
    ensures LoopThreads(running) <= |running|
    ensures LoopThreads(running) == |running| <==> forall i | 0 <= i < |running| :: running[i].LoopTask?
  {
    if running != [] {
      var n := |running| - 1;
      AllLoops(running[..n]);
      assert running == running[..n] + [running[n]];
      assert (forall i | 0 <= i < |running| :: running[i].LoopTask?) <==>
             (forall i | 0 <= i < n :: running[..n][i].LoopTask?) && running[n].LoopTask? by {
        assert forall i | 0 <= i < n :: running[..n][i] == running[i];
      }
    }
  }

  /** Progress, exactly: with a stage or handler still to run, the pool is stuck if and only if
      connection loops hold all four threads. */
  lemma PoolStuckIff(s: State)
    requires Inv(s) && PoolHasWork(s)
    ensures PoolCanMove(s) <==> LoopThreads(s.running) < THREADS
  {
    AllLoops(s.running);
    if LoopThreads(s.running) < THREADS {
      if exists i: nat :: i < |s.running| && !s.running[i].LoopTask? {
        var i: nat :| i < |s.running| && !s.running[i].LoopTask?;
        if s.running[i].StageTask? {
          RunningStageIsDue(s, i);
          assert Possible(s, Finish(i, true));
        } else {
          assert Possible(s, Call(i));
        }
      } else if Unfinished(s) {
        var r :| 0 <= r < |s.requests| && s.requests[r].left > 0;
        assert Accounted(s, StageTask(r));
        CountMember(s.running, StageTask(r));
        CountMember(s.queue, StageTask(r));
        assert StageTask(r) !in s.running;
        assert s.queue != [];
      }
    }
  }

  /** A stage that runs is still to be counted. */
  lemma RunningStageIsDue(s: State, i: nat)
    requires TasksAccounted(s) && i < |s.running| && s.running[i].StageTask?
    ensures s.running[i].r < |s.requests| && s.requests[s.running[i].r].left > 0
  {
    assert Accounted(s, s.running[i]);
    CountMember(s.running, s.running[i]);
  }

  /** Connections whose loop occupies, or will occupy, a thread. */
  function OpenLoops(s: State): set<nat> {
    set l: nat | l < |s.loops| && s.loops[l].onPool && !s.loops[l].phase.Ended?
  }

  lemma {:induction false} CountTwice<A>(xs: seq<A>, i: nat, j: nat)
    requires i < j < |xs| && xs[i] == xs[j]
    ensures Count(xs, xs[i]) >= 2
  {
    var n := |xs| - 1;
    if j < n {
      CountTwice(xs[..n], i, j);
    } else {
      CountMember(xs[..n], xs[i]);
      assert xs[..n][i] == xs[i];
    }
  }

  lemma {:induction false} LoopThreadsAtMost(running: seq<Task>, open: set<nat>)
    requires forall i | 0 <= i < |running| && running[i].LoopTask? :: running[i].l in open
    requires forall i, j | 0 <= i < j < |running| && running[i].LoopTask? :: running[i] != running[j]
    ensures LoopThreads(running) <= |open|
  {
    if running != [] {
      var n := |running| - 1;
      if running[n].LoopTask? {
        var fewer := open - {running[n].l};
        assert forall i | 0 <= i < n :: running[..n][i] == running[i];
        LoopThreadsAtMost(running[..n], fewer);
        assert |fewer| == |open| - 1;
      } else {
        LoopThreadsAtMost(running[..n], open);
      }
    }
  }

  /** Loops hold at most as many threads as there are open socket connections. */
  lemma LoopsHoldThreads(s: State)
    requires Inv(s)
    ensures LoopThreads(s.running) <= |OpenLoops(s)|
  {
    forall i | 0 <= i < |s.running| && s.running[i].LoopTask?
      ensures s.running[i].l in OpenLoops(s)
      ensures forall j | i < j < |s.running| :: s.running[i] != s.running[j]
    {
      assert Accounted(s, s.running[i]);
      CountMember(s.running, s.running[i]);
      forall j | i < j < |s.running|
        ensures s.running[i] != s.running[j]
      {
        if s.running[i] == s.running[j] {
          CountTwice(s.running, i, j);
        }
      }
    }
    LoopThreadsAtMost(s.running, OpenLoops(s));
  }

  /** Stages still to run and handlers still to be submitted. */
  function Load(requests: seq<Request>): nat {
    if requests == [] then 0
    else
      var n := |requests| - 1;
      Load(requests[..n]) + requests[n].left + |requests[n].handlers|
  }

  /** How many more moves the pool can make on its own. */
  function Measure(s: State): nat {
    2 * Load(s.requests) + 2 * |s.queue| + |s.running|
  }

  lemma {:induction false} LoadUpdate(requests: seq<Request>, r: nat, q: Request)
    requires r < |requests|
    ensures Load(requests[r := q]) + requests[r].left + |requests[r].handlers| == Load(requests) + q.left + |q.handlers|
  {
    var n := |requests| - 1;
    if r < n {
      LoadUpdate(requests[..n], r, q);
      assert requests[r := q][..n] == requests[..n][r := q];
    } else {
      assert requests[r := q][..n] == requests[..n];
    }
  }

  /** Every move of the pool brings it closer to being idle. */
  lemma PoolMoveDescends(s: State, a: Action)
    requires Possible(s, a) && a.OfPool()
    ensures Measure(Step(s, a)) < Measure(s)
  {
    if a.Finish? {
      var s', r := Step(s, a), s.running[a.i].r;
      LoadUpdate(s.requests, r, s'.requests[r]);
      assert s'.requests == s.requests[r := s'.requests[r]];
    }
  }

  /** `acts` leads from `s` to `t`. */
  ghost predicate Leads(s: State, acts: seq<Action>, t: State)
    decreases |acts|
  {
    if acts == [] then s == t else Possible(s, acts[0]) && Leads(Step(s, acts[0]), acts[1..], t)
  }

  ghost predicate PoolOnly(acts: seq<Action>) {
    forall i | 0 <= i < |acts| :: acts[i].OfPool()
  }

  /** However the threads are scheduled, the pool makes only finitely many moves on its own. */
  lemma {:induction false} PoolRunsEnd(s: State, acts: seq<Action>, t: State)
    requires Leads(s, acts, t) && PoolOnly(acts)
    ensures |acts| + Measure(t) <= Measure(s)
    decreases |acts|
  {
    if acts != [] {
      PoolMoveDescends(s, acts[0]);
      assert forall i | 0 <= i < |acts[1..]| :: acts[1..][i] == acts[i + 1];
      PoolRunsEnd(Step(s, acts[0]), acts[1..], t);
    }
  }

  lemma PoolMoveKeepsOpen(s: State, a: Action)
    requires Inv(s) && Possible(s, a) && a.OfPool()
    ensures OpenLoops(Step(s, a)) == OpenLoops(s)
  {
    if a.Start? && s.queue[0].LoopTask? {
      StartedOnce(s, s.queue[0].l);
      CountMember(s.queue, s.queue[0]);
      assert Accounted(s, s.queue[0]);
    }
  }

  /** With fewer than four open socket connections every request is finished by the pool alone: from
      any reachable state, even with every loop blocked, its moves lead to a state in which no stage
      or handler is left, no loop waits any more, and every loop has capacity. */
  lemma {:induction false} PoolFinishesAll(s: State) returns (acts: seq<Action>, t: State)
    requires Inv(s) && |OpenLoops(s)| < THREADS
    ensures Leads(s, acts, t) && PoolOnly(acts) && Inv(t) && |acts| <= Measure(s)
    ensures !PoolHasWork(t)
    ensures forall l: nat | l < |t.loops| :: !t.loops[l].phase.Waiting? && HasCapacity(t, l)
    decreases Measure(s)
  {
    if PoolHasWork(s) {
      LoopsHoldThreads(s);
      PoolStuckIff(s);
      var a: Action;
      if Possible(s, Start) {
        a := Start;
      } else if exists i: nat :: Possible(s, Finish(i, true)) {
        var i: nat :| Possible(s, Finish(i, true));
        a := Finish(i, true);
      } else {
        var i: nat :| Possible(s, Call(i));
        a := Call(i);
      }
      InvStep(s, a);
      PoolMoveDescends(s, a);
      PoolMoveKeepsOpen(s, a);
      var rest;
      rest, t := PoolFinishesAll(Step(s, a));
      acts := [a] + rest;
      assert acts[1..] == rest;
    } else {
      acts, t := [], s;
      forall l: nat | l < |s.loops|
        ensures !s.loops[l].phase.Waiting? && HasCapacity(s, l)
      {
        AllCompleted(s, s.loops[l].inflight);
        NobodyWaits(s, l);
      }
    }
  }

  /** With nothing left to run, no handler is still to come, so no loop can be waiting. */
  lemma NobodyWaits(s: State, l: nat)
    requires Inv(s) && !PoolHasWork(s) && l < |s.loops|
    ensures !s.loops[l].phase.Waiting?
  {
    forall w: nat
      ensures !WillWake(s, l, w)
    {
      NothingWakes(s, l, w);
    }
  }

  lemma NothingWakes(s: State, l: nat, w: nat)
    requires !PoolHasWork(s)
    ensures !WillWake(s, l, w)
  {
    forall r: nat
      ensures !Registers(s.requests, r, Wake(l, w))
    {
      assert r < |s.requests| ==> s.requests[r].left == 0;
    }
  }

  lemma {:induction false} AllCompleted(s: State, inflight: seq<nat>)
    requires !Unfinished(s) && forall r | r in inflight :: r < |s.requests|
    ensures Prune(s, inflight) == []
  {
    if inflight != [] {
      var n := |inflight| - 1;
      assert forall r | r in inflight[..n] :: r in inflight;
      AllCompleted(s, inflight[..n]);
      assert inflight[n] in inflight;
      assert !(s.requests[inflight[n]].left > 0);
    }
  }

  // ---------------------------------------------------------------------------------------------
  // Stages, counted over a run
  // ---------------------------------------------------------------------------------------------

  /** Action `a` ends a stage of request `r`. */
  predicate EndsStage(s: State, a: Action, r: nat) {
    a.Finish? && a.i < |s.running| && s.running[a.i] == StageTask(r)
  }

  /** How many stages of `r` have ended in a run. */
  function EndedStages(acts: seq<Action>, trace: seq<State>, r: nat): nat
    requires |trace| > |acts|
  {
    if acts == [] then 0
    else
      var n := |acts| - 1;
      EndedStages(acts[..n], trace[..n + 1], r) + (if EndsStage(trace[n], acts[n], r) then 1 else 0)
  }

  /** Some stage of `r` has failed in the run. */
  ghost predicate FailsIn(acts: seq<Action>, trace: seq<State>, r: nat)
    requires |trace| > |acts|
  {
    exists k :: 0 <= k < |acts| && EndsStage(trace[k], acts[k], r) && !acts[k].succeeds
  }

  function Stages(line: Line): nat {
    match line
    case Rejected => 0
    case Decoded(_, more) => 1 + more
  }

  /** On every run each request has as many stages left as have not ended, and counts as failed exactly
      if one of them has failed; a request not yet made has none. */
  lemma {:induction false} StagesCounted(acts: seq<Action>, trace: seq<State>, r: nat)
    requires IsRun(acts, trace)
    ensures
      var s := trace[|acts|];
      if r < |s.requests| then
        && EndedStages(acts, trace, r) + s.requests[r].left == Stages(s.requests[r].line)
        && (s.requests[r].failed <==> FailsIn(acts, trace, r))
      else EndedStages(acts, trace, r) == 0 && !FailsIn(acts, trace, r)
  {
    if acts != [] {
      var n := |acts| - 1;
      var front, before := acts[..n], trace[..n + 1];
      assert IsRun(front, before) && before[n] == trace[n];
      StagesCounted(front, before, r);
      RunInv(front, before);
      StageStep(trace[n], acts[n], r);
      FailsSnoc(acts, trace, r);
    }
  }

  lemma FailsSnoc(acts: seq<Action>, trace: seq<State>, r: nat)
    requires acts != [] && |trace| == |acts| + 1
    ensures
      var n := |acts| - 1;
      FailsIn(acts, trace, r)
      <==> FailsIn(acts[..n], trace[..n + 1], r) || (EndsStage(trace[n], acts[n], r) && !acts[n].succeeds)
  {
    var n := |acts| - 1;
    assert forall k | 0 <= k < n :: acts[..n][k] == acts[k] && trace[..n + 1][k] == trace[k];
  }

  /** What one action does to request `r`. */
  lemma StageStep(s: State, a: Action, r: nat)
    requires Inv(s) && Possible(s, a)
    ensures r < |s.requests| ==> r < |Step(s, a).requests|
    ensures
      var t := Step(s, a);
      if r >= |t.requests| then !EndsStage(s, a, r)
      else if r >= |s.requests| then
        !EndsStage(s, a, r) && t.requests[r].left == Stages(t.requests[r].line) && !t.requests[r].failed
      else
        && t.requests[r].line == s.requests[r].line
        && t.requests[r].left + (if EndsStage(s, a, r) then 1 else 0) == s.requests[r].left
        && (t.requests[r].failed <==> s.requests[r].failed || (EndsStage(s, a, r) && !a.succeeds))
  {
    if EndsStage(s, a, r) {
      RunningStageIsDue(s, a.i);
    }
    if a.Wait? && r < |s.requests| {
      RegisteredFacts(s.requests, Prune(s, s.loops[a.l].inflight), Wake(a.l, s.loops[a.l].waits), r);
    }
  }

  /** The peer can always end a connection whose loop is at its reading: by closing its side, which the
      loop then drains, or by breaking it; and a draining loop can always leave. */
  lemma ConnectionEnds(s: State, l: nat)
    requires l < |s.loops|
    ensures s.loops[l].phase.Reading? ==>
              && Possible(s, EndOfInput(l)) && Possible(Step(s, EndOfInput(l)), Leave(l, false))
              && Step(Step(s, EndOfInput(l)), Leave(l, false)).loops[l].phase.Ended?
    ensures s.loops[l].phase.Reading? ==> Possible(s, Leave(l, true)) && Step(s, Leave(l, true)).loops[l].phase.Ended?
  {
  }
}

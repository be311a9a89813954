/** The parts of the pipeline are those of their own modules.  The worker inside it is the push worker:
    the worker's actions in a run of the pipeline, read as events of `PushWorker` in which every attempt
    succeeds, are a run of `PushWorker` with the same updates received, entries waiting, pushes
    requested and flushes acknowledged; a batch under way is a partly visited flush or tick.  Its
    transport skips foreign replies as the transport's scan does. */
module PipelineRefinement {
  import opened Protocol
  import opened Debounce
  import PW = PushWorker
  import T = Transport
  import opened Pipeline
  import opened PipelineOrder
  import opened PipelineChecks

  /** A waiting entry with the text of its edit. */
  function WithText(edits: seq<Edit>, p: Pending<nat>): Pending<string> {
    Pending(p.uri, p.version, if p.item < |edits| then edits[p.item].text else "", p.queuedAt)
  }

  function Carried(edits: seq<Edit>, q: Queue<nat>): Queue<string> {
    map u | u in q :: WithText(edits, q[u])
  }

  /** The edits pushed so far: those whose requests have identifiers, and the one about to get one. */
  function PushesOf(requests: seq<Purpose>): seq<nat> {
    if requests == [] then []
    else
      var n := |requests| - 1;
      PushesOf(requests[..n]) + (if requests[n].PushOf? then [requests[n].n] else [])
  }

  function Pushed(s: State): seq<nat> {
    PushesOf(s.net.requests) + (if s.up.sending.Some? && !s.up.issued then [s.up.sending.value] else [])
  }

  /** The worker's requests are pushes of these edits, in this order. */
  ghost predicate SamePushes(edits: seq<Edit>, requests: seq<Pending<string>>, pushed: seq<nat>) {
    && |requests| == |pushed|
    && forall i | 0 <= i < |pushed| ::
         && pushed[i] < |edits|
         && Edit(requests[i].uri, requests[i].version, requests[i].item) == edits[pushed[i]]
  }

  /** The worker has received these edits, in this order. */
  ghost predicate SameEdits(edits: seq<Edit>, arrived: seq<Pending<string>>, received: nat) {
    && |arrived| == received <= |edits|
    && forall i | 0 <= i < received :: Edit(arrived[i].uri, arrived[i].version, arrived[i].item) == edits[i]
  }

  ghost predicate Mirrors(s: State, v: PW.State) {
    && v.alive
    && SameEdits(s.up.edits, v.arrived, s.up.received)
    && (forall i | 0 <= i < |v.attempts| :: v.attempts[i].outcome.Published?)
    && v.pending == Carried(s.up.edits, s.up.pending)
    && (forall c: nat :: c in s.up.acked <==> c in v.acks)
    && SamePushes(s.up.edits, v.requests, Pushed(s))
  }

  function Succeeding(n: nat): seq<PW.Outcome> {
    seq(n, _ => PW.Published)
  }

  /** The flush a command sends. */
  function FlushOf(w: Upstream, c: nat): PW.Stimulus
    requires c < |w.commands|
  {
    PW.Flush(if w.commands[c].target.Some? then Some([w.commands[c].target.value]) else None, c)
  }

  function Batch(stimulus: PW.Stimulus, targets: seq<Uri>): PW.Event {
    PW.Event(stimulus, targets, Succeeding(|targets|))
  }

  /** The event of the push worker that an action of the pipeline's worker begins. */
  ghost function StartedBy(w: Upstream, a: Action): seq<PW.Event>
    requires a.OfWorker() && WorkerPossible(w, a)
  {
    match a
    case WorkerReceive(at, order) =>
      (match w.channel[0]
       case EditItem(n) => [PW.Event(PW.Update(w.edits[n].uri, w.edits[n].version, w.edits[n].text, at), [], [])]
       case FlushItem(c) =>
         [Batch(FlushOf(w, c), if w.commands[c].target.Some? then [w.commands[c].target.value] else order)])
    case WorkerTick(now, order) => [Batch(PW.Tick(now), order)]
    case _ => []
  }

  /** The worker's part of a run: its receptions and ticks, in order. */
  ghost function EventsOf(acts: seq<Action>, trace: seq<State>, window: nat): seq<PW.Event>
    requires IsRun(acts, trace, window)
  {
    if acts == [] then []
    else
      var n := |acts| - 1;
      EventsOf(acts[..n], trace[..n + 1], window) + (if acts[n].OfWorker() then StartedBy(trace[n].up, acts[n]) else [])
  }

  /** All events begun: the finished ones and the batch under way. */
  function Begun(s: State, es: seq<PW.Event>, stimulus: PW.Stimulus, done: seq<Uri>): seq<PW.Event> {
    if s.up.mode.Idle? then es else es + [Batch(stimulus, done + s.up.targets)]
  }

  /** `es` are the worker's finished events; during a batch, `stimulus` is its cause and `done` the
      targets visited so far. */
  ghost predicate Simulates(s: State, es: seq<PW.Event>, stimulus: PW.Stimulus, done: seq<Uri>) {
    && PW.IsRun(es) && PW.Exec(es).alive
    && match s.up.mode
       case Idle => Mirrors(s, PW.Exec(es))
       case Visiting(ack) =>
         var all := done + s.up.targets;
         && (if ack.Some? then ack.value < |s.up.commands| && stimulus == FlushOf(s.up, ack.value) else stimulus.Tick?)
         && PW.Possible(PW.Exec(es), Batch(stimulus, all))
         && Mirrors(s, PW.VisitAll(PW.Exec(es), done, Succeeding(|done|)))
  }

  // ---------------------------------------------------------------------------------------------
  // Small steps
  // ---------------------------------------------------------------------------------------------

  lemma CarriedGrows(w: Upstream, edits: seq<Edit>)
    requires Held(w) && w.edits <= edits
    ensures Carried(edits, w.pending) == Carried(w.edits, w.pending)
  {
  }

  /** Nothing the worker shows has changed. */
  lemma MirrorStays(s: State, t: State, v: PW.State)
    requires Mirrors(s, v) && Held(s.up) && s.up.edits <= t.up.edits && t.up.received == s.up.received
    requires t.up.pending == s.up.pending && t.up.acked == s.up.acked && Pushed(t) == Pushed(s)
    ensures Mirrors(t, v)
  {
    CarriedGrows(s.up, t.up.edits);
  }

  lemma PushesAppend(requests: seq<Purpose>, p: Purpose)
    ensures PushesOf(requests + [p]) == PushesOf(requests) + (if p.PushOf? then [p.n] else [])
  {
    assert (requests + [p])[..|requests|] == requests;
  }

  lemma ArriveCarried(edits: seq<Edit>, q: Queue<nat>, p: Pending<nat>)
    ensures Carried(edits, Arrive(q, p)) == Arrive(Carried(edits, q), WithText(edits, p))
  {
  }

  lemma EditMirrored(s: State, es: seq<PW.Event>, n: nat, at: nat) returns (es': seq<PW.Event>)
    requires Inv(s) && s.up.mode.Idle? && s.up.channel != [] && s.up.channel[0] == EditItem(n) && n == s.up.received
    requires PW.IsRun(es) && PW.Exec(es).alive && Mirrors(s, PW.Exec(es)) && n < |s.up.edits|
    ensures PW.IsRun(es') && PW.Exec(es').alive && Mirrors(s.(up := EditReceived(s.up, n, at)), PW.Exec(es'))
    ensures es' == es + [PW.Event(PW.Update(s.up.edits[n].uri, s.up.edits[n].version, s.up.edits[n].text, at), [], [])]
  {
    var e := s.up.edits[n];
    var event := PW.Event(PW.Update(e.uri, e.version, e.text, at), [], []);
    PW.ExecAppend(es, event);
    es' := es + [event];
    ArriveCarried(s.up.edits, s.up.pending, EntryFor(s.up.edits, n, at));
    EditsMore(s.up.edits, PW.Exec(es).arrived, n, PW.Push(event.stimulus));
    assert Pushed(s.(up := EditReceived(s.up, n, at))) == Pushed(s);
  }

  lemma EditsMore(edits: seq<Edit>, arrived: seq<Pending<string>>, n: nat, p: Pending<string>)
    requires SameEdits(edits, arrived, n) && n < |edits| && Edit(p.uri, p.version, p.item) == edits[n]
    ensures SameEdits(edits, arrived + [p], n + 1)
  {
  }

  lemma DueCarried(edits: seq<Edit>, q: Queue<nat>, now: nat, window: nat)
    ensures DuePart(Carried(edits, q), now, window).Keys == DuePart(q, now, window).Keys
  {
  }

  lemma TakenCarried(edits: seq<Edit>, q: Queue<nat>, u: Uri)
    ensures Carried(edits, q - {u}) == Carried(edits, q) - {u}
  {
  }

  /** The identifier flag is only set while a push is being sent. */
  ghost predicate FlagSound(s: State) {
    s.up.issued ==> s.up.sending.Some?
  }

  lemma VisitMirrored(s: State, v: PW.State, u: Uri)
    requires Inv(s) && FlagSound(s) && Mirrors(s, v) && WorkerPossible(s.up, WorkerVisit) && u == s.up.targets[0]
    ensures Mirrors(s.(up := WorkerStep(s.up, WorkerVisit)), PW.Visit(v, u, PW.Published))
  {
    assert Held(s.up) && s.up.sending.None?;
    VisitTaken(s, s.(up := WorkerStep(s.up, WorkerVisit)), v, u);
  }

  lemma VisitTaken(s: State, t: State, v: PW.State, u: Uri)
    requires Held(s.up) && FlagSound(s) && Mirrors(s, v) && WorkerPossible(s.up, WorkerVisit) && u == s.up.targets[0]
    requires t == s.(up := WorkerStep(s.up, WorkerVisit)) && s.up.sending.None?
    ensures Mirrors(t, PW.Visit(v, u, PW.Published))
  {
    if u in s.up.pending {
      VisitEffect(s, t, u);
      TakenCarried(s.up.edits, s.up.pending, u);
      TakenMirrored(s, t, v, u);
    } else {
      MirrorStays(s, t, v);
    }
  }

  lemma VisitEffect(s: State, t: State, u: Uri)
    requires FlagSound(s) && WorkerPossible(s.up, WorkerVisit) && u == s.up.targets[0] && u in s.up.pending
    requires t == s.(up := WorkerStep(s.up, WorkerVisit)) && s.up.sending.None?
    ensures Pushed(t) == Pushed(s) + [s.up.pending[u].item]
    ensures t.up == s.up.(pending := s.up.pending - {u}, targets := t.up.targets, sending := t.up.sending)
  {
    NothingIssued(s);
  }

  lemma TakenMirrored(s: State, t: State, v: PW.State, u: Uri)
    requires Held(s.up) && Mirrors(s, v) && u in s.up.pending
    requires t.up == s.up.(pending := s.up.pending - {u}, targets := t.up.targets, sending := t.up.sending)
    requires Pushed(t) == Pushed(s) + [s.up.pending[u].item]
    requires Carried(s.up.edits, s.up.pending - {u}) == Carried(s.up.edits, s.up.pending) - {u}
    ensures Mirrors(t, PW.Visit(v, u, PW.Published))
  {
    PushesMore(s.up.edits, v.requests, Pushed(s), v.pending[u], s.up.pending[u].item);
  }

  lemma PushesMore(edits: seq<Edit>, requests: seq<Pending<string>>, pushed: seq<nat>, p: Pending<string>, n: nat)
    requires SamePushes(edits, requests, pushed) && n < |edits| && Edit(p.uri, p.version, p.item) == edits[n]
    ensures SamePushes(edits, requests + [p], pushed + [n])
  {
  }

  lemma NothingIssued(s: State)
    requires s.up.sending.None?
    ensures Pushed(s) == PushesOf(s.net.requests)
  {
  }

  // ---------------------------------------------------------------------------------------------
  // The simulation
  // ---------------------------------------------------------------------------------------------

  lemma VisitAllSnoc(start: PW.State, done: seq<Uri>, u: Uri)
    ensures PW.VisitAll(start, done + [u], Succeeding(|done + [u]|))
         == PW.Visit(PW.VisitAll(start, done, Succeeding(|done|)), u, PW.Published)
  {
    assert (done + [u])[..|done|] == done && Succeeding(|done| + 1)[..|done|] == Succeeding(|done|);
  }

  lemma VisitSimulated(s: State, es: seq<PW.Event>, stimulus: PW.Stimulus, done: seq<Uri>)
    requires Inv(s) && FlagSound(s) && Simulates(s, es, stimulus, done) && WorkerPossible(s.up, WorkerVisit)
    ensures
      var t := s.(up := WorkerStep(s.up, WorkerVisit));
      && Simulates(t, es, stimulus, done + [s.up.targets[0]])
      && Begun(t, es, stimulus, done + [s.up.targets[0]]) == Begun(s, es, stimulus, done)
  {
    var u := s.up.targets[0];
    var v := PW.VisitAll(PW.Exec(es), done, Succeeding(|done|));
    var t := s.(up := WorkerStep(s.up, WorkerVisit));
    VisitFrame(s.up);
    VisitAllSnoc(PW.Exec(es), done, u);
    VisitMirrored(s, v, u);
    BatchContinues(s, t, es, stimulus, done, u);
  }

  lemma BatchContinues(s: State, t: State, es: seq<PW.Event>, stimulus: PW.Stimulus, done: seq<Uri>, u: Uri)
    requires Simulates(s, es, stimulus, done) && s.up.mode.Visiting? && s.up.targets != [] && u == s.up.targets[0]
    requires t.up.targets == s.up.targets[1..] && t.up.mode == s.up.mode && t.up.commands == s.up.commands
    requires Mirrors(t, PW.VisitAll(PW.Exec(es), done + [u], Succeeding(|done + [u]|)))
    ensures Simulates(t, es, stimulus, done + [u]) && Begun(t, es, stimulus, done + [u]) == Begun(s, es, stimulus, done)
  {
    assert (done + [u]) + t.up.targets == done + s.up.targets;
  }

  lemma VisitFrame(w: Upstream)
    requires WorkerPossible(w, WorkerVisit)
    ensures
      var v := WorkerStep(w, WorkerVisit);
      v.targets == w.targets[1..] && v.mode == w.mode && v.commands == w.commands
  {
  }

  lemma FinishSimulated(s: State, es: seq<PW.Event>, stimulus: PW.Stimulus, done: seq<Uri>) returns (es': seq<PW.Event>)
    requires Inv(s) && Simulates(s, es, stimulus, done) && WorkerPossible(s.up, WorkerFinish)
    ensures PW.IsRun(es') && PW.Exec(es').alive && Mirrors(s.(up := WorkerStep(s.up, WorkerFinish)), PW.Exec(es'))
    ensures es' == Begun(s, es, stimulus, done)
  {
    assert done + s.up.targets == done;
    PW.ExecAppend(es, Batch(stimulus, done));
    es' := es + [Batch(stimulus, done)];
    PW.VisitAllFrame(PW.Exec(es), done, Succeeding(|done|));
    var t := s.(up := WorkerStep(s.up, WorkerFinish));
    MirrorStays(s, s, PW.VisitAll(PW.Exec(es), done, Succeeding(|done|)));
    assert Pushed(t) == Pushed(s);
  }

  lemma WorkerSimulatedStep(s: State, a: Action, es: seq<PW.Event>, stimulus: PW.Stimulus, done: seq<Uri>)
    returns (es': seq<PW.Event>, stimulus': PW.Stimulus, done': seq<Uri>)
    requires Inv(s) && FlagSound(s) && Simulates(s, es, stimulus, done) && a.OfWorker() && WorkerPossible(s.up, a)
    ensures Simulates(s.(up := WorkerStep(s.up, a)), es', stimulus', done')
    ensures Begun(s.(up := WorkerStep(s.up, a)), es', stimulus', done')
         == Begun(s, es, stimulus, done) + StartedBy(s.up, a)
  {
    match a {
      case WorkerReceive(_, _) => es', stimulus', done' := ReceiveSimulated(s, a, es, stimulus, done);
      case WorkerTick(_, _) =>
        es', stimulus', done' := es, PW.Tick(a.now), [];
        TickSimulated(s, a, es, stimulus, done);
      case WorkerVisit =>
        es', stimulus', done' := es, stimulus, done + [s.up.targets[0]];
        VisitSimulated(s, es, stimulus, done);
        NothingStarted(s.up, a, Begun(s, es, stimulus, done));
      case WorkerFinish =>
        stimulus', done' := stimulus, done;
        es' := FinishSimulated(s, es, stimulus, done);
        NothingStarted(s.up, a, Begun(s, es, stimulus, done));
      case _ =>
        es', stimulus', done' := es, stimulus, done;
        EditorSimulated(s, a, es, stimulus, done);
    }
  }

  lemma NothingStarted(w: Upstream, a: Action, es: seq<PW.Event>)
    requires a.OfWorker() && WorkerPossible(w, a) && !a.WorkerReceive? && !a.WorkerTick?
    ensures es + StartedBy(w, a) == es
  {
  }

  lemma EditorSimulated(s: State, a: Action, es: seq<PW.Event>, stimulus: PW.Stimulus, done: seq<Uri>)
    requires Inv(s) && Simulates(s, es, stimulus, done) && (a.Change? || a.RunCheck?)
    ensures Simulates(s.(up := WorkerStep(s.up, a)), es, stimulus, done)
    ensures Begun(s.(up := WorkerStep(s.up, a)), es, stimulus, done)
         == Begun(s, es, stimulus, done) + StartedBy(s.up, a)
  {
    QuietSimulated(s, s.(up := WorkerStep(s.up, a)), es, stimulus, done);
    NothingStarted(s.up, a, Begun(s, es, stimulus, done));
  }

  lemma TickSimulated(s: State, a: Action, es: seq<PW.Event>, stimulus: PW.Stimulus, done: seq<Uri>)
    requires Inv(s) && Simulates(s, es, stimulus, done) && a.WorkerTick? && WorkerPossible(s.up, a)
    ensures Simulates(s.(up := WorkerStep(s.up, a)), es, PW.Tick(a.now), [])
    ensures Begun(s.(up := WorkerStep(s.up, a)), es, PW.Tick(a.now), [])
         == Begun(s, es, stimulus, done) + StartedBy(s.up, a)
  {
    DueCarried(s.up.edits, s.up.pending, a.now, WORKER_WINDOW);
    BatchBegins(s, s.(up := WorkerStep(s.up, a)), es, PW.Tick(a.now));
  }

  lemma ReceiveSimulated(s: State, a: Action, es: seq<PW.Event>, stimulus: PW.Stimulus, done: seq<Uri>)
    returns (es': seq<PW.Event>, stimulus': PW.Stimulus, done': seq<Uri>)
    requires Inv(s) && FlagSound(s) && Simulates(s, es, stimulus, done) && a.WorkerReceive? && WorkerPossible(s.up, a)
    ensures Simulates(s.(up := WorkerStep(s.up, a)), es', stimulus', done')
    ensures Begun(s.(up := WorkerStep(s.up, a)), es', stimulus', done')
         == Begun(s, es, stimulus, done) + StartedBy(s.up, a)
  {
    es', stimulus', done' := es, stimulus, done;
    if s.up.channel[0].EditItem? {
      OrderEdit(s.up, s.up.channel[0].n, a.at);
      es' := EditMirrored(s, es, s.up.channel[0].n, a.at);
    } else {
      stimulus', done' := FlushOf(s.up, s.up.channel[0].c), [];
      BatchBegins(s, s.(up := WorkerStep(s.up, a)), es, stimulus');
    }
  }

  lemma BatchBegins(s: State, t: State, es: seq<PW.Event>, stimulus: PW.Stimulus)
    requires Inv(s) && s.up.mode.Idle? && PW.IsRun(es) && PW.Exec(es).alive && Mirrors(s, PW.Exec(es))
    requires t.net == s.net && t.up == s.up.(channel := t.up.channel, mode := t.up.mode, targets := t.up.targets)
    requires t.up.mode.Visiting?
    requires
      if t.up.mode.ack.None? then stimulus.Tick?
      else t.up.mode.ack.value < |s.up.commands| && stimulus == FlushOf(s.up, t.up.mode.ack.value)
    requires PW.Possible(PW.Exec(es), Batch(stimulus, t.up.targets))
    ensures Simulates(t, es, stimulus, []) && Begun(t, es, stimulus, []) == es + [Batch(stimulus, t.up.targets)]
  {
    assert [] + t.up.targets == t.up.targets;
    MirrorStays(s, t, PW.Exec(es));
  }

  /** A step that the worker does not notice. */
  lemma QuietSimulated(s: State, t: State, es: seq<PW.Event>, stimulus: PW.Stimulus, done: seq<Uri>)
    requires Inv(s) && Simulates(s, es, stimulus, done) && s.up.edits <= t.up.edits && s.up.commands <= t.up.commands
    requires t.up.pending == s.up.pending && t.up.acked == s.up.acked && Pushed(t) == Pushed(s)
    requires t.up.mode == s.up.mode && t.up.targets == s.up.targets && t.up.received == s.up.received
    ensures Simulates(t, es, stimulus, done) && Begun(t, es, stimulus, done) == Begun(s, es, stimulus, done)
  {
    if s.up.mode.Idle? {
      MirrorStays(s, t, PW.Exec(es));
    } else {
      MirrorStays(s, t, PW.VisitAll(PW.Exec(es), done, Succeeding(|done|)));
    }
  }

  lemma PushedSame(s: State, a: Action, window: nat)
    requires Inv(s) && FlagSound(s) && Possible(s, a, window) && !a.OfWorker()
    ensures Pushed(Step(s, a, window)) == Pushed(s) && FlagSound(Step(s, a, window))
  {
    match a {
      case IssuePush => IssuedSame(s, a, window);
      case IssueCheck(_, _, _) => IssuedSame(s, a, window);
      case IssueOther(_, _, _) => IssuedSame(s, a, window);
      case Answer(i) => AnsweredSame(s, s.bridge.written[i].id);
      case _ =>
    }
  }

  lemma IssuedSame(s: State, a: Action, window: nat)
    requires FlagSound(s) && Possible(s, a, window) && (a.IssuePush? || a.IssueCheck? || a.IssueOther?)
    ensures Pushed(Step(s, a, window)) == Pushed(s) && FlagSound(Step(s, a, window))
  {
    var t := Step(s, a, window);
    PushesAppend(s.net.requests, t.net.requests[|s.net.requests|]);
    assert t.net.requests == s.net.requests + [t.net.requests[|s.net.requests|]];
  }

  lemma AnsweredSame(s: State, id: string)
    requires Linked(s) && FlagSound(s)
    ensures Pushed(Answered(s, id)) == Pushed(s) && FlagSound(Answered(s, id))
  {
  }

  lemma FlagStep(s: State, a: Action, window: nat)
    requires Inv(s) && FlagSound(s) && Possible(s, a, window)
    ensures FlagSound(Step(s, a, window))
  {
    if !a.OfWorker() {
      PushedSame(s, a, window);
    }
  }

  lemma OthersLeaveWorker(s: State, a: Action, window: nat)
    requires Possible(s, a, window) && !a.OfWorker()
    ensures
      var t := Step(s, a, window);
      t.up == s.up.(sending := t.up.sending, issued := t.up.issued, delivered := t.up.delivered)
  {
  }

  /** The worker's receptions and ticks in a run of the pipeline are a run of the push worker: `es`
      are those whose batch is finished, and during a batch its `done` targets have been visited.  At
      every moment the two workers agree on what they have received, what waits, what they have
      requested, which is what the pipeline's transport was asked for, and what they have
      acknowledged. */
  lemma {:induction false} WorkerSimulated(acts: seq<Action>, trace: seq<State>, window: nat)
    returns (es: seq<PW.Event>, stimulus: PW.Stimulus, done: seq<Uri>)
    requires IsRun(acts, trace, window)
    ensures Simulates(trace[|acts|], es, stimulus, done)
    ensures EventsOf(acts, trace, window) == Begun(trace[|acts|], es, stimulus, done)
    ensures FlagSound(trace[|acts|])
  {
    if acts == [] {
      es, stimulus, done := [], PW.Tick(0), [];
      assert Carried([], map[]) == map[];
    } else {
      var n := |acts| - 1;
      RunPrefix(acts, trace, window);
      AlwaysInv(acts[..n], trace[..n + 1], window);
      es, stimulus, done := WorkerSimulated(acts[..n], trace[..n + 1], window);
      var s, a := trace[n], acts[n];
      FlagStep(s, a, window);
      if a.OfWorker() {
        es, stimulus, done := WorkerSimulatedStep(s, a, es, stimulus, done);
      } else {
        OthersSimulated(s, a, es, stimulus, done, window);
      }
    }
  }

  lemma OthersSimulated(s: State, a: Action, es: seq<PW.Event>, stimulus: PW.Stimulus, done: seq<Uri>, window: nat)
    requires Inv(s) && FlagSound(s) && Simulates(s, es, stimulus, done) && Possible(s, a, window) && !a.OfWorker()
    ensures
      var t := Step(s, a, window);
      Simulates(t, es, stimulus, done) && Begun(t, es, stimulus, done) == Begun(s, es, stimulus, done) + []
  {
    PushedSame(s, a, window);
    OthersLeaveWorker(s, a, window);
    QuietSimulated(s, Step(s, a, window), es, stimulus, done);
  }

  // ---------------------------------------------------------------------------------------------
  // The transport
  // ---------------------------------------------------------------------------------------------

  function Ids(replies: seq<T.Incoming>): seq<string>
    requires forall i | 0 <= i < |replies| :: replies[i].Reply?
  {
    seq(|replies|, i requires 0 <= i < |replies| => replies[i].message.id)
  }

  /** The replies reach the transport one after the other. */
  function AnsweredAll(s: State, ids: seq<string>): State
    decreases |ids|
  {
    if ids == [] then s else AnsweredAll(Answered(s, ids[0]), ids[1..])
  }

  lemma {:induction false} IdleStays(s: State, ids: seq<string>)
    requires s.net.held.None?
    ensures AnsweredAll(s, ids) == s
    decreases |ids|
  {
    if ids != [] {
      IdleStays(s, ids[1..]);
    }
  }

  /** While a request is in flight, replies end it exactly when the transport's scan matches, and
      otherwise leave everything as it was. */
  lemma {:induction false} SkipsLikeScan(s: State, replies: seq<T.Incoming>, ending: T.Ending)
    requires s.net.held.Some? && forall i | 0 <= i < |replies| :: replies[i].Reply?
    ensures
      var id := s.net.held.value.message.id;
      AnsweredAll(s, Ids(replies)) == if T.Scan(id, replies, ending).Matched? then Answered(s, id) else s
  {
    if replies != [] {
      var id := s.net.held.value.message.id;
      assert Ids(replies)[1..] == Ids(replies[1..]);
      if replies[0].message.id == id {
        assert Answered(s, id).net.held.None?;
        IdleStays(Answered(s, id), Ids(replies[1..]));
      } else {
        SkipsLikeScan(s, replies[1..], ending);
      }
    }
  }
}

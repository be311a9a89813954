/** isabelle-lsp/src/main.rs, `spawn_push_worker` and `send_document_push`: the language server's
    own debouncer, with a flush barrier that check commands wait for.

    The channel into the worker is a FIFO queue, so the order of events is the order of sending. */
module PushWorker {
  import opened Protocol
  import opened Debounce
  import opened HashOrder

  const WINDOW := 200

  /** What became of one attempt to push: the session was seen stopped and no request was made, or
      a request was made and its reply was published or not. */
  datatype Outcome = Stopped | Published | RequestFailed

  datatype Attempt = Attempt(push: Pending<string>, outcome: Outcome)

  /** `requests` counts the bridge requests started so far. */
  datatype State = State(
    pending: Queue<string>,
    arrived: seq<Pending<string>>,
    attempts: seq<Attempt>,
    requests: seq<Pending<string>>,
    acks: seq<nat>,
    alive: bool)

  const INITIAL := State(map[], [], [], [], [], true)

  datatype Stimulus =
    | Update(uri: Uri, version: int, text: string, at: nat)
    | Flush(uris: Option<seq<Uri>>, token: nat)
    | Tick(now: nat)
    | ChannelClosed

  /** `targets` is the order in which URIs are visited, `outcomes` what each attempt meets. */
  datatype Event = Event(stimulus: Stimulus, targets: seq<Uri>, outcomes: seq<Outcome>)

  function Visit(s: State, u: Uri, o: Outcome): State {
    if u in s.pending then
      s.(pending := s.pending - {u},
         attempts := s.attempts + [Attempt(s.pending[u], o)],
         requests := if o.Stopped? then s.requests else s.requests + [s.pending[u]])
    else s
  }

  function VisitAll(s: State, targets: seq<Uri>, outcomes: seq<Outcome>): State
    requires |targets| == |outcomes|
  {
    if targets == [] then s
    else
      var n := |targets| - 1;
      Visit(VisitAll(s, targets[..n], outcomes[..n]), targets[n], outcomes[n])
  }

  ghost predicate Possible(s: State, e: Event) {
    && |e.targets| == |e.outcomes|
    && match e.stimulus
       case Flush(Some(list), _) => e.targets == list
       case Flush(None, _) => Walks(e.targets, s.pending.Keys)
       case Tick(now) => Walks(e.targets, DuePart(s.pending, now, WINDOW).Keys)
       case _ => e.targets == []
  }

  /** An event that does not say what each of its attempts meets does nothing; no run has one. */
  function Step(s: State, e: Event): State {
    if !s.alive || |e.targets| != |e.outcomes| then s
    else match e.stimulus
      case Update(u, v, text, at) =>
        var p := Pending(u, v, text, at);
        s.(pending := Arrive(s.pending, p), arrived := s.arrived + [p])
      case Flush(_, token) =>
        var t := VisitAll(s, e.targets, e.outcomes);
        t.(acks := t.acks + [token])
      case Tick(_) => VisitAll(s, e.targets, e.outcomes)
      case ChannelClosed => s.(alive := false)
  }

  function Exec(es: seq<Event>): State {
    if es == [] then INITIAL else Step(Exec(es[..|es| - 1]), es[|es| - 1])
  }

  ghost predicate IsRun(es: seq<Event>) {
    es == [] || (IsRun(es[..|es| - 1]) && Possible(Exec(es[..|es| - 1]), es[|es| - 1]))
  }

  lemma ExecAppend(es: seq<Event>, e: Event)
    requires IsRun(es) && Possible(Exec(es), e)
    ensures IsRun(es + [e]) && Exec(es + [e]) == Step(Exec(es), e)
  {
    assert (es + [e])[..|es|] == es;
  }

  // ---------------------------------------------------------------------------------------------
  // The worker itself
  // ---------------------------------------------------------------------------------------------

  /** The first `i` targets have been visited. */
  ghost predicate Visited(start: State, s: State, targets: seq<Uri>, outcomes: seq<Outcome>, i: nat) {
    i == |outcomes| <= |targets| && s == VisitAll(start, targets[..i], outcomes)
  }

  lemma VisitedNext(start: State, s: State, targets: seq<Uri>, outcomes: seq<Outcome>, i: nat, o: Outcome)
    requires i < |targets| && Visited(start, s, targets, outcomes, i)
    ensures Visited(start, Visit(s, targets[i], o), targets, outcomes + [o], i + 1)
  {
    assert targets[..i + 1][..i] == targets[..i] && (outcomes + [o])[..i] == outcomes;
  }

  lemma VisitedAll(start: State, s: State, targets: seq<Uri>, outcomes: seq<Outcome>)
    requires Visited(start, s, targets, outcomes, |targets|)
    ensures s == VisitAll(start, targets, outcomes)
  {
    assert targets[..|targets|] == targets;
  }

  /** What an attempt meets: the session flag is read first, and only then is a request made. */
  function OutcomeOf(running: bool, succeeds: bool): Outcome {
    if !running then Stopped else if succeeds then Published else RequestFailed
  }

  /** Every attempt of event `k` met what the environment had in store for it: it was stopped exactly if
      it read a session that does not run, and it published exactly if its request succeeded as well. */
  ghost predicate Meets(e: Event, k: nat, running: (nat, nat) -> bool, succeeds: (nat, nat) -> bool) {
    && |e.targets| == |e.outcomes|
    && forall i | 0 <= i < |e.targets| ::
         && (e.outcomes[i].Stopped? <==> !running(k, i))
         && (e.outcomes[i].Published? <==> running(k, i) && succeeds(k, i))
  }

  /** The pushes requested when these targets are visited in turn: at position `i` the entry that waits
      there, unless an earlier position has taken it or the session is not running then. */
  ghost function Requests(q: Queue<string>, targets: seq<Uri>, running: nat -> bool): seq<Pending<string>> {
    if targets == [] then []
    else
      var n := |targets| - 1;
      var before := Requests(q, targets[..n], running);
      if targets[n] in q && targets[n] !in targets[..n] && running(n) then before + [q[targets[n]]] else before
  }

  /** The targets of an event, for an event that visits any. */
  ghost function Visits(e: Event): seq<Uri> {
    if e.stimulus.Flush? || e.stimulus.Tick? then e.targets else []
  }

  /** Event `k` of the trace requested just what it should. */
  ghost predicate RequestsAt(trace: seq<Event>, k: nat, running: (nat, nat) -> bool)
    requires k < |trace|
  {
    Exec(trace[..k + 1]).requests
    == Exec(trace[..k]).requests + Requests(Exec(trace[..k]).pending, Visits(trace[k]), (i: nat) => running(k, i))
  }

  lemma {:induction false} VisitAllRequests(s: State, targets: seq<Uri>, outcomes: seq<Outcome>, running: nat -> bool)
    requires |targets| == |outcomes| && forall i | 0 <= i < |targets| :: outcomes[i].Stopped? <==> !running(i)
    ensures VisitAll(s, targets, outcomes).requests == s.requests + Requests(s.pending, targets, running)
  {
    if targets == [] {
      assert s.requests + [] == s.requests;
    } else {
      var n := |targets| - 1;
      VisitAllRequests(s, targets[..n], outcomes[..n], running);
      VisitAllPending(s, targets[..n], outcomes[..n], targets[n]);
      var before := Requests(s.pending, targets[..n], running);
      var mid := VisitAll(s, targets[..n], outcomes[..n]);
      if targets[n] in mid.pending {
        assert s.requests + (before + [s.pending[targets[n]]]) == s.requests + before + [s.pending[targets[n]]];
      }
    }
  }

  lemma StepRequests(s: State, e: Event, running: nat -> bool)
    requires s.alive && Possible(s, e)
    requires forall i | 0 <= i < |e.targets| :: e.outcomes[i].Stopped? <==> !running(i)
    ensures Step(s, e).requests == s.requests + Requests(s.pending, Visits(e), running)
  {
    VisitAllRequests(s, e.targets, e.outcomes, running);
    assert s.requests + [] == s.requests;
  }

  /** What the worker requests, event by event: exactly the pushes it attempts while the session runs. */
  lemma RequestsFollow(trace: seq<Event>, input: seq<Stimulus>, running: (nat, nat) -> bool,
                       succeeds: (nat, nat) -> bool, k: nat)
    requires IsRun(trace) && Follows(trace, input, running, succeeds) && k < |trace| && Exec(trace[..k]).alive
    ensures RequestsAt(trace, k, running)
    ensures (forall i: nat :: !running(k, i)) ==> Exec(trace[..k + 1]).requests == Exec(trace[..k]).requests
  {
    var s, e := Exec(trace[..k]), trace[k];
    StepOfRun(trace, k);
    assert Meets(e, k, running, succeeds);
    StepRequests(s, e, (i: nat) => running(k, i));
    if forall i: nat :: !running(k, i) {
      NoneRequested(s.pending, Visits(e), (i: nat) => running(k, i));
      assert s.requests + [] == s.requests;
    }
  }

  lemma StepOfRun(trace: seq<Event>, k: nat)
    requires IsRun(trace) && k < |trace|
    ensures Possible(Exec(trace[..k]), trace[k]) && Exec(trace[..k + 1]) == Step(Exec(trace[..k]), trace[k])
  {
    RunPrefix(trace, k + 1);
    assert trace[..k + 1][..k] == trace[..k];
  }

  lemma {:induction false} NoneRequested(q: Queue<string>, targets: seq<Uri>, running: nat -> bool)
    requires forall i: nat :: !running(i)
    ensures Requests(q, targets, running) == []
  {
    if targets != [] {
      NoneRequested(q, targets[..|targets| - 1], running);
    }
  }

  /** Event by event the trace is the input, each attempt meeting what the environment had for it. */
  ghost predicate Follows(trace: seq<Event>, input: seq<Stimulus>, running: (nat, nat) -> bool,
                          succeeds: (nat, nat) -> bool) {
    && |trace| <= |input|
    && forall k | 0 <= k < |trace| :: trace[k].stimulus == input[k] && Meets(trace[k], k, running, succeeds)
  }

  lemma FollowsAppend(trace: seq<Event>, input: seq<Stimulus>, running: (nat, nat) -> bool,
                      succeeds: (nat, nat) -> bool, e: Event)
    requires Follows(trace, input, running, succeeds) && |trace| < |input|
    requires e.stimulus == input[|trace|] && Meets(e, |trace|, running, succeeds)
    ensures Follows(trace + [e], input, running, succeeds)
  {
  }

  lemma RequestsAppend(trace: seq<Event>, input: seq<Stimulus>, running: (nat, nat) -> bool,
                       succeeds: (nat, nat) -> bool, e: Event)
    requires IsRun(trace + [e]) && Follows(trace + [e], input, running, succeeds) && Exec(trace).alive
    requires forall j | 0 <= j < |trace| :: RequestsAt(trace, j, running)
    ensures forall j | 0 <= j < |trace + [e]| :: RequestsAt(trace + [e], j, running)
  {
    var more := trace + [e];
    forall j | 0 <= j < |more|
      ensures RequestsAt(more, j, running)
    {
      if j < |trace| {
        assert RequestsAt(trace, j, running);
        assert more[..j + 1] == trace[..j + 1] && more[..j] == trace[..j];
      } else {
        assert more[..j] == trace;
        RequestsFollow(more, input, running, succeeds, j);
      }
    }
  }

  class Worker {
    var pendingByUri: Queue<string>
    var requests: seq<Pending<string>>
    var acks: seq<nat>
    var alive: bool
    ghost var state: State

    ghost predicate Valid()
      reads this
    {
      && Keyed(pendingByUri)
      && state.pending == pendingByUri && state.requests == requests
      && state.acks == acks && state.alive == alive
    }

    constructor ()
      ensures Valid() && state == INITIAL
    {
      pendingByUri, requests, acks, alive := map[], [], [], true;
      state := INITIAL;
    }

    /** Remove and push each target that is waiting.  `running` says what each attempt reads from
        the session flag, `succeeds` whether its request is answered and published. */
    method Drain(targets: seq<Uri>, running: nat -> bool, succeeds: nat -> bool) returns (ghost outcomes: seq<Outcome>)
      requires Valid()
      modifies this
      ensures Valid() && |outcomes| == |targets| && state == VisitAll(old(state), targets, outcomes)
      ensures forall i | 0 <= i < |targets| :: outcomes[i] == OutcomeOf(running(i), succeeds(i))
      ensures requests == old(requests) + Requests(old(pendingByUri), targets, running)
      ensures acks == old(acks) && alive == old(alive)
    {
      outcomes := [];
      var i := 0;
      while i < |targets|
        invariant 0 <= i <= |targets| && Valid() && Visited(old(state), state, targets, outcomes, i)
        invariant forall j | 0 <= j < i :: outcomes[j] == OutcomeOf(running(j), succeeds(j))
        invariant acks == old(acks) && alive == old(alive)
      {
        ghost var outcome := OutcomeOf(running(i), succeeds(i));
        VisitedNext(old(state), state, targets, outcomes, i, outcome);
        VisitOne(targets[i], running(i), succeeds(i));
        outcomes := outcomes + [outcome];
        i := i + 1;
      }
      VisitedAll(old(state), state, targets, outcomes);
      VisitAllRequests(old(state), targets, outcomes, running);
    }

    /** `send_document_push`, if anything is waiting for `u`. */
    method VisitOne(u: Uri, running: bool, succeeds: bool)
      requires Valid()
      modifies this`pendingByUri, this`requests, this`state
      ensures Valid() && state == Visit(old(state), u, OutcomeOf(running, succeeds))
      ensures requests == if u in old(pendingByUri) && running then old(requests) + [old(pendingByUri)[u]]
                          else old(requests)
    {
      state := Visit(state, u, OutcomeOf(running, succeeds));
      if u in pendingByUri {
        var push := pendingByUri[u];
        pendingByUri := pendingByUri - {u};
        if running {
          requests := requests + [push];
        }
      }
    }

    method Handle(stimulus: Stimulus, running: nat -> bool, succeeds: nat -> bool) returns (ghost e: Event)
      requires Valid() && alive
      modifies this
      ensures Valid() && e.stimulus == stimulus
      ensures Possible(old(state), e) && state == Step(old(state), e)
      ensures forall i | 0 <= i < |e.targets| :: e.outcomes[i] == OutcomeOf(running(i), succeeds(i))
    {
      e := Event(stimulus, [], []);
      match stimulus {
        case Update(uri, version, text, now) =>
          if uri in pendingByUri {
            if pendingByUri[uri].version <= version {
              pendingByUri := pendingByUri[uri := Pending(uri, version, text, now)];
            }
          } else {
            pendingByUri := pendingByUri[uri := Pending(uri, version, text, now)];
          }
          state := Step(state, e);
        case Flush(uris, token) =>
          var targets;
          if uris.Some? {
            targets := uris.value;
          } else {
            targets := InSomeOrder(pendingByUri.Keys);
          }
          ghost var outcomes := Drain(targets, running, succeeds);
          acks := acks + [token];
          state := state.(acks := state.acks + [token]);
          e := Event(stimulus, targets, outcomes);
        case Tick(now) =>
          var ready := InSomeOrder(DuePart(pendingByUri, now, WINDOW).Keys);
          ghost var outcomes := Drain(ready, running, succeeds);
          e := Event(stimulus, ready, outcomes);
        case ChannelClosed =>
          alive := false;
          state := Step(state, e);
      }
    }

    method Run(input: seq<Stimulus>, running: (nat, nat) -> bool, succeeds: (nat, nat) -> bool)
      returns (ghost trace: seq<Event>)
      requires Valid() && state == INITIAL
      modifies this
      ensures Valid() && IsRun(trace) && state == Exec(trace)
      ensures Follows(trace, input, running, succeeds) && (alive ==> |trace| == |input|)
      ensures forall k | 0 <= k < |trace| :: RequestsAt(trace, k, running)
    {
      trace := [];
      var k := 0;
      while k < |input| && alive
        invariant 0 <= k <= |input| && |trace| == k
        invariant Valid() && IsRun(trace) && state == Exec(trace)
        invariant Follows(trace, input, running, succeeds)
        invariant forall j | 0 <= j < k :: RequestsAt(trace, j, running)
      {
        ghost var e := Handle(input[k], (i: nat) => running(k, i), (i: nat) => succeeds(k, i));
        ExecAppend(trace, e);
        FollowsAppend(trace, input, running, succeeds, e);
        RequestsAppend(trace, input, running, succeeds, e);
        trace := trace + [e];
        k := k + 1;
      }
    }
  }

  // ---------------------------------------------------------------------------------------------
  // The ledger of the worker
  // ---------------------------------------------------------------------------------------------

  function Tried(attempts: seq<Attempt>): (pushes: seq<Pending<string>>)
    ensures |pushes| == |attempts| && forall i | 0 <= i < |attempts| :: pushes[i] == attempts[i].push
  {
    seq(|attempts|, i requires 0 <= i < |attempts| => attempts[i].push)
  }

  /** The attempts that made a request, in order. */
  function Requested(attempts: seq<Attempt>): seq<Pending<string>> {
    if attempts == [] then []
    else
      var n := |attempts| - 1;
      if attempts[n].outcome.Stopped? then Requested(attempts[..n]) else Requested(attempts[..n]) + [attempts[n].push]
  }

  /** The moves of a run: what each event added to the updates received and to the attempts made. */
  function LogOf(es: seq<Event>): Log<string> {
    if es == [] then []
    else
      var n := |es| - 1;
      LogOf(es[..n]) + Added(Exec(es[..n]), Exec(es))
  }

  function Added(s: State, t: State): Log<string> {
    Moves(s.arrived, Tried(s.attempts), t.arrived, Tried(t.attempts))
  }

  ghost predicate Balanced(log: Log<string>, s: State) {
    && Recorded(log, s.pending, s.arrived, Tried(s.attempts))
    && s.requests == Requested(s.attempts)
  }

  /** Visiting targets lets out entries and receives none. */
  ghost predicate OnlyOuts(s: State, t: State, outs: seq<Pending<string>>) {
    && t.arrived == s.arrived && t.acks == s.acks && t.alive == s.alive
    && Tried(t.attempts) == Tried(s.attempts) + outs
  }

  /** The epoch of `u` ends exactly if its entry leaves. */
  ghost predicate EpochEnds(log: Log<string>, s: State, log': Log<string>, t: State, u: Uri) {
    if u in s.pending && u !in t.pending then
      PastEpochs(log', u) == PastEpochs(log, u) + [Epoch(log, u)] && Epoch(log', u) == []
    else PastEpochs(log', u) == PastEpochs(log, u) && Epoch(log', u) == Epoch(log, u)
  }

  lemma AttemptAppended(attempts: seq<Attempt>, a: Attempt)
    ensures Tried(attempts + [a]) == Tried(attempts) + [a.push]
    ensures Requested(attempts + [a])
         == if a.outcome.Stopped? then Requested(attempts) else Requested(attempts) + [a.push]
  {
    assert (attempts + [a])[..|attempts|] == attempts;
  }

  lemma VisitBalanced(log: Log<string>, s: State, v: Uri, o: Outcome, u: Uri) returns (outs: seq<Pending<string>>)
    requires Balanced(log, s)
    ensures Balanced(log + OutMoves(outs), Visit(s, v, o)) && OnlyOuts(s, Visit(s, v, o), outs)
    ensures EpochEnds(log, s, log + OutMoves(outs), Visit(s, v, o), u)
  {
    if v in s.pending {
      var p := s.pending[v];
      outs := [p];
      EpochWinner(log, v);
      RecordedTake(log, s.pending, s.arrived, Tried(s.attempts), v);
      MoveAppended(log, Out(p), u);
      AttemptAppended(s.attempts, Attempt(p, o));
      assert OutMoves(outs) == [Out(p)];
    } else {
      outs := [];
      assert log + OutMoves(outs) == log && Tried(s.attempts) + [] == Tried(s.attempts);
    }
  }

  lemma {:induction false} VisitAllBalanced(log: Log<string>, s: State, targets: seq<Uri>, outcomes: seq<Outcome>,
                                            u: Uri)
    returns (outs: seq<Pending<string>>)
    requires Balanced(log, s) && |targets| == |outcomes|
    ensures
      var t := VisitAll(s, targets, outcomes);
      && Balanced(log + OutMoves(outs), t) && OnlyOuts(s, t, outs)
      && EpochEnds(log, s, log + OutMoves(outs), t, u)
      && (u in t.pending ==> u in s.pending)
  {
    if targets == [] {
      outs := [];
      assert log + OutMoves(outs) == log && Tried(s.attempts) + [] == Tried(s.attempts);
    } else {
      var n := |targets| - 1;
      var front := VisitAllBalanced(log, s, targets[..n], outcomes[..n], u);
      var mid := VisitAll(s, targets[..n], outcomes[..n]);
      var last := VisitBalanced(log + OutMoves(front), mid, targets[n], outcomes[n], u);
      outs := front + last;
      assert log + OutMoves(front) + OutMoves(last) == log + OutMoves(outs);
      OutsCompose(s, mid, VisitAll(s, targets, outcomes), front, last);
      EpochEndsOnce(log, s, log + OutMoves(front), mid, log + OutMoves(outs), VisitAll(s, targets, outcomes), u);
    }
  }

  lemma OutsCompose(s: State, mid: State, t: State, front: seq<Pending<string>>, last: seq<Pending<string>>)
    requires OnlyOuts(s, mid, front) && OnlyOuts(mid, t, last)
    ensures OnlyOuts(s, t, front + last)
  {
    assert Tried(s.attempts) + front + last == Tried(s.attempts) + (front + last);
  }

  lemma EpochEndsOnce(log: Log<string>, s: State, log1: Log<string>, mid: State, log2: Log<string>, t: State, u: Uri)
    requires EpochEnds(log, s, log1, mid, u) && EpochEnds(log1, mid, log2, t, u)
    requires (u in t.pending ==> u in mid.pending) && (u in mid.pending ==> u in s.pending)
    ensures EpochEnds(log, s, log2, t, u)
  {
  }

  lemma {:induction false} VisitAllFrame(s: State, targets: seq<Uri>, outcomes: seq<Outcome>)
    requires |targets| == |outcomes|
    ensures var t := VisitAll(s, targets, outcomes); t.arrived == s.arrived && t.acks == s.acks && t.alive == s.alive
  {
    if targets != [] {
      var n := |targets| - 1;
      VisitAllFrame(s, targets[..n], outcomes[..n]);
    }
  }

  /** Visiting takes out exactly the targets. */
  lemma {:induction false} VisitAllPending(s: State, targets: seq<Uri>, outcomes: seq<Outcome>, u: Uri)
    requires |targets| == |outcomes|
    ensures
      var t := VisitAll(s, targets, outcomes);
      && (u in t.pending <==> u in s.pending && u !in targets)
      && (u in t.pending ==> t.pending[u] == s.pending[u])
  {
    if targets != [] {
      var n := |targets| - 1;
      VisitAllPending(s, targets[..n], outcomes[..n], u);
      assert targets == targets[..n] + [targets[n]];
    }
  }

  lemma OutsAdded(log: Log<string>, s: State, t: State, outs: seq<Pending<string>>)
    requires OnlyOuts(s, t, outs)
    ensures log + Added(s, t) == log + OutMoves(outs)
  {
    MovesAre(s.arrived, Tried(s.attempts), [], outs);
    assert s.arrived + [] == s.arrived && InMoves([]) + OutMoves(outs) == OutMoves(outs);
  }

  /** What an event does to the epoch of `u`: an update for `u` extends it, and it ends exactly when the
      entry of `u` leaves. */
  ghost predicate EpochMoves(log: Log<string>, s: State, e: Event, t: State, log': Log<string>, u: Uri) {
    if s.alive && e.stimulus.Update? && e.stimulus.uri == u then
      PastEpochs(log', u) == PastEpochs(log, u) && Epoch(log', u) == Epoch(log, u) + [Push(e.stimulus)]
    else EpochEnds(log, s, log', t, u)
  }

  /** A batch of visits, with what the event does besides. */
  lemma BatchLogged(log: Log<string>, s: State, e: Event, t: State, u: Uri)
    requires Balanced(log, s) && |e.targets| == |e.outcomes|
    requires t == VisitAll(s, e.targets, e.outcomes).(acks := t.acks)
    ensures Balanced(log + Added(s, t), t) && EpochEnds(log, s, log + Added(s, t), t, u)
  {
    var outs := VisitAllBalanced(log, s, e.targets, e.outcomes, u);
    OutsAdded(log, s, t.(acks := s.acks), outs);
  }

  lemma UpdateLogged(log: Log<string>, s: State, t: State, p: Pending<string>)
    requires Balanced(log, s) && t == s.(pending := Arrive(s.pending, p), arrived := s.arrived + [p])
    ensures Balanced(log + Added(s, t), t) && Added(s, t) == [In(p)]
  {
    RecordedArrive(log, s.pending, s.arrived, Tried(s.attempts), p);
    MovesAre(s.arrived, Tried(s.attempts), [p], []);
    assert Tried(s.attempts) + [] == Tried(s.attempts) && InMoves([p]) + OutMoves([]) == [In(p)];
  }

  lemma QuietLogged(log: Log<string>, s: State, t: State)
    requires t == s.(alive := t.alive)
    ensures log + Added(s, t) == log
  {
    assert Tried(s.attempts) + [] == Tried(s.attempts) && log + OutMoves([]) == log;
    OutsAdded(log, s, s, []);
  }

  lemma StepLogged(log: Log<string>, s: State, e: Event, t: State, u: Uri)
    requires Balanced(log, s) && |e.targets| == |e.outcomes| && t == Step(s, e)
    ensures Balanced(log + Added(s, t), t) && EpochMoves(log, s, e, t, log + Added(s, t), u)
  {
    if !s.alive || e.stimulus.ChannelClosed? {
      QuietLogged(log, s, t);
    } else if e.stimulus.Update? {
      UpdateLogged(log, s, t, Push(e.stimulus));
      MoveAppended(log, In(Push(e.stimulus)), u);
    } else {
      BatchLogged(log, s, e, t, u);
    }
  }

  lemma {:induction false} RunBalanced(es: seq<Event>)
    requires IsRun(es)
    ensures Balanced(LogOf(es), Exec(es))
  {
    if es == [] {
      assert Tried([]) == [];
    } else {
      var n := |es| - 1;
      RunBalanced(es[..n]);
      StepLogged(LogOf(es[..n]), Exec(es[..n]), es[n], Exec(es), "");
    }
  }

  /** On every run the log of the run accounts for what waits, its epochs divide the updates received,
      and a request was made for exactly the attempts that did not find the session stopped. */
  lemma WorkerLedger(es: seq<Event>)
    requires IsRun(es)
    ensures Balanced(LogOf(es), Exec(es)) && forall u :: Explains(LogOf(es), u)
  {
    RunBalanced(es);
    forall u
      ensures Explains(LogOf(es), u)
    {
      EpochsExplain(LogOf(es), u);
    }
  }

  /** The common specification, on every run: what waits for `u` is the latest-received among the
      updates of greatest version since the last attempt for it, with the time of its receipt; and
      every attempt was made for the winner of the updates since the attempt before it. */
  lemma WaitingIsWinner(es: seq<Event>, u: Uri)
    requires IsRun(es)
    ensures
      var s, log := Exec(es), LogOf(es);
      && (u in s.pending <==> Epoch(log, u) != [])
      && (u in s.pending ==> Wins(Epoch(log, u), s.pending[u]))
      && Divides(PastEpochs(log, u), Epoch(log, u), Of(s.arrived, u), Of(Tried(s.attempts), u))
  {
    RunBalanced(es);
    EpochWinner(LogOf(es), u);
    EpochsExplain(LogOf(es), u);
  }

  /** The epochs of a run, event by event. */
  lemma EpochStep(es: seq<Event>, u: Uri)
    requires es != [] && IsRun(es)
    ensures
      var front := es[..|es| - 1];
      EpochMoves(LogOf(front), Exec(front), es[|es| - 1], Exec(es), LogOf(es), u)
  {
    var n := |es| - 1;
    RunBalanced(es[..n]);
    StepLogged(LogOf(es[..n]), Exec(es[..n]), es[n], Exec(es), u);
  }

  predicate Covers(uris: Option<seq<Uri>>, u: Uri) {
    uris.None? || u in uris.value
  }

  lemma FlushEmpties(s: State, e: Event)
    requires s.alive && e.stimulus.Flush? && Possible(s, e)
    ensures forall u | Covers(e.stimulus.uris, u) :: u !in Step(s, e).pending
  {
    forall u | Covers(e.stimulus.uris, u)
      ensures u !in Step(s, e).pending
    {
      VisitAllPending(s, e.targets, e.outcomes, u);
      if u in s.pending {
        assert u in e.targets;
      }
    }
  }

  lemma {:induction false} RunPrefix(es: seq<Event>, k: nat)
    requires IsRun(es) && k <= |es|
    ensures IsRun(es[..k])
  {
    if k < |es| {
      var front := es[..|es| - 1];
      RunPrefix(front, k);
      assert front[..k] == es[..k];
    } else {
      assert es[..k] == es;
    }
  }

  lemma {:induction false} AliveBefore(es: seq<Event>, k: nat)
    requires Exec(es).alive && k <= |es|
    ensures Exec(es[..k]).alive
  {
    if k < |es| {
      var front := es[..|es| - 1];
      StaysDead(Exec(front), es[|es| - 1]);
      AliveBefore(front, k);
      assert front[..k] == es[..k];
    } else {
      assert es[..k] == es;
    }
  }

  /** The worker ends when its channel is closed, and for no other reason; then nothing waits for it to
      come back. */
  lemma {:induction false} EndsWhenClosed(es: seq<Event>)
    requires IsRun(es)
    ensures Exec(es).alive <==> forall k | 0 <= k < |es| :: !es[k].stimulus.ChannelClosed?
  {
    if es != [] {
      var n := |es| - 1;
      EndsWhenClosed(es[..n]);
      VisitAllFrame(Exec(es[..n]), es[n].targets, es[n].outcomes);
      assert forall k | 0 <= k < n :: es[..n][k] == es[k];
      assert Exec(es[..n]).alive && es[n].stimulus.ChannelClosed? ==> !Exec(es).alive;
    }
  }

  lemma StaysDead(s: State, e: Event)
    ensures Step(s, e).alive ==> s.alive
  {
  }

  lemma {:induction false} LogPrefix(es: seq<Event>, k: nat)
    requires k <= |es|
    ensures LogOf(es[..k]) <= LogOf(es)
  {
    if k < |es| {
      var front := es[..|es| - 1];
      LogPrefix(front, k);
      assert front[..k] == es[..k];
    } else {
      assert es[..k] == es;
    }
  }

  lemma UpdateMove(es: seq<Event>, k: nat)
    requires IsRun(es) && k < |es| && Exec(es[..k]).alive && es[k].stimulus.Update?
    ensures IsRun(es[..k]) && IsRun(es[..k + 1])
    ensures LogOf(es[..k + 1]) == LogOf(es[..k]) + [In(Push(es[k].stimulus))]
  {
    RunPrefix(es, k);
    RunPrefix(es, k + 1);
    RunBalanced(es[..k]);
    assert es[..k + 1][..k] == es[..k];
    UpdateLogged(LogOf(es[..k]), Exec(es[..k]), Exec(es[..k + 1]), Push(es[k].stimulus));
  }

  /** The update `p` is answered for: the first attempt for its URI from position `before` on, at `a`,
      is for an update of at least its version; if none has been made, one waits that is. */
  ghost predicate AnsweredFrom(s: State, before: nat, a: nat, p: Pending<string>) {
    && FirstFrom(Tried(s.attempts), before, a, p.uri)
    && if a < |s.attempts| then s.attempts[a].push.version >= p.version
       else p.uri in s.pending && s.pending[p.uri].version >= p.version
  }

  /** No update is lost: the one that event `k` received is answered for by an attempt made since, or
      by what waits. */
  lemma UpdateAnswered(es: seq<Event>, s: State, k: nat, p: Pending<string>) returns (a: nat)
    requires IsRun(es) && s == Exec(es) && k < |es| && Exec(es[..k]).alive
    requires es[k].stimulus.Update? && p == Push(es[k].stimulus)
    ensures AnsweredFrom(s, |Exec(es[..k + 1]).attempts|, a, p)
  {
    var log, n := UpdateAt(es, s, k, p);
    a := AnsweredIn(log, s, n, |Exec(es[..k + 1]).attempts|, p);
  }

  /** Where the log of the whole run records the update received by event `k`. */
  lemma UpdateAt(es: seq<Event>, s: State, k: nat, p: Pending<string>) returns (log: Log<string>, n: nat)
    requires IsRun(es) && s == Exec(es) && k < |es| && Exec(es[..k]).alive
    requires es[k].stimulus.Update? && p == Push(es[k].stimulus)
    ensures log == LogOf(es) && Balanced(log, s)
    ensures n < |log| && log[n] == In(p) && |Outs(log[..n + 1])| == |Exec(es[..k + 1]).attempts|
  {
    log, n := LogOf(es), |LogOf(es[..k])|;
    RunBalanced(es);
    UpdateMove(es, k);
    LogStarts(es, k + 1, log);
    LastOfPrefix(log, LogOf(es[..k]), In(p));
  }

  lemma LogStarts(es: seq<Event>, k: nat, log: Log<string>)
    requires IsRun(es) && k <= |es| && log == LogOf(es)
    ensures LogOf(es[..k]) <= log && |Outs(LogOf(es[..k]))| == |Exec(es[..k]).attempts|
  {
    RunPrefix(es, k);
    LogPrefix(es, k);
    AttemptsLogged(es[..k]);
  }

  lemma AttemptsLogged(es: seq<Event>)
    requires IsRun(es)
    ensures |Outs(LogOf(es))| == |Exec(es).attempts|
  {
    RunBalanced(es);
  }

  lemma AnsweredIn(log: Log<string>, s: State, n: nat, before: nat, p: Pending<string>) returns (a: nat)
    requires Balanced(log, s) && n < |log| && log[n] == In(p) && before == |Outs(log[..n + 1])|
    ensures AnsweredFrom(s, before, a, p)
  {
    a := LetOutLater(log, n);
  }

  /** The barrier: when a flush is acknowledged, no flushed URI has a push waiting, and every update
      received before for a flushed URI, by event `k`, is answered for by the first attempt for it
      made since, which is of at least its version. */
  lemma FlushAcknowledged(es: seq<Event>, s: State, k: nat, p: Pending<string>) returns (a: nat)
    requires es != [] && IsRun(es) && s == Exec(es)
    requires es[|es| - 1].stimulus.Flush? && Exec(es[..|es| - 1]).alive
    requires k < |es| - 1 && es[k].stimulus.Update? && p == Push(es[k].stimulus)
    requires Covers(es[|es| - 1].stimulus.uris, p.uri)
    ensures s.acks == Exec(es[..|es| - 1]).acks + [es[|es| - 1].stimulus.token]
    ensures p.uri !in s.pending && a < |s.attempts| && AnsweredFrom(s, |Exec(es[..k + 1]).attempts|, a, p)
  {
    var n := |es| - 1;
    AliveBefore(es[..n], k);
    assert es[..n][..k] == es[..k];
    FlushAcks(Exec(es[..n]), es[n]);
    FlushEmpties(Exec(es[..n]), es[n]);
    a := UpdateAnswered(es, s, k, p);
  }

  lemma FlushAcks(s: State, e: Event)
    requires s.alive && e.stimulus.Flush? && Possible(s, e)
    ensures Step(s, e).acks == s.acks + [e.stimulus.token]
  {
    VisitAllFrame(s, e.targets, e.outcomes);
  }

  // ---------------------------------------------------------------------------------------------
  // Exactly when the latest update is the one pushed
  // ---------------------------------------------------------------------------------------------

  function Push(s: Stimulus): Pending<string>
    requires s.Update?
  {
    Pending(s.uri, s.version, s.text, s.at)
  }

  /** The last update for `u` was ignored because a strictly newer version was waiting. */
  ghost predicate IgnoredLast(es: seq<Event>, u: Uri) {
    if es == [] then false
    else
      var n := |es| - 1;
      var s, stimulus := Exec(es[..n]), es[n].stimulus;
      if s.alive && stimulus.Update? && stimulus.uri == u then Ignores(s.pending, Push(stimulus))
      else IgnoredLast(es[..n], u)
  }

  lemma VisitNewest(s: State, v: Uri, o: Outcome, u: Uri)
    requires Keyed(s.pending)
    ensures
      var t := Visit(s, v, o);
      Keyed(t.pending) && Newest(t.pending, Tried(t.attempts), u) == Newest(s.pending, Tried(s.attempts), u)
  {
    if v in s.pending {
      assert Tried(s.attempts + [Attempt(s.pending[v], o)]) == Tried(s.attempts) + [s.pending[v]];
      NewestTake(s.pending, Tried(s.attempts), v, u);
    }
  }

  lemma {:induction false} VisitAllNewest(s: State, targets: seq<Uri>, outcomes: seq<Outcome>, u: Uri)
    requires Keyed(s.pending) && |targets| == |outcomes|
    ensures
      var t := VisitAll(s, targets, outcomes);
      && Keyed(t.pending) && t.arrived == s.arrived
      && Newest(t.pending, Tried(t.attempts), u) == Newest(s.pending, Tried(s.attempts), u)
  {
    if targets != [] {
      var n := |targets| - 1;
      VisitAllNewest(s, targets[..n], outcomes[..n], u);
      VisitNewest(VisitAll(s, targets[..n], outcomes[..n]), targets[n], outcomes[n], u);
    }
  }

  /** What waits, or was attempted last, is the latest update unless that one was ignored; then it is
      one of strictly greater version. */
  lemma {:induction false} NewestIsLatest(es: seq<Event>, s: State, u: Uri)
    requires IsRun(es) && s == Exec(es)
    ensures Keyed(s.pending)
    ensures
      var newest, latest := Newest(s.pending, Tried(s.attempts), u), LastOf(s.arrived, u);
      if IgnoredLast(es, u) then newest.Some? && latest.Some? && newest.value.version > latest.value.version
      else newest == latest
  {
    if es == [] {
      assert Tried([]) == [];
    } else {
      var n := |es| - 1;
      var r, e := Exec(es[..n]), es[n];
      NewestIsLatest(es[..n], r, u);
      if r.alive {
        match e.stimulus {
          case Update(_, _, _, _) =>
            NewestArrive(r.pending, Tried(r.attempts), Push(e.stimulus), u);
            LastOfAppend(r.arrived, Push(e.stimulus), u);
          case Flush(_, _) => VisitAllNewest(r, e.targets, e.outcomes, u);
          case Tick(_) => VisitAllNewest(r, e.targets, e.outcomes, u);
          case ChannelClosed =>
        }
      }
    }
  }

  /** The barrier, exactly: after a flush the last attempt for a flushed URI is the latest update
      received for it, if and only if that update was not ignored in favour of a newer version that
      was then waiting. */
  lemma FlushedLatestIff(es: seq<Event>, s: State, u: Uri)
    requires es != [] && IsRun(es) && s == Exec(es)
    requires es[|es| - 1].stimulus.Flush? && Exec(es[..|es| - 1]).alive && Covers(es[|es| - 1].stimulus.uris, u)
    ensures LastOf(Tried(s.attempts), u) == LastOf(s.arrived, u) <==> !IgnoredLast(es, u)
  {
    var n := |es| - 1;
    RunBalanced(es[..n]);
    FlushEmpties(Exec(es[..n]), es[n]);
    NewestIsLatest(es, s, u);
  }

  /** Version 2 and then version 1 of a document within one window: the flush pushes version 2. */
  lemma IgnoredExample(u: Uri) returns (es: seq<Event>)
    ensures |es| == 3 && IsRun(es) && es[2].stimulus == Flush(Some([u]), 0) && Exec(es[..2]).alive
    ensures IgnoredLast(es, u) && LastOf(Tried(Exec(es).attempts), u) != LastOf(Exec(es).arrived, u)
  {
    var e0 := Event(Update(u, 2, "newer", 0), [], []);
    var e1 := Event(Update(u, 1, "older", 1), [], []);
    var e2 := Event(Flush(Some([u]), 0), [u], [Published]);
    assert [] + [e0] == [e0];
    ExecAppend([], e0);
    ExecAppend([e0], e1);
    var two := [e0] + [e1];
    assert two[..1] == [e0] && Exec([e0]).pending == map[u := Push(e0.stimulus)];
    assert IgnoredLast(two, u);
    ExecAppend(two, e2);
    es := two + [e2];
    assert es[..2] == two;
    FlushedLatestIff(es, Exec(es), u);
  }

  /** A tick attempts exactly what has waited for 200 ms or longer. */
  lemma TickTakesDue(es: seq<Event>, r: State, s: State, now: nat, u: Uri)
    requires es != [] && IsRun(es) && r == Exec(es[..|es| - 1]) && s == Exec(es)
    requires r.alive && es[|es| - 1].stimulus == Tick(now)
    ensures u in s.pending <==> u in r.pending && now < r.pending[u].queuedAt + 200
    ensures u in s.pending ==> s.pending[u] == r.pending[u]
  {
    var e := es[|es| - 1];
    VisitAllPending(r, e.targets, e.outcomes, u);
    YoungRemain(r.pending, now, WINDOW, u);
  }

  /** Right after a tick whatever waits was received less than the window ago, and has waited since. */
  lemma TickLeavesYoung(es: seq<Event>, s: State, now: nat, u: Uri)
    requires es != [] && IsRun(es) && s == Exec(es) && es[|es| - 1].stimulus == Tick(now) && s.alive && u in s.pending
    ensures s.pending[u] in s.arrived && s.pending[u].uri == u && now < s.pending[u].queuedAt + 200
  {
    var n := |es| - 1;
    var r, e := Exec(es[..n]), es[n];
    VisitAllPending(r, e.targets, e.outcomes, u);
    YoungRemain(r.pending, now, WINDOW, u);
    WaitingArrived(es, s, u);
  }

  lemma {:induction false} WaitingArrived(es: seq<Event>, s: State, u: Uri)
    requires IsRun(es) && s == Exec(es) && u in s.pending
    ensures s.pending[u] in s.arrived && s.pending[u].uri == u
  {
    if es != [] {
      var n := |es| - 1;
      var r, e := Exec(es[..n]), es[n];
      RunBalanced(es[..n]);
      EpochWinner(LogOf(es[..n]), u);
      VisitAllFrame(r, e.targets, e.outcomes);
      VisitAllPending(r, e.targets, e.outcomes, u);
      if u in r.pending {
        WaitingArrived(es[..n], r, u);
      }
    }
  }
}

/** bridge/src/main.rs, `run_session`: the loop that routes editor lines to the adapter.

    A run is a sequence of events.  Each event carries the environment's choices: the time, the
    order in which a hash map was walked, and how many of the writes it triggers succeed. */
module BridgeSession {
  import opened Protocol
  import opened Debounce
  import opened BridgeQueue

  /** A decoded editor line and the time it was handled. */
  datatype Timed = Timed(message: Message, at: nat)

  datatype Status =
    | Running
    | Closed        // the editor closed its end; everything waiting was flushed
    | AdapterGone   // the adapter's output channel closed; nothing was flushed
    | Failed        // an error was propagated out of the session

  /** `read` is every decoded line so far, `drained` every entry taken out of the queue,
      `written` every line handed to the adapter, `replies` every line handed to the editor. */
  datatype State = State(
    pending: PushQueue,
    read: seq<Timed>,
    drained: seq<Pending<Message>>,
    written: seq<Message>,
    replies: seq<string>,
    status: Status)

  const INITIAL := State(map[], [], [], [], [], Running)

  datatype Stimulus =
    | Line(message: Message, at: nat, sends: nat)
    | Ignored                              // a blank line, or one that does not decode
    | Tick(now: nat, sends: nat)
    | EndOfInput(sends: nat)
    | ReadError
    | AdapterLine(line: string, delivered: bool)
    | AdapterClosed

  /** `order` is the order in which the queue is emptied; only ticks and the end of input use it. */
  datatype Event = Event(stimulus: Stimulus, order: seq<Pending<Message>>)

  /** Hand a batch to the adapter; the first failing write ends the session. */
  function Forward(s: State, batch: seq<Message>, sends: nat): State {
    if |batch| <= sends then s.(written := s.written + batch)
    else s.(written := s.written + batch[..sends], status := Failed)
  }

  function Take(s: State, list: seq<Pending<Message>>): State {
    s.(pending := s.pending - Uris(list), drained := s.drained + list)
  }

  function Route(s: State, m: Message, at: nat, sends: nat): State {
    if m.kind.DocumentPush? then
      if m.payload.PushBody? then s.(pending := Arrive(s.pending, EntryOf(m, at)))
      else s.(status := Failed)
    else if m.IsCheck() && m.payload.uri in s.pending then
      var p := s.pending[m.payload.uri];
      Forward(Take(s, [p]), [p.item, m], sends)
    else
      Forward(s, [m], sends)
  }

  function Step(s: State, e: Event, window: nat): State {
    if !s.status.Running? then s
    else match e.stimulus
      case Line(m, at, sends) => Route(s.(read := s.read + [Timed(m, at)]), m, at, sends)
      case Ignored => s
      case Tick(now, sends) => Forward(Take(s, e.order), Items(e.order), sends)
      case EndOfInput(sends) =>
        var f := Forward(Take(s, e.order), Items(e.order), sends);
        if f.status.Running? then f.(status := Closed) else f
      case ReadError => s.(status := Failed)
      case AdapterLine(line, delivered) =>
        if delivered then s.(replies := s.replies + [line]) else s.(status := Failed)
      case AdapterClosed => s.(status := AdapterGone)
  }

  /** The environment's choices fit the state: a hash-map walk lists exactly what is drained. */
  ghost predicate Possible(s: State, e: Event, window: nat) {
    match e.stimulus
    case Tick(now, _) => Lists(e.order, DuePart(s.pending, now, window))
    case EndOfInput(_) => Lists(e.order, s.pending)
    case _ => true
  }

  function Exec(es: seq<Event>, window: nat): State {
    if es == [] then INITIAL else Step(Exec(es[..|es| - 1], window), es[|es| - 1], window)
  }

  ghost predicate IsRun(es: seq<Event>, window: nat) {
    es == [] || (IsRun(es[..|es| - 1], window) && Possible(Exec(es[..|es| - 1], window), es[|es| - 1], window))
  }

  lemma ExecAppend(es: seq<Event>, e: Event, window: nat)
    ensures Exec(es + [e], window) == Step(Exec(es, window), e, window)
    ensures IsRun(es, window) && Possible(Exec(es, window), e, window) ==> IsRun(es + [e], window)
  {
    assert (es + [e])[..|es|] == es;
  }

  lemma {:induction false} RunPrefix(es: seq<Event>, k: nat, window: nat)
    requires IsRun(es, window) && k <= |es|
    ensures IsRun(es[..k], window)
  {
    if k < |es| {
      var front := es[..|es| - 1];
      RunPrefix(front, k, window);
      assert front[..k] == es[..k];
    } else {
      assert es[..k] == es;
    }
  }

  /** The session's own loop over an input it does not control.  The ghost result is the run it
      followed: the given stimuli, each with the order in which the hash map was walked. */
  class Session {
    const queue: DebounceQueue
    ghost var state: State
    var written: seq<Message>
    var replies: seq<string>
    var status: Status

    ghost predicate Valid()
      reads this, queue
    {
      && queue.Valid()
      && state.pending == queue.pendingByUri
      && state.written == written && state.replies == replies && state.status == status
    }

    constructor (debounceMs: nat)
      ensures Valid() && fresh(queue) && queue.window == debounceMs && state == INITIAL
    {
      queue := new DebounceQueue(debounceMs);
      state := INITIAL;
      written, replies, status := [], [], Running;
    }

    /** `process.send` for each message in turn; `sends` says how many succeed. */
    method Send(batch: seq<Message>, sends: nat)
      modifies this`written, this`status
      ensures written == old(written) + (if |batch| <= sends then batch else batch[..sends])
      ensures status == if |batch| <= sends then old(status) else Failed
    {
      var i := 0;
      while i < |batch|
        invariant 0 <= i <= |batch| && i <= sends
        invariant written == old(written) + batch[..i]
        invariant status == old(status)
      {
        if i == sends {
          status := Failed;
          return;
        }
        written := written + [batch[i]];
        i := i + 1;
      }
    }

    method HandleLine(m: Message, at: nat, sends: nat)
      requires Valid() && status.Running?
      modifies this`state, this`written, this`status, queue
      ensures Valid()
      ensures state == Step(old(state), Event(Line(m, at, sends), []), queue.window)
    {
      if m.kind.DocumentPush? {
        var r := queue.Enqueue(m, at);
        if r.InvalidPushPayload? {
          status := Failed;
        }
      } else if m.kind.DocumentCheck? {
        if m.payload.CheckBody? {
          var waiting := queue.DrainForUri(m.payload.uri);
          assert m.payload.uri in state.pending ==>
            Uris([state.pending[m.payload.uri]]) == {m.payload.uri} by {
            if m.payload.uri in state.pending {
              assert [state.pending[m.payload.uri]][0].uri == m.payload.uri;
            }
          }
          assert m.payload.uri !in state.pending ==> state.pending - {m.payload.uri} == state.pending;
          if waiting.Some? {
            Send([waiting.value, m], sends);
          } else {
            Send([m], sends);
          }
        } else {
          Send([m], sends);
        }
      } else {
        Send([m], sends);
      }
      state := Step(state, Event(Line(m, at, sends), []), queue.window);
    }

    method Handle(stimulus: Stimulus) returns (ghost e: Event)
      requires Valid() && status.Running?
      modifies this, queue
      ensures Valid() && e.stimulus == stimulus
      ensures Possible(old(state), e, queue.window) && state == Step(old(state), e, queue.window)
    {
      e := Event(stimulus, []);
      match stimulus {
        case Line(m, at, sends) =>
          HandleLine(m, at, sends);
          return;
        case Ignored =>
        case Tick(now, sends) =>
          ghost var order;
          var ready;
          ready, order := queue.DrainReady(now);
          e := Event(stimulus, order);
          ListsUris(order, DuePart(state.pending, now, queue.window));
          Send(ready, sends);
        case EndOfInput(sends) =>
          ghost var order;
          var all;
          all, order := queue.DrainAll();
          e := Event(stimulus, order);
          ListsUris(order, state.pending);
          assert state.pending - state.pending.Keys == map[];
          Send(all, sends);
          if status.Running? {
            status := Closed;
          }
        case ReadError =>
          status := Failed;
        case AdapterLine(line, delivered) =>
          if delivered {
            replies := replies + [line];
          } else {
            status := Failed;
          }
        case AdapterClosed =>
          status := AdapterGone;
      }
      state := Step(state, e, queue.window);
    }

    method Run(input: seq<Stimulus>) returns (ghost trace: seq<Event>)
      requires Valid() && state == INITIAL
      modifies this, queue
      ensures Valid() && IsRun(trace, queue.window) && state == Exec(trace, queue.window)
      ensures |trace| <= |input| && (status.Running? ==> |trace| == |input|)
      ensures forall i | 0 <= i < |trace| :: trace[i].stimulus == input[i]
    {
      trace := [];
      var i := 0;
      while i < |input| && status.Running?
        invariant 0 <= i <= |input| && |trace| == i
        invariant Valid() && IsRun(trace, queue.window) && state == Exec(trace, queue.window)
        invariant forall j | 0 <= j < i :: trace[j].stimulus == input[j]
      {
        ghost var e := Handle(input[i]);
        ExecAppend(trace, e, queue.window);
        trace := trace + [e];
        i := i + 1;
      }
    }
  }

  lemma ListsUris<T>(list: seq<Pending<T>>, q: Queue<T>)
    requires Lists(list, q)
    ensures Uris(list) == q.Keys
  {
  }
}

/** The whole path of a text, from the editor's change to the check that reads it: channel, push
    worker, transport, bridge session and adapter, all running at once.

    The runs described here are the undisturbed ones: the session keeps running, every request is
    answered in the end, nothing reconnects or restarts, and no more than 2^64 requests are made.
    Replies may be late, repeated and out of order, and every component proceeds at its own pace. */
module Pipeline {
  import opened Protocol
  import opened Debounce
  import opened HashOrder
  import opened MessageIds
  import opened BridgeQueue
  import Bridge = BridgeSession

  datatype Edit = Edit(uri: Uri, version: int, text: string)

  /** What travels through the worker's channel: the `n`-th edit, or the flush of check command `c`. */
  datatype Item = EditItem(n: nat) | FlushItem(c: nat)

  /** A run-check command: one document or all of them; `mark` counts the edits sent before it. */
  datatype Command = Command(target: Option<Uri>, mark: nat)

  datatype Mode = Idle | Visiting(ack: Option<nat>)

  datatype Purpose = PushOf(n: nat) | CheckOf(c: nat) | OtherRequest

  datatype InFlight = InFlight(number: nat, message: Message, purpose: Purpose)

  /** What the adapter read when it carried out a check; `source` is the edit the text came from. */
  datatype Seen = Seen(id: string, uri: Uri, text: Option<string>, source: Option<nat>)

  /** The editor, the channel and the worker.  `received` counts the edits taken from the channel,
      `ignored` names those that met a waiting push of greater version, `issued` says whether the push
      being sent has its identifier, `delivered` names the last edit of a URI whose push has been
      answered. */
  datatype Upstream = Upstream(
    edits: seq<Edit>,
    commands: seq<Command>,
    channel: seq<Item>,
    received: nat,
    pending: Queue<nat>,
    ignored: set<nat>,
    mode: Mode,
    targets: seq<Uri>,
    sending: Option<nat>,
    issued: bool,
    acked: set<nat>,
    delivered: map<Uri, nat>)

  /** The transport: all requests that have an identifier, those of them that wait for the connection,
      the one that holds it, and its line while the bridge has not read it. */
  datatype Transport = Transport(
    requests: seq<Purpose>,
    waiting: map<nat, InFlight>,
    held: Option<InFlight>,
    line: Option<Message>)

  /** `executed` are the lines carried out, `source` is the edit each stored text came from. */
  datatype Adapter = Adapter(executed: set<nat>, store: map<Uri, string>, source: map<Uri, nat>, seen: seq<Seen>)

  datatype State = State(up: Upstream, net: Transport, bridge: Bridge.State, adapter: Adapter)

  const NO_EDITS := Upstream([], [], [], 0, map[], {}, Idle, [], None, false, {}, map[])
  const INITIAL := State(NO_EDITS, Transport([], map[], None, None), Bridge.INITIAL, Adapter({}, map[], map[], []))

  const WORKER_WINDOW := 200
  const SESSION := "s1"

  datatype Action =
    | Change(edit: Edit)
    | RunCheck(target: Option<Uri>)
    | WorkerReceive(at: nat, order: seq<Uri>)
    | WorkerTick(now: nat, order: seq<Uri>)
    | WorkerVisit
    | WorkerFinish
    | IssuePush
    | IssueCheck(c: nat, uri: Uri, version: int)
    | IssueOther(kind: MessageType, version: int, payload: Payload)
    | Acquire(k: nat)
    | BridgeRead(at: nat)
    | BridgeTick(now: nat, entries: seq<Pending<Message>>)
    | Execute(line: nat)
    | Answer(line: nat)
  {
    predicate OfWorker() {
      Change? || RunCheck? || WorkerReceive? || WorkerTick? || WorkerVisit? || WorkerFinish?
    }
  }

  predicate Covers(c: Command, u: Uri) {
    c.target.None? || c.target.value == u
  }

  function EntryFor(edits: seq<Edit>, n: nat, at: nat): Pending<nat>
    requires n < |edits|
  {
    Pending(edits[n].uri, edits[n].version, n, at)
  }

  // ---------------------------------------------------------------------------------------------
  // The editor and the worker
  // ---------------------------------------------------------------------------------------------

  ghost predicate WorkerPossible(w: Upstream, a: Action)
    requires a.OfWorker()
  {
    match a
    case Change(_) => true
    case RunCheck(_) => true
    case WorkerReceive(_, order) =>
      w.mode.Idle? && w.channel != [] &&
      (match w.channel[0]
       case EditItem(n) => n < |w.edits|
       case FlushItem(c) =>
         c < |w.commands| && (w.commands[c].target.None? ==> Walks(order, w.pending.Keys)))
    case WorkerTick(now, order) => w.mode.Idle? && Walks(order, DuePart(w.pending, now, WORKER_WINDOW).Keys)
    case WorkerVisit => w.mode.Visiting? && w.sending.None? && w.targets != []
    case WorkerFinish => w.mode.Visiting? && w.sending.None? && w.targets == []
  }

  /** The guard under which the worker ignores an edit: a strictly newer version is waiting. */
  predicate Rejects(w: Upstream, n: nat)
    requires n < |w.edits|
  {
    w.edits[n].uri in w.pending && w.pending[w.edits[n].uri].version > w.edits[n].version
  }

  function EditReceived(w: Upstream, n: nat, at: nat): Upstream
    requires n < |w.edits| && w.channel != []
  {
    w.(channel := w.channel[1..],
       pending := Arrive(w.pending, EntryFor(w.edits, n, at)),
       ignored := if Rejects(w, n) then w.ignored + {n} else w.ignored,
       received := w.received + 1)
  }

  ghost function WorkerStep(w: Upstream, a: Action): Upstream
    requires a.OfWorker() && WorkerPossible(w, a)
  {
    match a
    case Change(e) => w.(edits := w.edits + [e], channel := w.channel + [EditItem(|w.edits|)])
    case RunCheck(target) =>
      w.(commands := w.commands + [Command(target, |w.edits|)], channel := w.channel + [FlushItem(|w.commands|)])
    case WorkerReceive(at, order) =>
      (match w.channel[0]
       case EditItem(n) => EditReceived(w, n, at)
       case FlushItem(c) =>
         w.(channel := w.channel[1..], mode := Visiting(Some(c)),
            targets := if w.commands[c].target.Some? then [w.commands[c].target.value] else order))
    case WorkerTick(_, order) => w.(mode := Visiting(None), targets := order)
    case WorkerVisit =>
      var u := w.targets[0];
      var rest := w.(targets := w.targets[1..]);
      if u in w.pending then rest.(pending := w.pending - {u}, sending := Some(w.pending[u].item)) else rest
    case WorkerFinish =>
      w.(mode := Idle, acked := if w.mode.ack.Some? then w.acked + {w.mode.ack.value} else w.acked)
  }

  // ---------------------------------------------------------------------------------------------
  // Transport, bridge and adapter
  // ---------------------------------------------------------------------------------------------

  /** A request takes its identifier first and then waits for the connection. */
  function Issue(t: Transport, kind: MessageType, version: int, payload: Payload, purpose: Purpose): Transport {
    var k := |t.requests|;
    var m := Message(IdOfRequest(k), kind, SESSION, version, payload);
    t.(requests := t.requests + [purpose], waiting := t.waiting[k := InFlight(k, m, purpose)])
  }

  function Acquired(t: Transport, k: nat): Transport
    requires k in t.waiting
  {
    t.(waiting := t.waiting - {k}, held := Some(t.waiting[k]), line := Some(t.waiting[k].message))
  }

  function Lookup<V>(table: map<Uri, V>, u: Uri): Option<V> {
    if u in table then Some(table[u]) else None
  }

  /** The adapter carries out line `i`; the push it stores is the one in flight. */
  function Executed(s: State, i: nat): Adapter
    requires i < |s.bridge.written|
  {
    var m, d := s.bridge.written[i], s.adapter.(executed := s.adapter.executed + {i});
    if m.IsPush() then
      var u := m.payload.uri;
      d.(store := d.store[u := m.payload.text],
         source := if s.net.held.Some? && s.net.held.value.purpose.PushOf?
                   then d.source[u := s.net.held.value.purpose.n] else d.source)
    else if m.IsCheck() then
      var u := m.payload.uri;
      d.(seen := d.seen + [Seen(m.id, u, Lookup(d.store, u), Lookup(d.source, u))])
    else d
  }

  function Delivered(w: Upstream, n: nat): Upstream
    requires n < |w.edits|
  {
    w.(sending := None, issued := false, delivered := w.delivered[w.edits[n].uri := n])
  }

  /** A reply reaches the transport: it ends the request that holds the connection if it carries that
      request's identifier, and is skipped otherwise. */
  function Answered(s: State, id: string): State {
    if s.net.held.Some? && s.net.held.value.message.id == id then
      var t := s.(net := s.net.(held := None));
      match s.net.held.value.purpose
      case PushOf(n) => if n < |s.up.edits| then t.(up := Delivered(s.up, n)) else t
      case _ => t
    else s
  }

  /** Another request may still take an identifier. */
  predicate Free(t: Transport) {
    |t.requests| < U64
  }

  ghost predicate Possible(s: State, a: Action, window: nat) {
    match a
    case IssuePush => Free(s.net) && s.up.sending.Some? && !s.up.issued && s.up.sending.value < |s.up.edits|
    case IssueCheck(c, u, _) => Free(s.net) && c in s.up.acked && c < |s.up.commands| && Covers(s.up.commands[c], u)
    case IssueOther(kind, _, _) => Free(s.net) && !kind.DocumentPush? && !kind.DocumentCheck?
    case Acquire(k) => s.net.held.None? && k in s.net.waiting
    case BridgeRead(_) => s.net.line.Some?
    case BridgeTick(now, entries) => Lists(entries, DuePart(s.bridge.pending, now, window))
    case Execute(i) => i < |s.bridge.written| && i !in s.adapter.executed
    case Answer(i) => i < |s.bridge.written| && i in s.adapter.executed
    case _ => WorkerPossible(s.up, a)
  }

  ghost function Step(s: State, a: Action, window: nat): State
    requires Possible(s, a, window)
  {
    match a
    case IssuePush =>
      var n := s.up.sending.value;
      var e := s.up.edits[n];
      s.(up := s.up.(issued := true), net := Issue(s.net, DocumentPush, e.version, PushBody(e.uri, e.text), PushOf(n)))
    case IssueCheck(c, u, version) => s.(net := Issue(s.net, DocumentCheck, version, CheckBody(u, version), CheckOf(c)))
    case IssueOther(kind, version, payload) => s.(net := Issue(s.net, kind, version, payload, OtherRequest))
    case Acquire(k) => s.(net := Acquired(s.net, k))
    case BridgeRead(at) =>
      s.(net := s.net.(line := None),
         bridge := Bridge.Step(s.bridge, Bridge.Event(Bridge.Line(s.net.line.value, at, 2), []), window))
    case BridgeTick(now, entries) =>
      s.(bridge := Bridge.Step(s.bridge, Bridge.Event(Bridge.Tick(now, |entries|), entries), window))
    case Execute(i) => s.(adapter := Executed(s, i))
    case Answer(i) => Answered(s, s.bridge.written[i].id)
    case _ => s.(up := WorkerStep(s.up, a))
  }

  ghost predicate IsRun(acts: seq<Action>, trace: seq<State>, window: nat) {
    && |trace| == |acts| + 1 && trace[0] == INITIAL
    && forall k | 0 <= k < |acts| ::
         Possible(trace[k], acts[k], window) && trace[k + 1] == Step(trace[k], acts[k], window)
  }

  lemma RunPrefix(acts: seq<Action>, trace: seq<State>, window: nat)
    requires acts != [] && IsRun(acts, trace, window)
    ensures
      var n := |acts| - 1;
      && IsRun(acts[..n], trace[..n + 1], window) && trace[..n + 1][n] == trace[n]
      && Possible(trace[n], acts[n], window) && trace[|acts|] == Step(trace[n], acts[n], window)
  {
  }

  // ---------------------------------------------------------------------------------------------
  // One request at a time
  // ---------------------------------------------------------------------------------------------

  /** The adapter has carried out exactly the first `k` lines written to it. */
  ghost predicate DoneUpTo(s: State, k: nat) {
    k <= |s.bridge.written| && forall i: nat :: i in s.adapter.executed <==> i < k
  }

  ghost predicate NotYetWritten(s: State, m: Message) {
    && DoneUpTo(s, |s.bridge.written|)
    && forall i | 0 <= i < |s.bridge.written| :: s.bridge.written[i].id != m.id
  }

  ghost predicate OnTheWire(s: State, m: Message) {
    s.net.line == Some(m) && s.bridge.pending == map[] && NotYetWritten(s, m) && (m.kind.DocumentPush? ==> m.IsPush())
  }

  ghost predicate InTheQueue(s: State, m: Message) {
    && s.net.line.None? && m.IsPush() && NotYetWritten(s, m)
    && s.bridge.pending.Keys == {m.payload.uri}
    && s.bridge.pending[m.payload.uri] == EntryOf(m, s.bridge.pending[m.payload.uri].queuedAt)
  }

  ghost predicate AtTheAdapter(s: State, m: Message) {
    var n := |s.bridge.written| - 1;
    && s.net.line.None? && s.bridge.pending == map[]
    && n >= 0 && s.bridge.written[n] == m
    && (forall i | 0 <= i < n :: s.bridge.written[i].id != m.id)
    && (DoneUpTo(s, n) || DoneUpTo(s, n + 1))
  }

  /** No line of request `k` has been sent: it has not been made, or it waits for the connection. */
  predicate Unsent(t: Transport, k: nat) {
    k >= |t.requests| || k in t.waiting
  }

  ghost predicate Proper(t: Transport, f: InFlight) {
    && f.number < |t.requests| && f.message.id == IdOfRequest(f.number) && f.purpose == t.requests[f.number]
    && (f.message.kind.DocumentPush? ==> f.message.IsPush())
  }

  ghost predicate Numbered(t: Transport) {
    && |t.requests| <= U64
    && (forall k | k in t.waiting :: Proper(t, t.waiting[k]) && t.waiting[k].number == k)
    && (t.held.Some? ==> Proper(t, t.held.value) && t.held.value.number !in t.waiting)
  }

  /** Identifiers of requests not yet sent are new. */
  ghost predicate FreshIds(t: Transport, written: seq<Message>) {
    forall k: nat, i | k < U64 && Unsent(t, k) && 0 <= i < |written| :: written[i].id != IdOfRequest(k)
  }

  /** The message in flight is on the wire, waiting in the bridge, or the last line at the adapter;
      with nothing in flight the bridge queue is empty and the adapter is done. */
  ghost predicate Serial(s: State) {
    && s.bridge.status.Running?
    && Numbered(s.net) && FreshIds(s.net, s.bridge.written)
    && match s.net.held
       case None => s.net.line.None? && s.bridge.pending == map[] && DoneUpTo(s, |s.bridge.written|)
       case Some(f) => OnTheWire(s, f.message) || InTheQueue(s, f.message) || AtTheAdapter(s, f.message)
  }

  lemma IssueNumbered(t: Transport, kind: MessageType, version: int, payload: Payload, purpose: Purpose)
    requires Numbered(t) && Free(t) && (kind.DocumentPush? ==> payload.PushBody?)
    ensures Numbered(Issue(t, kind, version, payload, purpose))
    ensures forall k: nat :: Unsent(Issue(t, kind, version, payload, purpose), k) ==> Unsent(t, k)
  {
  }

  lemma SerialIssue(s: State, s': State, kind: MessageType, version: int, payload: Payload, purpose: Purpose)
    requires Serial(s) && Free(s.net) && (kind.DocumentPush? ==> payload.PushBody?)
    requires s' == s.(up := s'.up, net := Issue(s.net, kind, version, payload, purpose))
    ensures Serial(s')
  {
    IssueNumbered(s.net, kind, version, payload, purpose);
    SameFlight(s, s');
  }

  /** Everything on the way stays where it is while identifiers are handed out. */
  lemma SameFlight(s: State, t: State)
    requires Serial(s) && Numbered(t.net) && FreshIds(t.net, t.bridge.written)
    requires t.net.held == s.net.held && t.net.line == s.net.line && t.bridge == s.bridge
    requires t.adapter.executed == s.adapter.executed
    ensures Serial(t)
  {
  }

  /** A request that gets the connection has never been sent. */
  lemma SerialAcquire(s: State, k: nat)
    requires Serial(s) && s.net.held.None? && k in s.net.waiting
    ensures Serial(s.(net := Acquired(s.net, k)))
  {
    var t := s.(net := Acquired(s.net, k));
    assert Proper(s.net, s.net.waiting[k]);
    assert Unsent(s.net, k);
    assert OnTheWire(t, t.net.held.value.message);
    assert forall j: nat :: Unsent(t.net, j) ==> Unsent(s.net, j);
  }

  /** The bridge hands the message in flight to the adapter. */
  lemma Appended(s: State, t: State, m: Message)
    requires Serial(s) && s.net.held.Some? && m == s.net.held.value.message && NotYetWritten(s, m)
    requires t == s.(net := s.net.(line := None), bridge := t.bridge)
    requires t.bridge.written == s.bridge.written + [m] && t.bridge.pending == map[] && t.bridge.status.Running?
    ensures Serial(t)
  {
    FreshAfter(s.net, s.bridge.written, m);
    assert forall j: nat :: Unsent(t.net, j) <==> Unsent(s.net, j);
    assert DoneUpTo(t, |s.bridge.written|);
    assert AtTheAdapter(t, m);
  }

  /** The identifier of the request in flight is not one still to come. */
  lemma FreshAfter(t: Transport, written: seq<Message>, m: Message)
    requires Numbered(t) && FreshIds(t, written) && t.held.Some? && m == t.held.value.message
    ensures FreshIds(t, written + [m])
  {
    forall k: nat, i | k < U64 && Unsent(t, k) && 0 <= i < |written + [m]|
      ensures (written + [m])[i].id != IdOfRequest(k)
    {
      if i == |written| {
        IdsDiffer(t.held.value.number, k);
      }
    }
  }

  /** What the bridge does with a line while nothing waits. */
  lemma BridgeLine(b: Bridge.State, m: Message, at: nat, window: nat)
    requires b.status.Running? && b.pending == map[] && (m.kind.DocumentPush? ==> m.IsPush())
    ensures
      var r := Bridge.Step(b, Bridge.Event(Bridge.Line(m, at, 2), []), window);
      && r.status.Running?
      && r.pending == (if m.IsPush() then map[m.payload.uri := EntryOf(m, at)] else map[])
      && r.written == (if m.IsPush() then b.written else b.written + [m])
  {
  }

  lemma SerialRead(s: State, at: nat, window: nat)
    requires Serial(s) && s.net.line.Some?
    ensures Serial(Step(s, BridgeRead(at), window))
  {
    var m := s.net.held.value.message;
    var t := Step(s, BridgeRead(at), window);
    BridgeLine(s.bridge, m, at, window);
    if m.IsPush() {
      Queued(s, t, m, at);
    } else {
      Appended(s, t, m);
    }
  }

  /** The bridge keeps the push in flight waiting. */
  lemma Queued(s: State, t: State, m: Message, at: nat)
    requires Serial(s) && s.net.held.Some? && m == s.net.held.value.message && m.IsPush() && NotYetWritten(s, m)
    requires t == s.(net := s.net.(line := None), bridge := t.bridge)
    requires t.bridge.written == s.bridge.written && t.bridge.status.Running?
    requires t.bridge.pending == map[m.payload.uri := EntryOf(m, at)]
    ensures Serial(t)
  {
    assert forall j: nat :: Unsent(t.net, j) <==> Unsent(s.net, j);
    assert InTheQueue(t, m);
  }

  /** What the bridge does on a tick while only `m` waits. */
  lemma BridgeTicks(b: Bridge.State, m: Message, now: nat, entries: seq<Pending<Message>>, window: nat)
    requires b.status.Running? && m.IsPush() && b.pending.Keys == {m.payload.uri} && entries != []
    requires b.pending[m.payload.uri] == EntryOf(m, b.pending[m.payload.uri].queuedAt)
    requires Lists(entries, DuePart(b.pending, now, window))
    ensures
      var r := Bridge.Step(b, Bridge.Event(Bridge.Tick(now, |entries|), entries), window);
      r.status.Running? && r.pending == map[] && r.written == b.written + [m]
  {
    assert entries[0].uri in b.pending;
    assert entries[|entries| - 1].uri in b.pending;
    assert |entries| == 1;
    assert Items(entries) == [m];
    assert Uris(entries) == {m.payload.uri};
  }

  lemma SerialTick(s: State, now: nat, entries: seq<Pending<Message>>, window: nat)
    requires Serial(s) && Possible(s, BridgeTick(now, entries), window)
    ensures Serial(Step(s, BridgeTick(now, entries), window))
  {
    var t := Step(s, BridgeTick(now, entries), window);
    if entries == [] {
      assert s.bridge.pending - Uris(entries) == s.bridge.pending;
      assert t.bridge == s.bridge.(drained := t.bridge.drained);
      SameBridge(s, t);
    } else {
      assert entries[0].uri in s.bridge.pending;
      var m := s.net.held.value.message;
      assert InTheQueue(s, m);
      BridgeTicks(s.bridge, m, now, entries, window);
      Appended(s, t, m);
    }
  }

  lemma SameBridge(s: State, t: State)
    requires Serial(s)
    requires t == s.(bridge := t.bridge) && t.bridge == s.bridge.(drained := t.bridge.drained)
    ensures Serial(t)
  {
  }

  /** Only the last line written can be waiting to be carried out, and it is the one in flight. */
  lemma ExecutesLast(s: State, i: nat)
    requires Serial(s) && i < |s.bridge.written| && i !in s.adapter.executed
    ensures s.net.held.Some? && AtTheAdapter(s, s.net.held.value.message) && DoneUpTo(s, |s.bridge.written| - 1)
    ensures i == |s.bridge.written| - 1 && s.bridge.written[i] == s.net.held.value.message
  {
    assert !DoneUpTo(s, |s.bridge.written|);
    assert DoneUpTo(s, |s.bridge.written| - 1);
  }

  lemma SerialExecute(s: State, i: nat)
    requires Serial(s) && i < |s.bridge.written| && i !in s.adapter.executed
    ensures Serial(s.(adapter := Executed(s, i))) && DoneUpTo(s.(adapter := Executed(s, i)), |s.bridge.written|)
  {
    ExecutesLast(s, i);
    var t := s.(adapter := Executed(s, i));
    assert t.adapter.executed == s.adapter.executed + {i};
    assert DoneUpTo(t, i + 1);
    assert AtTheAdapter(t, s.net.held.value.message);
  }

  /** A reply that ends the request in flight answers exactly that request, and the adapter has
      carried out every line written so far. */
  lemma SerialAnswer(s: State, i: nat)
    requires Serial(s) && i < |s.bridge.written| && i in s.adapter.executed
    ensures Serial(Answered(s, s.bridge.written[i].id))
    ensures s.net.held.Some? && s.net.held.value.message.id == s.bridge.written[i].id ==>
              s.bridge.written[i] == s.net.held.value.message && i == |s.bridge.written| - 1
              && DoneUpTo(s, |s.bridge.written|)
  {
    if s.net.held.Some? && s.net.held.value.message.id == s.bridge.written[i].id {
      var m := s.net.held.value.message;
      var n := |s.bridge.written|;
      assert AtTheAdapter(s, m);
      assert i == n - 1;
      assert DoneUpTo(s, n);
      AnsweredFree(s, Answered(s, s.bridge.written[i].id));
    }
  }

  lemma AnsweredFree(s: State, t: State)
    requires Serial(s) && s.net.line.None? && s.bridge.pending == map[] && DoneUpTo(s, |s.bridge.written|)
    requires t == s.(up := t.up, net := s.net.(held := None))
    ensures Serial(t)
  {
    assert forall j: nat :: Unsent(t.net, j) <==> Unsent(s.net, j);
  }

  lemma SerialStep(s: State, a: Action, window: nat)
    requires Serial(s) && Possible(s, a, window)
    ensures Serial(Step(s, a, window))
  {
    match a {
      case IssuePush =>
        var e := s.up.edits[s.up.sending.value];
        SerialIssue(s, Step(s, a, window), DocumentPush, e.version, PushBody(e.uri, e.text),
            PushOf(s.up.sending.value));
      case IssueCheck(c, u, version) =>
        SerialIssue(s, Step(s, a, window), DocumentCheck, version, CheckBody(u, version), CheckOf(c));
      case IssueOther(kind, version, payload) => SerialIssue(s, Step(s, a, window), kind, version, payload,
          OtherRequest);
      case Acquire(k) => SerialAcquire(s, k);
      case BridgeRead(at) => SerialRead(s, at, window);
      case BridgeTick(now, entries) => SerialTick(s, now, entries, window);
      case Execute(i) => SerialExecute(s, i);
      case Answer(i) => SerialAnswer(s, i);
      case _ => SameFlight(s, Step(s, a, window));
    }
  }

  lemma {:induction false} AlwaysSerial(acts: seq<Action>, trace: seq<State>, window: nat)
    requires IsRun(acts, trace, window)
    ensures Serial(trace[|acts|])
  {
    if acts == [] {
      assert DoneUpTo(INITIAL, 0);
    } else {
      var n := |acts| - 1;
      RunPrefix(acts, trace, window);
      AlwaysSerial(acts[..n], trace[..n + 1], window);
      SerialStep(trace[n], acts[n], window);
    }
  }

  /** A bridge session fed by one transport never has more than one push waiting. */
  lemma AtMostOneWaits(acts: seq<Action>, trace: seq<State>, window: nat)
    requires IsRun(acts, trace, window)
    ensures |trace[|acts|].bridge.pending| <= 1
  {
    AlwaysSerial(acts, trace, window);
    var s := trace[|acts|];
    if s.bridge.pending != map[] {
      assert s.bridge.pending.Keys == {s.net.held.value.message.payload.uri};
      assert |s.bridge.pending| == |s.bridge.pending.Keys|;
    }
  }
}

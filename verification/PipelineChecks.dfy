/** What the adapter's checks read, over whole runs of the pipeline. */
module PipelineChecks {
  import opened Protocol
  import opened Debounce
  import opened MessageIds
  import opened Pipeline
  import opened PipelineOrder

  // ---------------------------------------------------------------------------------------------
  // Requests under way
  // ---------------------------------------------------------------------------------------------

  /** A request under way is what it is said to be. */
  ghost predicate LinkOf(w: Upstream, f: InFlight) {
    match f.purpose
    case PushOf(n) =>
      && n < |w.edits| && w.sending == Some(n) && w.issued && f.message.IsPush()
      && f.message.payload == PushBody(w.edits[n].uri, w.edits[n].text)
    case CheckOf(c) =>
      c in w.acked && c < |w.commands| && f.message.IsCheck() && Covers(w.commands[c], f.message.payload.uri)
    case OtherRequest => !f.message.IsPush() && !f.message.IsCheck()
  }

  /** At most one push is under way: the one the worker is sending. */
  ghost predicate OnePush(t: Transport) {
    && (t.held.Some? && t.held.value.purpose.PushOf? ==> forall k | k in t.waiting :: !t.waiting[k].purpose.PushOf?)
    && (forall j, k | j in t.waiting && k in t.waiting ::
          t.waiting[j].purpose.PushOf? && t.waiting[k].purpose.PushOf? ==> j == k)
  }

  ghost predicate Linked(s: State) {
    && (s.net.held.Some? ==> LinkOf(s.up, s.net.held.value))
    && (forall k | k in s.net.waiting :: LinkOf(s.up, s.net.waiting[k]))
    && OnePush(s.net)
  }

  lemma LinkedWorker(s: State, a: Action)
    requires Linked(s) && a.OfWorker() && WorkerPossible(s.up, a) && InOrder(s.up)
    ensures Linked(s.(up := WorkerStep(s.up, a)))
  {
    LinksStay(s, WorkerStep(s.up, a));
  }

  lemma LinksStay(s: State, v: Upstream)
    requires Linked(s) && s.up.edits <= v.edits && s.up.commands <= v.commands && s.up.acked <= v.acked
    requires s.up.issued ==> v.issued
    requires s.up.sending.Some? ==> v.sending == s.up.sending
    ensures Linked(s.(up := v))
  {
    forall k | k in s.net.waiting
      ensures LinkOf(v, s.net.waiting[k])
    {
      assert LinkOf(s.up, s.net.waiting[k]);
    }
  }

  lemma LinkedIssue(s: State, t: State, kind: MessageType, version: int, payload: Payload, purpose: Purpose)
    requires Linked(s) && t.net == Issue(s.net, kind, version, payload, purpose)
    requires t.up == s.up || (t.up == s.up.(issued := true) && purpose.PushOf?)
    requires LinkOf(t.up, t.net.waiting[|s.net.requests|])
    requires purpose.PushOf? ==> !s.up.issued
    ensures Linked(t)
  {
    forall k | k in t.net.waiting
      ensures LinkOf(t.up, t.net.waiting[k])
    {
      if k != |s.net.requests| {
        assert LinkOf(s.up, s.net.waiting[k]);
      }
    }
    if purpose.PushOf? {
      forall k | k in s.net.waiting
        ensures !s.net.waiting[k].purpose.PushOf?
      {
        assert LinkOf(s.up, s.net.waiting[k]);
      }
    }
  }

  lemma LinkedAcquire(s: State, k: nat)
    requires Linked(s) && s.net.held.None? && k in s.net.waiting
    ensures Linked(s.(net := Acquired(s.net, k)))
  {
    var t := s.(net := Acquired(s.net, k));
    forall j | j in t.net.waiting
      ensures LinkOf(t.up, t.net.waiting[j])
    {
      assert LinkOf(s.up, s.net.waiting[j]);
    }
  }

  lemma LinkedAnswer(s: State, id: string)
    requires Linked(s)
    ensures Linked(Answered(s, id))
  {
    var t := Answered(s, id);
    if t != s {
      forall k | k in t.net.waiting
        ensures LinkOf(t.up, t.net.waiting[k])
      {
        assert LinkOf(s.up, s.net.waiting[k]);
      }
    }
  }

  lemma LinkedStep(s: State, a: Action, window: nat)
    requires Linked(s) && InOrder(s.up) && Possible(s, a, window)
    ensures Linked(Step(s, a, window))
  {
    var t := Step(s, a, window);
    match a {
      case IssuePush =>
        var n := s.up.sending.value;
        var e := s.up.edits[n];
        LinkedIssue(s, t, DocumentPush, e.version, PushBody(e.uri, e.text), PushOf(n));
      case IssueCheck(c, u, version) => LinkedIssue(s, t, DocumentCheck, version, CheckBody(u, version), CheckOf(c));
      case IssueOther(kind, version, payload) => LinkedIssue(s, t, kind, version, payload, OtherRequest);
      case Acquire(k) => LinkedAcquire(s, k);
      case BridgeRead(_) => LinksStay(s, s.up);
      case BridgeTick(_, _) => LinksStay(s, s.up);
      case Execute(_) => LinksStay(s, s.up);
      case Answer(i) => LinkedAnswer(s, s.bridge.written[i].id);
      case _ => LinkedWorker(s, a);
    }
  }

  // ---------------------------------------------------------------------------------------------
  // What the adapter holds
  // ---------------------------------------------------------------------------------------------

  /** The push in flight has been carried out but not yet answered. */
  ghost predicate PushDone(s: State) {
    && s.net.held.Some? && s.net.held.value.purpose.PushOf? && AtTheAdapter(s, s.net.held.value.message)
    && DoneUpTo(s, |s.bridge.written|)
  }

  /** The adapter's texts come from the edits whose pushes were answered, or just carried out. */
  ghost predicate Sourced(s: State) {
    if PushDone(s) then
      var n := s.net.held.value.purpose.n;
      n < |s.up.edits| && s.adapter.source == s.up.delivered[s.up.edits[n].uri := n]
    else s.adapter.source == s.up.delivered
  }

  ghost predicate Texts(edits: seq<Edit>, d: Adapter) {
    && d.store.Keys == d.source.Keys
    && forall u | u in d.source ::
         d.source[u] < |edits| && edits[d.source[u]].uri == u && d.store[u] == edits[d.source[u]].text
  }

  /** The text a check read is that of the edit named. */
  predicate ReadFrom(edits: seq<Edit>, e: Seen) {
    match e.source
    case None => e.text.None?
    case Some(n) => n < |edits| && edits[n].uri == e.uri && e.text == Some(edits[n].text)
  }

  /** A check for command `c` read the last edit accepted before the command, or one sent after. */
  ghost predicate FitsCheck(w: Upstream, c: nat, e: Seen) {
    && c in w.acked && c < |w.commands| && w.commands[c].mark <= w.received <= |w.edits| && Covers(w.commands[c], e.uri)
    && ReadFrom(w.edits, e)
    && Fits(e.source, Accepted(w, e.uri, w.commands[c].mark), w.commands[c].mark)
  }

  /** The check that produced `e` belongs to request `k`, made for a command it fits. */
  ghost predicate OwnedBy(s: State, e: Seen, k: nat) {
    && k < |s.net.requests| <= U64 && e.id == IdOfRequest(k) && s.net.requests[k].CheckOf?
    && FitsCheck(s.up, s.net.requests[k].c, e)
  }

  ghost predicate Honoured(s: State, e: Seen) {
    exists k: nat :: OwnedBy(s, e, k)
  }

  ghost predicate Reports(s: State) {
    && Sourced(s) && Texts(s.up.edits, s.adapter)
    && forall i | 0 <= i < |s.adapter.seen| :: Honoured(s, s.adapter.seen[i])
  }

  ghost predicate Inv(s: State) {
    Serial(s) && InOrder(s.up) && Linked(s) && Reports(s)
  }

  /** Growing histories do not undo what was read. */
  lemma HonouredLater(s: State, t: State, e: Seen)
    requires Honoured(s, e) && InOrder(s.up) && s.net.requests <= t.net.requests && |t.net.requests| <= U64
    requires s.up.edits <= t.up.edits && s.up.commands <= t.up.commands
    requires s.up.received <= t.up.received <= |t.up.edits|
    requires s.up.acked <= t.up.acked
    requires s.up.ignored <= t.up.ignored && forall n | n in t.up.ignored && n !in s.up.ignored :: n >= s.up.received
    ensures Honoured(t, e)
  {
    var k: nat :| OwnedBy(s, e, k);
    var c := s.net.requests[k].c;
    var mark := s.up.commands[c].mark;
    AcceptedStable(s.up.edits, s.up.ignored, t.up.edits, t.up.ignored, e.uri, mark);
    assert OwnedBy(t, e, k);
  }

  lemma SeenStay(s: State, t: State)
    requires InOrder(s.up) && s.net.requests <= t.net.requests && |t.net.requests| <= U64
    requires s.up.edits <= t.up.edits && s.up.commands <= t.up.commands
    requires s.up.received <= t.up.received <= |t.up.edits|
    requires s.up.acked <= t.up.acked
    requires s.up.ignored <= t.up.ignored && forall n | n in t.up.ignored && n !in s.up.ignored :: n >= s.up.received
    requires forall i | 0 <= i < |s.adapter.seen| :: Honoured(s, s.adapter.seen[i])
    ensures forall i | 0 <= i < |s.adapter.seen| :: Honoured(t, s.adapter.seen[i])
  {
    forall i | 0 <= i < |s.adapter.seen|
      ensures Honoured(t, s.adapter.seen[i])
    {
      HonouredLater(s, t, s.adapter.seen[i]);
    }
  }

  lemma WorkerGrows(w: Upstream, a: Action)
    requires InOrder(w) && a.OfWorker() && WorkerPossible(w, a)
    ensures
      var v := WorkerStep(w, a);
      && w.edits <= v.edits && w.commands <= v.commands && w.received <= v.received <= |v.edits|
      && w.ignored <= v.ignored && (forall n | n in v.ignored && n !in w.ignored :: n >= w.received)
      && v.delivered == w.delivered && w.acked <= v.acked
  {
  }

  lemma ReportsWorker(s: State, a: Action)
    requires Inv(s) && a.OfWorker() && WorkerPossible(s.up, a)
    ensures Reports(s.(up := WorkerStep(s.up, a)))
  {
    var t := s.(up := WorkerStep(s.up, a));
    WorkerGrows(s.up, a);
    SeenStay(s, t);
    assert PushDone(t) <==> PushDone(s);
    if PushDone(s) {
      assert s.up.edits[s.net.held.value.purpose.n] == t.up.edits[s.net.held.value.purpose.n];
    }
  }

  /** The adapter is untouched, and no push is done that was not done before. */
  lemma ReportsSame(s: State, t: State)
    requires Inv(s) && t.adapter == s.adapter && s.net.requests <= t.net.requests && |t.net.requests| <= U64
    requires t.up == s.up.(issued := t.up.issued)
    requires PushDone(t) <==> PushDone(s)
    requires PushDone(s) ==> t.net.held == s.net.held
    ensures Reports(t)
  {
    SeenStay(s, t);
  }

  lemma ReportsIssue(s: State, a: Action, window: nat)
    requires Inv(s) && Possible(s, a, window) && (a.IssuePush? || a.IssueCheck? || a.IssueOther?)
    ensures Reports(Step(s, a, window))
  {
    var t := Step(s, a, window);
    IssueLeaves(s, a, window);
    SamePushDone(s, t);
    ReportsSame(s, t);
  }

  lemma IssueLeaves(s: State, a: Action, window: nat)
    requires Possible(s, a, window) && (a.IssuePush? || a.IssueCheck? || a.IssueOther?)
    ensures
      var t := Step(s, a, window);
      && t.net.held == s.net.held && t.net.line == s.net.line && t.bridge == s.bridge && t.adapter == s.adapter
      && t.up == s.up.(issued := t.up.issued)
      && s.net.requests <= t.net.requests && |t.net.requests| == |s.net.requests| + 1 <= U64
  {
  }

  lemma SamePushDone(s: State, t: State)
    requires t.net.held == s.net.held && t.net.line == s.net.line && t.bridge == s.bridge && t.adapter == s.adapter
    ensures PushDone(t) <==> PushDone(s)
  {
  }

  lemma ReportsAcquire(s: State, k: nat)
    requires Inv(s) && s.net.held.None? && k in s.net.waiting
    ensures Reports(s.(net := Acquired(s.net, k)))
  {
    var t := s.(net := Acquired(s.net, k));
    assert Proper(s.net, s.net.waiting[k]) && Unsent(s.net, k);
    ReportsSame(s, t);
  }

  lemma NoPushDone(s: State)
    requires Serial(s) && s.net.held.Some? && NotYetWritten(s, s.net.held.value.message)
    ensures !PushDone(s)
  {
  }

  lemma ReportsBridge(s: State, a: Action, window: nat)
    requires Inv(s) && Possible(s, a, window) && (a.BridgeRead? || a.BridgeTick?)
    ensures Reports(Step(s, a, window))
  {
    var t := Step(s, a, window);
    BridgePushDone(s, a, t, window);
    ReportsSame(s, t);
  }

  /** The bridge does not carry out pushes. */
  lemma BridgePushDone(s: State, a: Action, t: State, window: nat)
    requires Serial(s) && Possible(s, a, window) && (a.BridgeRead? || a.BridgeTick?) && t == Step(s, a, window)
    ensures PushDone(t) <==> PushDone(s)
  {
    if a.BridgeTick? && a.entries == [] {
      assert t.bridge.written == s.bridge.written;
      assert s.bridge.pending - Debounce.Uris(a.entries) == s.bridge.pending;
    } else {
      if a.BridgeTick? {
        assert a.entries[0].uri in s.bridge.pending;
      }
      NoPushDone(s);
      SerialStep(s, a, window);
      BridgeMoved(s, t, a, window);
    }
  }

  /** A line the bridge has just written has not been carried out yet. */
  lemma BridgeMoved(s: State, t: State, a: Action, window: nat)
    requires Serial(s) && Possible(s, a, window) && t == Step(s, a, window) && Serial(t)
    requires a.BridgeRead? || (a.BridgeTick? && a.entries != [])
    requires s.net.held.Some? && NotYetWritten(s, s.net.held.value.message)
    ensures !PushDone(t)
  {
    var m := s.net.held.value.message;
    if a.BridgeRead? {
      BridgeLine(s.bridge, m, a.at, window);
    } else {
      assert a.entries[0].uri in s.bridge.pending;
      assert InTheQueue(s, m);
      BridgeTicks(s.bridge, m, a.now, a.entries, window);
    }
    if |t.bridge.written| > |s.bridge.written| {
      assert |s.bridge.written| !in t.adapter.executed;
    }
  }

  lemma ReportsExecute(s: State, i: nat)
    requires Inv(s) && i < |s.bridge.written| && i !in s.adapter.executed
    ensures Reports(s.(adapter := Executed(s, i)))
  {
    var t := s.(adapter := Executed(s, i));
    ExecutesLast(s, i);
    SerialExecute(s, i);
    assert !PushDone(s);
    var f := s.net.held.value;
    assert AtTheAdapter(t, f.message);
    match f.purpose {
      case PushOf(n) => StoredEdit(s, t, f, n);
      case CheckOf(c) => CheckedText(s, t, f, c);
      case OtherRequest => SeenStay(s, t);
    }
  }

  lemma StoredEdit(s: State, t: State, f: InFlight, n: nat)
    requires Inv(s) && !PushDone(s) && PushDone(t) && s.net.held == Some(f) && f.purpose == PushOf(n)
    requires t == s.(adapter := t.adapter) && LinkOf(s.up, f)
    requires
      var u := s.up.edits[n].uri;
      t.adapter == s.adapter.(executed := t.adapter.executed, store := s.adapter.store[u := s.up.edits[n].text],
                              source := s.adapter.source[u := n])
    ensures Reports(t)
  {
    SeenStay(s, t);
  }

  /** A check is carried out when every push before it has been answered. */
  lemma CheckedText(s: State, t: State, f: InFlight, c: nat)
    requires Inv(s) && !PushDone(s) && s.net.held == Some(f) && f.purpose == CheckOf(c) && LinkOf(s.up, f)
    requires
      var u := f.message.payload.uri;
      var e := Seen(f.message.id, u, Lookup(s.adapter.store, u), Lookup(s.adapter.source, u));
      t == s.(adapter := s.adapter.(executed := t.adapter.executed, seen := s.adapter.seen + [e]))
    ensures Reports(t)
  {
    var u := f.message.payload.uri;
    var e := Seen(f.message.id, u, Lookup(s.adapter.store, u), Lookup(s.adapter.source, u));
    SeenStay(s, t);
    assert Settled(s.up, c);
    assert SettledFor(s.up, c, u);
    assert FitsCheck(t.up, c, e);
    assert OwnedBy(t, e, f.number);
    assert !PushDone(t);
  }

  lemma ReportsAnswer(s: State, i: nat)
    requires Inv(s) && i < |s.bridge.written| && i in s.adapter.executed
    ensures Reports(Answered(s, s.bridge.written[i].id))
  {
    var t := Answered(s, s.bridge.written[i].id);
    SerialAnswer(s, i);
    if s.net.held.Some? && s.net.held.value.message.id == s.bridge.written[i].id {
      assert AtTheAdapter(s, s.net.held.value.message);
      SeenStay(s, t);
    }
  }

  lemma ReportsStep(s: State, a: Action, window: nat)
    requires Inv(s) && Possible(s, a, window)
    ensures Reports(Step(s, a, window))
  {
    match a {
      case IssuePush => ReportsIssue(s, a, window);
      case IssueCheck(_, _, _) => ReportsIssue(s, a, window);
      case IssueOther(_, _, _) => ReportsIssue(s, a, window);
      case Acquire(k) => ReportsAcquire(s, k);
      case BridgeRead(_) => ReportsBridge(s, a, window);
      case BridgeTick(_, _) => ReportsBridge(s, a, window);
      case Execute(i) => ReportsExecute(s, i);
      case Answer(i) => ReportsAnswer(s, i);
      case _ => ReportsWorker(s, a);
    }
  }

  lemma OrderStep(s: State, a: Action, window: nat)
    requires Inv(s) && Possible(s, a, window)
    ensures InOrder(Step(s, a, window).up)
  {
    match a {
      case IssuePush => OrderSame(s.up, s.up.(issued := true));
      case Answer(i) =>
        var f := s.net.held;
        if f.Some? && f.value.message.id == s.bridge.written[i].id && f.value.purpose.PushOf? {
          OrderDelivered(s.up, f.value.purpose.n);
        }
      case _ =>
        if a.OfWorker() {
          OrderWorker(s.up, a);
        }
    }
  }

  lemma {:induction false} AlwaysInv(acts: seq<Action>, trace: seq<State>, window: nat)
    requires IsRun(acts, trace, window)
    ensures Inv(trace[|acts|])
  {
    if acts == [] {
      AlwaysSerial(acts, trace, window);
    } else {
      var n := |acts| - 1;
      RunPrefix(acts, trace, window);
      AlwaysInv(acts[..n], trace[..n + 1], window);
      SerialStep(trace[n], acts[n], window);
      OrderStep(trace[n], acts[n], window);
      LinkedStep(trace[n], acts[n], window);
      ReportsStep(trace[n], acts[n], window);
    }
  }

  // ---------------------------------------------------------------------------------------------
  // The results
  // ---------------------------------------------------------------------------------------------

  /** Every check the adapter has carried out belongs to some command that covers its document. */
  lemma EveryCheckIsOwned(acts: seq<Action>, trace: seq<State>, window: nat, s: State, i: nat) returns (k: nat)
    requires IsRun(acts, trace, window) && s == trace[|acts|] && i < |s.adapter.seen|
    ensures k < |s.net.requests| && s.net.requests[k].CheckOf? && s.adapter.seen[i].id == IdOfRequest(k)
    ensures
      var c := s.net.requests[k].c;
      c in s.up.acked && c < |s.up.commands| && Covers(s.up.commands[c], s.adapter.seen[i].uri)
  {
    AlwaysInv(acts, trace, window);
    assert Honoured(s, s.adapter.seen[i]);
    k :| OwnedBy(s, s.adapter.seen[i], k);
  }

  /** What a check made for command `c` reads, exactly and on every run: the text of the last edit of
      its document that the worker accepted among those sent before the command, or of a later one. */
  lemma ChecksReadAccepted(acts: seq<Action>, trace: seq<State>, window: nat, s: State, i: nat, k: nat, c: nat)
    requires IsRun(acts, trace, window) && s == trace[|acts|]
    requires i < |s.adapter.seen| && k < |s.net.requests| && s.net.requests[k] == CheckOf(c)
    requires s.adapter.seen[i].id == IdOfRequest(k)
    ensures FitsCheck(s.up, c, s.adapter.seen[i])
  {
    AlwaysInv(acts, trace, window);
    var e := s.adapter.seen[i];
    assert Honoured(s, e);
    var j: nat :| OwnedBy(s, e, j);
    if j != k {
      IdsDiffer(j, k);
    }
  }

  /** `x` is at least as recent as every edit of `u` among the first `mark`. */
  predicate AtLeastAsRecent(edits: seq<Edit>, x: Option<nat>, u: Uri, mark: nat)
    requires mark <= |edits|
  {
    forall n: nat | n < mark && edits[n].uri == u :: x.Some? && n <= x.value
  }

  /** The last edit of `u` sent before the mark was ignored by the worker. */
  predicate IgnoredLast(w: Upstream, u: Uri, mark: nat)
    requires mark <= |w.edits|
  {
    var last := LastSent(w.edits, u, mark);
    last.Some? && last.value in w.ignored
  }

  /** An edit is ignored exactly when its turn comes while a strictly newer version is waiting. */
  lemma {:induction false} IgnoredByGuard(acts: seq<Action>, trace: seq<State>, window: nat, n: nat)
    requires IsRun(acts, trace, window)
    ensures n in trace[|acts|].up.ignored <==> EverIgnores(acts, trace, n)
  {
    if acts != [] {
      var m := |acts| - 1;
      RunPrefix(acts, trace, window);
      IgnoredByGuard(acts[..m], trace[..m + 1], window, n);
      IgnoredStep(trace[m], acts[m], window, n);
      IgnoresSnoc(acts, trace, n);
    }
  }

  lemma IgnoresSnoc(acts: seq<Action>, trace: seq<State>, n: nat)
    requires acts != [] && |trace| == |acts| + 1
    ensures
      var m := |acts| - 1;
      EverIgnores(acts, trace, n) <==> (EverIgnores(acts[..m], trace[..m + 1], n) || Ignores(trace[m], acts[m], n))
  {
    var m := |acts| - 1;
    var front, before := acts[..m], trace[..m + 1];
    forall j: nat
      ensures IgnoresAt(acts, trace, j, n)
          <==> IgnoresAt(front, before, j, n) || (j == m && Ignores(trace[m], acts[m], n))
    {
      assert j < m ==> front[j] == acts[j] && before[j] == trace[j];
    }
    if EverIgnores(front, before, n) {
      var j: nat :| IgnoresAt(front, before, j, n);
      assert IgnoresAt(acts, trace, j, n);
    }
    assert IgnoresAt(acts, trace, m, n) <==> Ignores(trace[m], acts[m], n);
  }

  ghost predicate IgnoresAt(acts: seq<Action>, trace: seq<State>, j: nat, n: nat) {
    j < |acts| && j < |trace| && Ignores(trace[j], acts[j], n)
  }

  ghost predicate EverIgnores(acts: seq<Action>, trace: seq<State>, n: nat) {
    exists j: nat :: IgnoresAt(acts, trace, j, n)
  }

  predicate Ignores(s: State, a: Action, n: nat) {
    a.WorkerReceive? && s.up.channel != [] && s.up.channel[0] == EditItem(n) && n < |s.up.edits| && Rejects(s.up, n)
  }

  lemma IgnoredStep(s: State, a: Action, window: nat, n: nat)
    requires Possible(s, a, window)
    ensures n in Step(s, a, window).up.ignored <==> n in s.up.ignored || Ignores(s, a, n)
  {
    if a.OfWorker() {
      IgnoredWorker(s.up, a, n);
    }
  }

  lemma IgnoredWorker(w: Upstream, a: Action, n: nat)
    requires a.OfWorker() && WorkerPossible(w, a)
    ensures n in WorkerStep(w, a).ignored
       <==> (n in w.ignored || (a.WorkerReceive? && w.channel[0] == EditItem(n) && Rejects(w, n)))
  {
  }

  /** Among what fits a command, exactly the edits sent after it and, unless the last one sent before
      was ignored, that last one are recent. */
  lemma RecentIff(w: Upstream, x: Option<nat>, u: Uri, mark: nat)
    requires mark <= |w.edits| && Fits(x, Accepted(w, u, mark), mark)
    ensures AtLeastAsRecent(w.edits, x, u, mark) <==> !IgnoredLast(w, u, mark) || (x.Some? && x.value >= mark)
  {
    AcceptedFacts(w.edits, {}, u, mark);
    AcceptedFacts(w.edits, w.ignored, u, mark);
  }

  /** End to end, exactly: a check is at least as recent as everything the editor had sent for its
      document before the command, if and only if the worker did not ignore the last of those edits
      or the check reads an edit sent after the command. */
  lemma ChecksReadRecentIff(acts: seq<Action>, trace: seq<State>, window: nat, s: State, i: nat, k: nat, c: nat)
    requires IsRun(acts, trace, window) && s == trace[|acts|]
    requires i < |s.adapter.seen| && k < |s.net.requests| && s.net.requests[k] == CheckOf(c)
    requires s.adapter.seen[i].id == IdOfRequest(k)
    ensures c < |s.up.commands| && s.up.commands[c].mark <= |s.up.edits|
    ensures
      var e, mark := s.adapter.seen[i], s.up.commands[c].mark;
      AtLeastAsRecent(s.up.edits, e.source, e.uri, mark)
      <==> !IgnoredLast(s.up, e.uri, mark) || (e.source.Some? && e.source.value >= mark)
  {
    ChecksReadAccepted(acts, trace, window, s, i, k, c);
    var e, mark := s.adapter.seen[i], s.up.commands[c].mark;
    RecentIff(s.up, e.source, e.uri, mark);
  }

  /** With no edit of the document sent after the command, the guard alone decides. */
  lemma ChecksReadLastIff(acts: seq<Action>, trace: seq<State>, window: nat, s: State, i: nat, k: nat, c: nat)
    requires IsRun(acts, trace, window) && s == trace[|acts|]
    requires i < |s.adapter.seen| && k < |s.net.requests| && s.net.requests[k] == CheckOf(c)
    requires s.adapter.seen[i].id == IdOfRequest(k)
    requires c < |s.up.commands| && s.up.commands[c].mark <= |s.up.edits|
    requires forall n | s.up.commands[c].mark <= n < |s.up.edits| :: s.up.edits[n].uri != s.adapter.seen[i].uri
    ensures
      var e, mark := s.adapter.seen[i], s.up.commands[c].mark;
      && (AtLeastAsRecent(s.up.edits, e.source, e.uri, mark) <==> !IgnoredLast(s.up, e.uri, mark))
      && (e.source == LastSent(s.up.edits, e.uri, mark) <==> !IgnoredLast(s.up, e.uri, mark))
  {
    ChecksReadAccepted(acts, trace, window, s, i, k, c);
    ChecksReadRecentIff(acts, trace, window, s, i, k, c);
    AcceptedFacts(s.up.edits, {}, s.adapter.seen[i].uri, s.up.commands[c].mark);
    AcceptedFacts(s.up.edits, s.up.ignored, s.adapter.seen[i].uri, s.up.commands[c].mark);
  }

  /** And when it is not, the check reads an edit of strictly greater version than the last one. */
  lemma OlderIsGreater(acts: seq<Action>, trace: seq<State>, window: nat, s: State, u: Uri, mark: nat)
    requires IsRun(acts, trace, window) && s == trace[|acts|] && mark <= |s.up.edits| && IgnoredLast(s.up, u, mark)
    ensures
      var w := Accepted(s.up, u, mark);
      var last := LastSent(s.up.edits, u, mark).value;
      w.Some? && w.value < last < mark && s.up.edits[w.value].version > s.up.edits[last].version
  {
    AlwaysInv(acts, trace, window);
    var last := LastSent(s.up.edits, u, mark).value;
    AcceptedFacts(s.up.edits, {}, u, mark);
    assert Beaten(s.up, last);
    SameAccepted(s.up.edits, s.up.ignored, u, last, mark);
  }

  lemma {:induction false} SameAccepted(edits: seq<Edit>, ignored: set<nat>, u: Uri, j: nat, k: nat)
    requires j <= k <= |edits| && forall n: nat | j <= n < k && edits[n].uri == u :: n in ignored
    ensures LastAccepted(edits, ignored, u, k) == LastAccepted(edits, ignored, u, j)
  {
    if j < k {
      SameAccepted(edits, ignored, u, j, k - 1);
    }
  }

  /** Versions of one document, among the first `mark` edits only, do not fall. */
  ghost predicate AscendingFor(edits: seq<Edit>, u: Uri, mark: nat)
    requires mark <= |edits|
  {
    forall i, j | 0 <= i < j < mark && edits[i].uri == u && edits[j].uri == u :: edits[i].version <= edits[j].version
  }

  /** Where the versions of the document do not fall before the command, the check is recent. */
  lemma ChecksReadRecentText(acts: seq<Action>, trace: seq<State>, window: nat, s: State, i: nat, k: nat, c: nat)
    requires IsRun(acts, trace, window) && s == trace[|acts|]
    requires i < |s.adapter.seen| && k < |s.net.requests| && s.net.requests[k] == CheckOf(c)
    requires s.adapter.seen[i].id == IdOfRequest(k)
    requires c < |s.up.commands| && s.up.commands[c].mark <= |s.up.edits|
    requires AscendingFor(s.up.edits, s.adapter.seen[i].uri, s.up.commands[c].mark)
    ensures AtLeastAsRecent(s.up.edits, s.adapter.seen[i].source, s.adapter.seen[i].uri, s.up.commands[c].mark)
  {
    var e, mark := s.adapter.seen[i], s.up.commands[c].mark;
    ChecksReadRecentIff(acts, trace, window, s, i, k, c);
    if IgnoredLast(s.up, e.uri, mark) {
      OlderIsGreater(acts, trace, window, s, e.uri, mark);
      AcceptedFacts(s.up.edits, s.up.ignored, e.uri, mark);
      AcceptedFacts(s.up.edits, {}, e.uri, mark);
    }
  }

  /** The barrier itself, at the moment a flush is acknowledged: for every covered document the last
      push answered is exactly the last edit accepted before the command, so it is the last edit sent
      before the command if and only if that one was not ignored. */
  lemma AcknowledgedExactly(acts: seq<Action>, trace: seq<State>, window: nat, s: State, c: nat, u: Uri)
    requires IsRun(acts, trace, window) && acts != [] && acts[|acts| - 1].WorkerFinish? && s == trace[|acts|]
    requires trace[|acts| - 1].up.mode == Visiting(Some(c)) && c < |s.up.commands| && Covers(s.up.commands[c], u)
    ensures c in s.up.acked && s.up.commands[c].mark <= |s.up.edits|
    ensures
      var mark := s.up.commands[c].mark;
      && Lookup(s.up.delivered, u) == Accepted(s.up, u, mark)
      && (Lookup(s.up.delivered, u) == LastSent(s.up.edits, u, mark) <==> !IgnoredLast(s.up, u, mark))
  {
    var n := |acts| - 1;
    RunPrefix(acts, trace, window);
    AlwaysInv(acts[..n], trace[..n + 1], window);
    AtAcknowledgement(trace[n].up, c);
    LastAcceptedIff(s.up, u, s.up.commands[c].mark);
  }

  lemma AtAcknowledgement(w: Upstream, c: nat)
    requires InOrder(w) && WorkerPossible(w, WorkerFinish) && w.mode == Visiting(Some(c))
    ensures c in WorkerStep(w, WorkerFinish).acked && AnsweredExactly(WorkerStep(w, WorkerFinish), c)
  {
    OrderFinish(w);
  }

  lemma LastAcceptedIff(w: Upstream, u: Uri, mark: nat)
    requires mark <= |w.edits|
    ensures Accepted(w, u, mark) == LastSent(w.edits, u, mark) <==> !IgnoredLast(w, u, mark)
  {
    AcceptedFacts(w.edits, {}, u, mark);
    AcceptedFacts(w.edits, w.ignored, u, mark);
  }

  /** From then on the adapter's text of a covered document is that edit's or that of one sent after
      the command. */
  lemma AcknowledgedMeansDelivered(acts: seq<Action>, trace: seq<State>, window: nat, s: State, c: nat, u: Uri)
    requires IsRun(acts, trace, window) && s == trace[|acts|]
    requires c in s.up.acked && c < |s.up.commands| && Covers(s.up.commands[c], u)
    ensures s.up.commands[c].mark <= |s.up.edits|
    ensures Fits(Lookup(s.adapter.source, u), Accepted(s.up, u, s.up.commands[c].mark), s.up.commands[c].mark)
    ensures
      match Lookup(s.adapter.source, u)
      case None => u !in s.adapter.store
      case Some(n) => n < |s.up.edits| && Lookup(s.adapter.store, u) == Some(s.up.edits[n].text)
  {
    AlwaysInv(acts, trace, window);
    assert Settled(s.up, c);
    assert SettledFor(s.up, c, u);
    if PushDone(s) {
      assert LinkOf(s.up, s.net.held.value);
    }
  }
}

/** What the client shows over whole runs of publish, close and stop calls. */
module DiagnosticsView {
  import opened Protocol
  import opened Publishing

  // ---------------------------------------------------------------------------------------------
  // The effect of one call on what is visible
  // ---------------------------------------------------------------------------------------------

  lemma {:induction false} BlanksVisible(sent: seq<Notification>, list: seq<Uri>, t: Uri)
    ensures Visible(sent + Blank(list), t) == if t in list then [] else Visible(sent, t)
  {
    if list == [] {
      assert sent + Blank(list) == sent;
    } else {
      var front, u := list[..|list| - 1], list[|list| - 1];
      BlanksVisible(sent, front, t);
      assert list == front + [u];
      BlankSnoc(sent, front, u);
      VisibleSnoc(sent + Blank(front), Notification(u, [], None), t);
    }
  }

  lemma VisibleSnoc(sent: seq<Notification>, n: Notification, t: Uri)
    ensures Visible(sent + [n], t) == if n.uri == t then n.diagnostics else Visible(sent, t)
  {
    assert (sent + [n])[..|sent|] == sent;
  }

  lemma BlankSnoc(sent: seq<Notification>, front: seq<Uri>, u: Uri)
    ensures sent + Blank(front + [u]) == (sent + Blank(front)) + [Notification(u, [], None)]
  {
    assert Blank(front + [u]) == Blank(front) + [Notification(u, [], None)];
  }

  lemma {:induction false} FreshVisible(sent: seq<Notification>, u: Uri, version: int,
                                        groups: map<Uri, seq<LspDiagnostic>>, walk: seq<Uri>, t: Uri)
    requires forall i | 0 <= i < |walk| :: walk[i] in groups
    ensures Visible(sent + Fresh(u, version, groups, walk), t) == if t in walk then groups[t] else Visible(sent, t)
  {
    if walk == [] {
      assert sent + Fresh(u, version, groups, walk) == sent;
    } else {
      var front, w := walk[..|walk| - 1], walk[|walk| - 1];
      FreshVisible(sent, u, version, groups, front, t);
      assert walk == front + [w];
      var more := sent + Fresh(u, version, groups, walk);
      assert more == sent + Fresh(u, version, groups, front) + [more[|more| - 1]];
      assert more[..|sent| + |front|] == sent + Fresh(u, version, groups, front);
    }
  }

  lemma {:induction false} WithoutMembers(list: seq<Uri>, gone: set<Uri>, t: Uri)
    ensures t in Without(list, gone) <==> t in list && t !in gone
  {
    if list != [] {
      var front, u := list[..|list| - 1], list[|list| - 1];
      WithoutMembers(front, gone, t);
      assert list == front + [u];
    }
  }

  /** What `t` shows after a call, as a client would put it. */
  function ShownAfter(s: State, c: Call, t: Uri): seq<LspDiagnostic> {
    match c
    case Publish(u, _, groups) =>
      if t in groups then groups[t] else if t in TargetsOf(s, u) then [] else Visible(s.sent, t)
    case Close(u) => if t == u || t in TargetsOf(s, u) then [] else Visible(s.sent, t)
    case Stop => if t in Registered(s) || t in s.documents then [] else Visible(s.sent, t)
    case _ => Visible(s.sent, t)
  }

  /** Exactly what a call does to the list shown for `t`, whatever the order of its notifications. */
  lemma StepVisible(s: State, e: Event, t: Uri)
    requires Possible(s, e)
    ensures Visible(Step(s, e).sent, t) == ShownAfter(s, e.call, t)
  {
    match e.call {
      case Publish(u, version, groups) =>
        var stale := Without(TargetsOf(s, u), groups.Keys);
        WithoutMembers(TargetsOf(s, u), groups.Keys, t);
        BlanksVisible(s.sent, stale, t);
        FreshVisible(s.sent + Blank(stale), u, version, groups, e.walk, t);
      case Close(u) =>
        BlanksVisible(s.sent, TargetsOf(s, u), t);
        BlanksVisible(s.sent + Blank(TargetsOf(s, u)), [u], t);
      case Stop =>
        BlanksVisible(s.sent, e.keys, t);
        BlanksVisible(s.sent + Blank(e.keys), e.walk, t);
      case _ =>
    }
  }

  // ---------------------------------------------------------------------------------------------
  // What a publish shows of its payload
  // ---------------------------------------------------------------------------------------------

  /** A 1-based index shown 0-based, held within the unsigned 32-bit range. */
  predicate ShownIndex(value: int, shown: int) {
    && (1 <= value <= 0x1_0000_0000 ==> shown == value - 1)
    && (value < 1 ==> shown == 0)
    && (value > 0x1_0000_0000 ==> shown == 0xFFFF_FFFF)
  }

  predicate ShownPosition(p: Position, shown: LspPosition) {
    ShownIndex(p.line, shown.line) && ShownIndex(p.col, shown.character)
  }

  /** A payload diagnostic as the editor shows it. */
  predicate ShownAs(d: Diagnostic, shown: LspDiagnostic) {
    && ShownPosition(d.range.start, shown.range.start) && ShownPosition(d.range.end, shown.range.end)
    && (shown.severity.ERROR? <==> d.severity.Error?)
    && (shown.severity.WARNING? <==> d.severity.Warning?)
    && (shown.severity.INFORMATION? <==> d.severity.Info?)
    && shown.message == d.message && shown.source == "isabelle"
  }

  /** After a publish each target shows one diagnostic for each diagnostic of the payload that resolves
      to it, in payload order: the same severity, message and, 0-based, range, from `isabelle`. */
  lemma PublishShows(s: State, e: Event, payload: seq<Diagnostic>, u: Uri, version: int, parse: UrlParser, t: Uri)
    requires Possible(s, e) && e.call == Publish(u, version, Grouped(payload, u, parse))
    requires t in Targets(payload, u, parse)
    ensures
      var at, shown := Positions(payload, u, parse, t), Visible(Step(s, e).sent, t);
      |shown| == |at| && forall k | 0 <= k < |at| :: ShownAs(payload[at[k]], shown[k])
  {
    StepVisible(s, e, t);
    GroupIsStable(payload, u, parse, t);
  }

  /** The version a client is told: the response's, if it fits a signed 32-bit number, and else the
      largest such number. */
  predicate ToldVersion(version: int, told: int) {
    if -0x8000_0000 <= version < 0x8000_0000 then told == version else told == 0x7FFF_FFFF
  }

  /** What a call sends comes after what was sent, and only a publish tells a version, namely to its
      request URI. */
  lemma VersionsTold(s: State, e: Event, i: nat)
    requires Possible(s, e) && |s.sent| <= i < |Step(s, e).sent|
    ensures s.sent <= Step(s, e).sent
    ensures
      var n := Step(s, e).sent[i];
      && (n.version.Some? <==> e.call.Publish? && n.uri == e.call.uri)
      && (n.version.Some? ==> ToldVersion(e.call.version, n.version.value))
  {
    if e.call.Publish? {
      var u, groups := e.call.uri, e.call.groups;
      var stale := Without(TargetsOf(s, u), groups.Keys);
      WithoutMembers(TargetsOf(s, u), groups.Keys, u);
      var n := Step(s, e).sent[i];
      if i < |s.sent| + |stale| {
        assert n == Blank(stale)[i - |s.sent|];
        assert n.uri in stale;
      } else {
        assert n == Fresh(u, e.call.version, groups, e.walk)[i - |s.sent| - |stale|];
      }
    }
  }

  // ---------------------------------------------------------------------------------------------
  // Runs
  // ---------------------------------------------------------------------------------------------

  /** `trace[k]` is the state before event `k`; the last state is the state after the run. */
  ghost predicate IsRun(es: seq<Event>, trace: seq<State>) {
    && |trace| == |es| + 1 && trace[0] == INITIAL
    && forall k | 0 <= k < |es| :: Possible(trace[k], es[k]) && trace[k + 1] == Step(trace[k], es[k])
  }

  lemma RunPrefix(es: seq<Event>, trace: seq<State>, k: nat)
    requires IsRun(es, trace) && k <= |es|
    ensures IsRun(es[..k], trace[..k + 1])
  {
  }

  lemma RunAppend(es: seq<Event>, trace: seq<State>, e: Event)
    requires IsRun(es, trace) && Possible(trace[|es|], e)
    ensures IsRun(es + [e], trace + [Step(trace[|es|], e)])
  {
  }

  /** The last event that opened or closed `u` opened it. */
  ghost predicate IsOpen(es: seq<Event>, u: Uri) {
    if es == [] then false
    else
      var n := |es| - 1;
      if es[n].call == Open(u) then true else if es[n].call == Close(u) then false else IsOpen(es[..n], u)
  }

  /** The documents that a stop blanks are exactly those open. */
  lemma {:induction false} DocumentsAreOpen(es: seq<Event>, trace: seq<State>, u: Uri)
    requires IsRun(es, trace)
    ensures u in trace[|es|].documents <==> IsOpen(es, u)
  {
    if es != [] {
      var n := |es| - 1;
      RunPrefix(es, trace, n);
      DocumentsAreOpen(es[..n], trace[..n + 1], u);
      assert trace[..n + 1][n] == trace[n];
    }
  }

  ghost predicate RegisteredView(s: State) {
    forall t | Visible(s.sent, t) != [] :: t in Registered(s)
  }

  lemma RegisteredStep(s: State, e: Event)
    requires RegisteredView(s) && Possible(s, e)
    ensures RegisteredView(Step(s, e))
  {
    forall t | Visible(Step(s, e).sent, t) != []
      ensures t in Registered(Step(s, e))
    {
      StillRegistered(s, e, t);
    }
  }

  lemma StillRegistered(s: State, e: Event, t: Uri)
    requires RegisteredView(s) && Possible(s, e) && Visible(Step(s, e).sent, t) != []
    ensures t in Registered(Step(s, e))
  {
    var s' := Step(s, e);
    StepVisible(s, e, t);
    if e.call.Publish? && t in e.call.groups {
      var i :| 0 <= i < |e.keys| && e.keys[i] == t;
      assert s'.targets[e.call.uri][i] == t;
    } else {
      var r, i :| r in s.targets && 0 <= i < |s.targets[r]| && s.targets[r][i] == t;
      assert r in s'.targets && s'.targets[r][i] == t;
    }
  }

  /** On every run, a URI with a non-empty list is registered as a target of some request URI. */
  lemma {:induction false} VisibleIsRegistered(es: seq<Event>, trace: seq<State>)
    requires IsRun(es, trace)
    ensures RegisteredView(trace[|es|])
  {
    if es != [] {
      var n := |es| - 1;
      RunPrefix(es, trace, n);
      VisibleIsRegistered(es[..n], trace[..n + 1]);
      RegisteredStep(trace[n], es[n]);
    }
  }

  /** Stopping the session therefore leaves nothing on the screen. */
  lemma StopClearsEverything(es: seq<Event>, trace: seq<State>, t: Uri)
    requires es != [] && IsRun(es, trace) && es[|es| - 1].call.Stop?
    ensures Visible(trace[|es|].sent, t) == []
  {
    VisibleIsRegistered(es, trace);
    assert Registered(trace[|es|]) == {};
  }

  /** Closing a document blanks it and everything its latest response was published to. */
  lemma CloseClears(s: State, e: Event, t: Uri)
    requires e.call.Close? && Possible(s, e) && (t == e.call.uri || t in TargetsOf(s, e.call.uri))
    ensures Visible(Step(s, e).sent, t) == []
  {
    StepVisible(s, e, t);
  }

  /** A blank sent by a publish call never concerns the request URI itself, so it never carries the
      request's version: that branch of the code is unreachable. */
  lemma StaleIsForeign(s: State, e: Event, t: Uri)
    requires e.call.Publish? && Possible(s, e)
    ensures t in Without(TargetsOf(s, e.call.uri), e.call.groups.Keys) ==> t != e.call.uri
  {
    WithoutMembers(TargetsOf(s, e.call.uri), e.call.groups.Keys, t);
  }

  // ---------------------------------------------------------------------------------------------
  // Agreement with the latest responses
  // ---------------------------------------------------------------------------------------------

  type Responses = map<Uri, map<Uri, seq<LspDiagnostic>>>

  /** The latest response of each request URI since it was closed or the session stopped. */
  function Record(live: Responses, c: Call): Responses {
    match c
    case Publish(u, _, groups) => live[u := groups]
    case Close(u) => live - {u}
    case Stop => map[]
    case _ => live
  }

  function Live(es: seq<Event>): Responses {
    if es == [] then map[] else Record(Live(es[..|es| - 1]), es[|es| - 1].call)
  }

  /** The bookkeeping remembers exactly the targets of the latest responses. */
  ghost predicate Tracks(s: State, live: Responses) {
    && s.targets.Keys == live.Keys
    && forall r, t | r in live :: t in s.targets[r] <==> t in live[r]
  }

  /** The screen shows, for every target of every latest response, what that response said, and
      nothing besides. */
  ghost predicate Agrees(s: State, live: Responses) {
    && (forall r, t | r in live && t in live[r] :: Visible(s.sent, t) == live[r][t])
    && (forall t | Visible(s.sent, t) != [] :: exists r :: r in live && t in live[r])
  }

  /** Publishing for `u` changes nothing that another request URI's latest response is showing: a
      target it fills gets the same list, a target it blanks was blank in that response too. */
  ghost predicate PublishRespects(live: Responses, u: Uri, groups: map<Uri, seq<LspDiagnostic>>) {
    forall r, t | r in live && r != u && t in live[r] ::
      && (t in groups ==> groups[t] == live[r][t])
      && (t !in groups && Shows(live, u, t) ==> live[r][t] == [])
  }

  /** Closing `u` blanks nothing that another request URI's latest response is showing. */
  ghost predicate CloseRespects(live: Responses, u: Uri) {
    forall r, t | r in live && r != u && t in live[r] :: Blanked(live, u, t) ==> live[r][t] == []
  }

  /** Closing `u` blanks `t`. */
  predicate Blanked(live: Responses, u: Uri, t: Uri) {
    t == u || Shows(live, u, t)
  }

  predicate Shows(live: Responses, u: Uri, t: Uri) {
    u in live && t in live[u]
  }

  ghost predicate RespectsOthers(live: Responses, c: Call) {
    match c
    case Publish(u, _, groups) => PublishRespects(live, u, groups)
    case Close(u) => CloseRespects(live, u)
    case _ => true
  }

  lemma TracksStep(s: State, e: Event, live: Responses)
    requires Tracks(s, live) && Possible(s, e)
    ensures Tracks(Step(s, e), Record(live, e.call))
  {
    var s', live' := Step(s, e), Record(live, e.call);
    forall r, t | r in live'
      ensures t in s'.targets[r] <==> t in live'[r]
    {
      assert r in live ==> (t in s.targets[r] <==> t in live[r]);
    }
  }

  lemma PublishKeepsAgreement(s: State, e: Event, live: Responses)
    requires Tracks(s, live) && Agrees(s, live) && Possible(s, e) && e.call.Publish?
    requires PublishRespects(live, e.call.uri, e.call.groups)
    ensures Agrees(Step(s, e), live[e.call.uri := e.call.groups])
  {
    var u, groups := e.call.uri, e.call.groups;
    var s', live' := Step(s, e), live[u := groups];
    forall r, t | r in live' && t in live'[r]
      ensures Visible(s'.sent, t) == live'[r][t]
    {
      StepVisible(s, e, t);
      if r != u {
        assert r in live && live'[r] == live[r];
        assert u in live ==> (t in s.targets[u] <==> t in live[u]);
      }
    }
    forall t | Visible(s'.sent, t) != []
      ensures exists r :: r in live' && t in live'[r]
    {
      StepVisible(s, e, t);
      if t in groups {
        assert u in live' && t in live'[u];
      } else {
        var r :| r in live && t in live[r];
        assert r in live' && t in live'[r];
      }
    }
  }

  lemma PublishNeedsRespect(s: State, e: Event, live: Responses)
    requires Tracks(s, live) && Possible(s, e) && e.call.Publish?
    requires Agrees(Step(s, e), live[e.call.uri := e.call.groups])
    ensures PublishRespects(live, e.call.uri, e.call.groups)
  {
    var u, groups := e.call.uri, e.call.groups;
    var s', live' := Step(s, e), live[u := groups];
    forall r, t | r in live && r != u && t in live[r]
      ensures t in groups ==> groups[t] == live[r][t]
      ensures t !in groups && Shows(live, u, t) ==> live[r][t] == []
    {
      StepVisible(s, e, t);
      assert r in live' && live'[r] == live[r];
      assert u in live ==> (t in s.targets[u] <==> t in live[u]);
    }
  }

  lemma CloseKeepsAgreement(s: State, e: Event, live: Responses)
    requires Tracks(s, live) && Agrees(s, live) && Possible(s, e) && e.call.Close?
    requires CloseRespects(live, e.call.uri)
    ensures Agrees(Step(s, e), live - {e.call.uri})
  {
    var u := e.call.uri;
    var s', live' := Step(s, e), live - {u};
    forall r, t | r in live' && t in live'[r]
      ensures Visible(s'.sent, t) == live'[r][t]
    {
      StepVisible(s, e, t);
      assert r in live && r != u && live'[r] == live[r];
      assert u in live ==> (t in s.targets[u] <==> t in live[u]);
      assert Blanked(live, u, t) ==> live[r][t] == [];
    }
    forall t | Visible(s'.sent, t) != []
      ensures exists r :: r in live' && t in live'[r]
    {
      StepVisible(s, e, t);
      var r :| r in live && t in live[r];
      assert r in live' && t in live'[r];
    }
  }

  lemma CloseNeedsRespect(s: State, e: Event, live: Responses)
    requires Tracks(s, live) && Possible(s, e) && e.call.Close?
    requires Agrees(Step(s, e), live - {e.call.uri})
    ensures CloseRespects(live, e.call.uri)
  {
    var u := e.call.uri;
    var live' := live - {u};
    forall r, t | r in live && r != u && t in live[r]
      ensures Blanked(live, u, t) ==> live[r][t] == []
    {
      StepVisible(s, e, t);
      assert r in live' && live'[r] == live[r];
      assert u in live ==> (t in s.targets[u] <==> t in live[u]);
    }
  }

  lemma StepAgrees(s: State, e: Event, live: Responses)
    requires Tracks(s, live) && Agrees(s, live) && RegisteredView(s) && Possible(s, e)
    ensures Agrees(Step(s, e), Record(live, e.call)) <==> RespectsOthers(live, e.call)
  {
    match e.call {
      case Publish(u, _, groups) =>
        if PublishRespects(live, u, groups) {
          PublishKeepsAgreement(s, e, live);
        } else if Agrees(Step(s, e), Record(live, e.call)) {
          PublishNeedsRespect(s, e, live);
        }
      case Close(u) =>
        if CloseRespects(live, u) {
          CloseKeepsAgreement(s, e, live);
        } else if Agrees(Step(s, e), Record(live, e.call)) {
          CloseNeedsRespect(s, e, live);
        }
      case Stop =>
        forall t
          ensures Visible(Step(s, e).sent, t) == []
        {
          StepVisible(s, e, t);
        }
      case _ =>
    }
  }

  lemma {:induction false} RunTracks(es: seq<Event>, trace: seq<State>)
    requires IsRun(es, trace)
    ensures Tracks(trace[|es|], Live(es))
  {
    if es != [] {
      var n := |es| - 1;
      RunPrefix(es, trace, n);
      RunTracks(es[..n], trace[..n + 1]);
      TracksStep(trace[n], es[n], Live(es[..n]));
    }
  }

  ghost predicate AgreesAfter(es: seq<Event>, trace: seq<State>, k: nat)
    requires k <= |es| && |trace| == |es| + 1
  {
    Agrees(trace[k], Live(es[..k]))
  }

  ghost predicate AlwaysAgrees(es: seq<Event>, trace: seq<State>)
    requires IsRun(es, trace)
  {
    forall k: nat | k <= |es| :: AgreesAfter(es, trace, k)
  }

  ghost predicate AlwaysRespects(es: seq<Event>) {
    forall k | 0 <= k < |es| :: RespectsOthers(Live(es[..k]), es[k].call)
  }

  lemma AgreesSnoc(es: seq<Event>, trace: seq<State>)
    requires es != [] && IsRun(es, trace) && IsRun(es[..|es| - 1], trace[..|es|])
    ensures AlwaysAgrees(es, trace) <==>
            AlwaysAgrees(es[..|es| - 1], trace[..|es|]) && Agrees(trace[|es|], Live(es))
  {
    var front, before := es[..|es| - 1], trace[..|es|];
    forall k: nat | k < |es|
      ensures AgreesAfter(front, before, k) <==> AgreesAfter(es, trace, k)
    {
      assert front[..k] == es[..k];
    }
    assert es[..|es|] == es;
    assert AgreesAfter(es, trace, |es|) <==> Agrees(trace[|es|], Live(es));
  }

  lemma RespectsSnoc(es: seq<Event>)
    requires es != []
    ensures AlwaysRespects(es) <==>
            AlwaysRespects(es[..|es| - 1]) && RespectsOthers(Live(es[..|es| - 1]), es[|es| - 1].call)
  {
    var front := es[..|es| - 1];
    assert forall k | 0 <= k < |front| :: front[..k] == es[..k] && front[k] == es[k];
  }

  /** The screen agrees with the latest responses throughout a run if and only if no call of the run
      disturbs what another request URI's latest response is showing. */
  lemma {:induction false} AgreesIff(es: seq<Event>, trace: seq<State>)
    requires IsRun(es, trace)
    ensures AlwaysAgrees(es, trace) <==> AlwaysRespects(es)
  {
    if es == [] {
      assert AgreesAfter(es, trace, 0);
    } else {
      var n := |es| - 1;
      RunPrefix(es, trace, n);
      AgreesIff(es[..n], trace[..n + 1]);
      AgreesSnoc(es, trace);
      RespectsSnoc(es);
      if AlwaysAgrees(es[..n], trace[..n + 1]) {
        AgreesAtEnd(es[..n], trace[..n + 1]);
        RunTracks(es[..n], trace[..n + 1]);
        VisibleIsRegistered(es[..n], trace[..n + 1]);
        StepAgrees(trace[n], es[n], Live(es[..n]));
        assert Live(es) == Record(Live(es[..n]), es[n].call);
      }
    }
  }

  lemma AgreesAtEnd(es: seq<Event>, trace: seq<State>)
    requires IsRun(es, trace) && AlwaysAgrees(es, trace)
    ensures Agrees(trace[|es|], Live(es))
  {
    assert AgreesAfter(es, trace, |es|);
    assert es[..|es|] == es;
  }

  /** No URI is ever a target of two request URIs, nor closed while another's target. */
  ghost predicate NeverShared(es: seq<Event>) {
    forall k | 0 <= k < |es| :: Disjoint(Live(es[..k]), es[k].call)
  }

  ghost predicate Disjoint(live: Responses, c: Call) {
    match c
    case Publish(u, _, groups) => Unshared(live, u, groups.Keys)
    case Close(u) => Unshared(live, u, {u})
    case _ => true
  }

  ghost predicate Unshared(live: Responses, u: Uri, touched: set<Uri>) {
    forall r, t | r in live && r != u && t in live[r] :: t !in touched && !Shows(live, u, t)
  }

  lemma DisjointRespects(live: Responses, c: Call)
    requires Disjoint(live, c)
    ensures RespectsOthers(live, c)
  {
  }

  /** So when no URI is shared, every target shows its owner's latest response. */
  lemma UnsharedAgrees(es: seq<Event>, trace: seq<State>)
    requires IsRun(es, trace) && NeverShared(es)
    ensures Agrees(trace[|es|], Live(es))
  {
    forall k | 0 <= k < |es|
      ensures RespectsOthers(Live(es[..k]), es[k].call)
    {
      DisjointRespects(Live(es[..k]), es[k].call);
    }
    AgreesIff(es, trace);
    AgreesAtEnd(es, trace);
  }

  /** With a shared target agreement fails: documents `a` and `b` are each answered with the diagnostic
      `x`, which is about a third document, then `a` is closed, and what `b`'s response reports about
      the third document disappears although it was never withdrawn. */
  lemma SharedTargetExample(x: Diagnostic, parse: UrlParser, a: Uri, b: Uri) returns (es: seq<Event>, trace: seq<State>)
    requires a != b && parse(x.uri).Some? && parse(x.uri).value !in {a, b}
    ensures IsRun(es, trace) && |es| == 3 && es[2].call == Close(a)
    ensures es[0].call == Publish(a, 1, Grouped([x], a, parse)) && es[1].call == Publish(b, 1, Grouped([x], b, parse))
    ensures !Agrees(trace[|es|], Live(es))
  {
    var p := parse(x.uri).value;
    es, trace := TwoReports(x, parse, a, b);
    var s2, close := trace[|es|], Event(Close(a), [], []);
    var live := Live(es);
    var s3 := Extend(es, trace, close);
    HiddenReport(s2, close, s3, live - {a}, b, p, ToLsp(x));
    es, trace := es + [close], trace + [s3];
  }

  /** Two documents report the same about a third. */
  lemma TwoReports(x: Diagnostic, parse: UrlParser, a: Uri, b: Uri) returns (es: seq<Event>, trace: seq<State>)
    requires a != b && parse(x.uri).Some? && parse(x.uri).value !in {a, b}
    ensures |es| == 2 && es[0].call == Publish(a, 1, Grouped([x], a, parse))
    ensures es[1].call == Publish(b, 1, Grouped([x], b, parse))
    ensures IsRun(es, trace) && parse(x.uri).value in TargetsOf(trace[|es|], a)
    ensures b in Live(es) && parse(x.uri).value in Live(es)[b] && Live(es)[b][parse(x.uri).value] == [ToLsp(x)]
  {
    assert IsRun([], [INITIAL]);
    es, trace := Report([], [INITIAL], x, parse, a);
    es, trace := Report(es, trace, x, parse, b);
  }

  lemma GroupedAbout(x: Diagnostic, parse: UrlParser, u: Uri)
    requires parse(x.uri).Some? && parse(x.uri).value != u
    ensures Grouped([x], u, parse) == map[u := [], parse(x.uri).value := [ToLsp(x)]]
  {
    var p := parse(x.uri).value;
    TargetsOfOne(x, parse, u);
    GroupOfOne(x, parse, u, u);
    GroupOfOne(x, parse, u, p);
  }

  lemma TargetsOfOne(x: Diagnostic, parse: UrlParser, u: Uri)
    ensures Targets([x], u, parse) == {u, Target(x, u, parse)}
  {
    assert [x][0] == x;
  }

  lemma GroupOfOne(x: Diagnostic, parse: UrlParser, u: Uri, t: Uri)
    ensures GroupFor([x], u, parse, t) == if Target(x, u, parse) == t then [ToLsp(x)] else []
  {
    assert [x][..0] == [];
  }

  /** Document `u` is answered with a diagnostic about another document. */
  lemma Report(es: seq<Event>, trace: seq<State>, x: Diagnostic, parse: UrlParser, u: Uri)
    returns (es': seq<Event>, trace': seq<State>)
    requires IsRun(es, trace) && parse(x.uri).Some? && parse(x.uri).value != u
    ensures es <= es' && |es'| == |es| + 1 && es'[|es|].call == Publish(u, 1, Grouped([x], u, parse))
    ensures IsRun(es', trace') && trace'[|es'|].targets == trace[|es|].targets[u := [u, parse(x.uri).value]]
    ensures Live(es') == Live(es)[u := map[u := [], parse(x.uri).value := [ToLsp(x)]]]
  {
    var p := parse(x.uri).value;
    GroupedAbout(x, parse, u);
    var e := Event(Publish(u, 1, Grouped([x], u, parse)), [u, p], [u, p]);
    var t := Extend(es, trace, e);
    es', trace' := es + [e], trace + [t];
  }

  /** One more call on a run. */
  lemma Extend(es: seq<Event>, trace: seq<State>, e: Event) returns (t: State)
    requires IsRun(es, trace) && Possible(trace[|es|], e)
    ensures t == Step(trace[|es|], e) && IsRun(es + [e], trace + [t]) && (trace + [t])[|es + [e]|] == t
    ensures Live(es + [e]) == Record(Live(es), e.call)
  {
    t := Step(trace[|es|], e);
    RunAppend(es, trace, e);
    LiveAppend(es, e);
  }

  lemma HiddenReport(s: State, e: Event, s': State, live: Responses, owner: Uri, t: Uri, d: LspDiagnostic)
    requires Possible(s, e) && s' == Step(s, e) && e.call.Close? && t in TargetsOf(s, e.call.uri)
    requires owner in live && t in live[owner] && live[owner][t] == [d]
    ensures !Agrees(s', live)
  {
    StepVisible(s, e, t);
    assert Visible(s'.sent, t) != live[owner][t];
  }

  lemma LiveAppend(es: seq<Event>, e: Event)
    ensures Live(es + [e]) == Record(Live(es), e.call)
  {
    assert (es + [e])[..|es|] == es;
  }
}

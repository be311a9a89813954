/** Many requests sharing one transport, their attempts interleaved in any way. */
module TransportRuns {
  import opened Protocol
  import opened MessageIds
  import opened Transport

  /** How far request `r` has come: before its first attempt, before its second, or settled. */
  datatype Phase = Waiting | Retrying | Settled(result: Result)

  datatype System = System(transport: State, phases: seq<Phase>)

  const INITIAL := System(State(None, 0, []), [])

  datatype Event =
    | Issue
    | Try(request: nat, script: Script)

  /** The bridge echoes identifiers of requests that exist; it may answer late, repeatedly, out of
      order, for other requests, or not at all, and it may send garbage. */
  ghost predicate Honest(script: Script, issued: nat) {
    forall i | 0 <= i < |script.replies| && script.replies[i].Reply? ::
      script.replies[i].answers < issued && script.replies[i].message.id == IdOfRequest(script.replies[i].answers)
  }

  ghost predicate Possible(s: System, e: Event) {
    match e
    case Issue => true
    case Try(r, script) => r < |s.phases| && !s.phases[r].Settled? && Honest(script, |s.phases|)
  }

  function Step(s: System, e: Event): System {
    match e
    case Issue => s.(phases := s.phases + [Waiting])
    case Try(r, script) =>
      if r < |s.phases| && !s.phases[r].Settled? then
        var (t, verdict) := Attempt(s.transport, r, s.phases[r].Retrying?, script);
        System(t, s.phases[r := match verdict case Done(result) => Settled(result) case Retry => Retrying])
      else s
  }

  function Exec(es: seq<Event>): System {
    if es == [] then INITIAL else Step(Exec(es[..|es| - 1]), es[|es| - 1])
  }

  ghost predicate IsRun(es: seq<Event>) {
    es == [] || (IsRun(es[..|es| - 1]) && Possible(Exec(es[..|es| - 1]), es[|es| - 1]))
  }

  // ---------------------------------------------------------------------------------------------
  // One attempt
  // ---------------------------------------------------------------------------------------------

  /** A match is the first line that carries the identifier, with no garbage before it. */
  lemma {:induction false} ScanFindsFirst(id: string, replies: seq<Incoming>, ending: Ending) returns (k: nat)
    ensures k <= |replies|
    ensures forall j | 0 <= j < k :: replies[j].Reply? && replies[j].message.id != id
    ensures
      match Scan(id, replies, ending)
      case Matched(m, a) => k < |replies| && replies[k] == Reply(m, a) && m.id == id
      case Garbled => k < |replies| && replies[k].Garbage?
      case Broken(e) => k == |replies| && e == ending
  {
    if replies == [] || replies[0].Garbage? || replies[0].message.id == id {
      k := 0;
    } else {
      var rest := ScanFindsFirst(id, replies[1..], ending);
      k := rest + 1;
      assert forall j | 0 < j < k :: replies[j] == replies[1..][j - 1];
    }
  }

  /** Reply line `k` settles the exchange: it is garbage, or the first reply that carries the identifier,
      and everything before it is a reply to something else. */
  ghost predicate SettledBy(id: string, replies: seq<Incoming>, k: nat) {
    && k < |replies| && (replies[k].Reply? ==> replies[k].message.id == id)
    && forall j | 0 <= j < k :: replies[j].Reply? && replies[j].message.id != id
  }

  lemma OneSettles(id: string, replies: seq<Incoming>, i: nat, k: nat)
    requires SettledBy(id, replies, k) && i <= |replies|
    requires forall j | 0 <= j < i :: replies[j].Reply? && replies[j].message.id != id
    requires i < |replies| ==> replies[i].Garbage? || replies[i].message.id == id
    ensures k == i
  {
  }

  /** What a broken attempt reports: a write that takes too long or a wait for the reply that does is a
      timeout, the bridge closing the connection is an end of file, and any other failure to write or
      to read is an I/O error. */
  function Reported(script: Script): BridgeError {
    if script.send.SendExpired? || (script.send.Sent? && script.ending.Expired?) then Timeout
    else if script.send.Sent? && script.ending.EndOfFile? then Eof
    else Io
  }

  /** What one attempt comes to.  Without a connection it fails at once; a line that settles the exchange
      decides it, garbage as an invalid response; otherwise the attempt is broken, which a first attempt
      answers with a retry and a second one reports. */
  lemma {:induction false} AttemptVerdict(s: State, r: nat, second: bool, script: Script)
    ensures
      var (t, verdict) := Attempt(s, r, second, script);
      var connected := s.slot.Some? || script.connects;
      && (!connected ==> verdict == Done(Err(Io)) && t == s)
      && (forall k: nat | connected && script.send.Sent? && SettledBy(IdOfRequest(r), script.replies, k) ::
            verdict == match script.replies[k]
                       case Garbage => Done(Err(InvalidResponse))
                       case Reply(m, a) => Done(Ok(m, a)))
      && (connected && (!script.send.Sent? || forall k: nat :: !SettledBy(IdOfRequest(r), script.replies, k)) ==>
            verdict == if second then Done(Err(Reported(script))) else Retry)
  {
    var id := IdOfRequest(r);
    var i := ScanFindsFirst(id, script.replies, script.ending);
    forall k: nat | SettledBy(id, script.replies, k)
      ensures k == i
    {
      OneSettles(id, script.replies, i, k);
    }
    if i < |script.replies| {
      assert SettledBy(id, script.replies, i);
    }
  }

  /** The connection survives an attempt exactly when it ends with a reply or with garbage; a first
      attempt that breaks the connection is retried and a second one settles the request. */
  lemma AttemptSlot(s: State, r: nat, second: bool, script: Script)
    ensures
      var (t, verdict) := Attempt(s, r, second, script);
      && (t.slot.Some? <==> verdict.Done? && (verdict.result.Ok? || verdict.result.error.InvalidResponse?))
      && (second ==> verdict.Done?)
      && (verdict.Retry? ==> t.slot.None? && t.writes != s.writes)
      && (s.slot.Some? && t.slot.Some? ==> t.slot == s.slot)
  {
  }

  // ---------------------------------------------------------------------------------------------
  // Whole runs
  // ---------------------------------------------------------------------------------------------

  /** The connections request `r` has been written to, in order. */
  function Connections(writes: seq<Write>, r: nat): seq<nat> {
    if writes == [] then []
    else
      var n := |writes| - 1;
      Connections(writes[..n], r) + (if writes[n].request == r then [writes[n].connection] else [])
  }

  lemma ConnectionsAppend(writes: seq<Write>, w: Write, r: nat)
    ensures Connections(writes + [w], r) == Connections(writes, r) + (if w.request == r then [w.connection] else [])
  {
    assert (writes + [w])[..|writes|] == writes;
  }

  ghost predicate PhaseOk(s: System, r: nat)
    requires r < |s.phases|
  {
    var cs := Connections(s.transport.writes, r);
    match s.phases[r]
    case Waiting => cs == []
    case Retrying => |cs| == 1 && cs[0] < s.transport.connects && s.transport.slot != Some(cs[0])
    case Settled(result) =>
      && |cs| <= 2 && (|cs| == 2 ==> cs[0] < cs[1])
      && (result.Ok? ==> cs != [] && result.answers < |s.phases|
                         && result.message.id == IdOfRequest(r) == IdOfRequest(result.answers))
  }

  ghost predicate Inv(s: System) {
    && (s.transport.slot.Some? ==> s.transport.slot.value == s.transport.connects - 1)
    && (forall i | 0 <= i < |s.transport.writes| :: s.transport.writes[i].request < |s.phases|)
    && forall r: nat | r < |s.phases| :: PhaseOk(s, r)
  }

  lemma {:induction false} NoWritesYet(writes: seq<Write>, r: nat)
    requires forall i | 0 <= i < |writes| :: writes[i].request != r
    ensures Connections(writes, r) == []
  {
    if writes != [] {
      NoWritesYet(writes[..|writes| - 1], r);
    }
  }

  /** An attempt that cannot connect settles its request and touches nothing else. */
  lemma TryUnconnected(s: System, r: nat, script: Script, q: nat)
    requires Inv(s) && Possible(s, Try(r, script)) && q < |s.phases|
    requires s.transport.slot.None? && !script.connects
    ensures PhaseOk(Step(s, Try(r, script)), q)
  {
    assert PhaseOk(s, q) && PhaseOk(s, r);
  }

  lemma TryEffect(s: System, r: nat, script: Script)
    requires Possible(s, Try(r, script)) && (s.transport.slot.Some? || script.connects)
    ensures
      var t, s' := s.transport, Step(s, Try(r, script));
      var c := if t.slot.Some? then t.slot.value else t.connects;
      && s'.transport.writes == t.writes + [Write(r, c)]
      && s'.transport.connects == (if t.slot.Some? then t.connects else t.connects + 1)
      && (s'.transport.slot == None || s'.transport.slot == Some(c))
      && |s'.phases| == |s.phases| && forall q: nat | q < |s.phases| && q != r :: s'.phases[q] == s.phases[q]
  {
  }

  /** Other requests are not disturbed by an attempt: a broken connection is never reused. */
  lemma TryOther(s: System, r: nat, script: Script, q: nat)
    requires Inv(s) && Possible(s, Try(r, script)) && q < |s.phases| && q != r
    requires s.transport.slot.Some? || script.connects
    ensures PhaseOk(Step(s, Try(r, script)), q)
  {
    assert PhaseOk(s, q);
    var t := s.transport;
    var c := if t.slot.Some? then t.slot.value else t.connects;
    TryEffect(s, r, script);
    ConnectionsAppend(t.writes, Write(r, c), q);
  }

  /** A matched reply was sent for a request that carries the same identifier. */
  lemma MatchIsHonest(s: System, r: nat, script: Script)
    requires Possible(s, Try(r, script))
    ensures
      match Exchange(IdOfRequest(r), script)
      case Matched(m, a) => a < |s.phases| && m.id == IdOfRequest(r) == IdOfRequest(a)
      case _ => true
  {
    if script.send.Sent? {
      var k := ScanFindsFirst(IdOfRequest(r), script.replies, script.ending);
    }
  }

  lemma TryOwn(s: System, r: nat, script: Script)
    requires Inv(s) && Possible(s, Try(r, script))
    requires s.transport.slot.Some? || script.connects
    ensures PhaseOk(Step(s, Try(r, script)), r)
  {
    assert PhaseOk(s, r);
    var t := s.transport;
    var c := if t.slot.Some? then t.slot.value else t.connects;
    TryEffect(s, r, script);
    ConnectionsAppend(t.writes, Write(r, c), r);
    MatchIsHonest(s, r, script);
  }

  lemma TryStep(s: System, r: nat, script: Script)
    requires Inv(s) && Possible(s, Try(r, script))
    ensures Inv(Step(s, Try(r, script)))
  {
    var s' := Step(s, Try(r, script));
    forall q: nat | q < |s'.phases|
      ensures PhaseOk(s', q)
    {
      if s.transport.slot.None? && !script.connects {
        TryUnconnected(s, r, script, q);
      } else if q == r {
        TryOwn(s, r, script);
      } else {
        TryOther(s, r, script, q);
      }
    }
  }

  lemma {:induction false} RunInv(es: seq<Event>)
    requires IsRun(es)
    ensures Inv(Exec(es))
  {
    if es != [] {
      var n := |es| - 1;
      RunInv(es[..n]);
      var s := Exec(es[..n]);
      match es[n] {
        case Try(r, script) => TryStep(s, r, script);
        case Issue =>
          var s' := Step(s, Issue);
          forall r: nat | r < |s'.phases|
            ensures PhaseOk(s', r)
          {
            if r < |s.phases| {
              assert PhaseOk(s, r);
            } else {
              NoWritesYet(s.transport.writes, r);
            }
          }
      }
    }
  }

  /** A request is written at most twice, never twice to the same connection, and never again once
      it is settled; until its first attempt it is not written at all. */
  lemma WrittenAtMostTwice(es: seq<Event>, r: nat)
    requires IsRun(es) && r < |Exec(es).phases|
    ensures
      var s := Exec(es);
      var cs := Connections(s.transport.writes, r);
      && |cs| <= 2 && (|cs| == 2 ==> cs[0] < cs[1])
      && (s.phases[r].Waiting? ==> cs == []) && (s.phases[r].Retrying? ==> |cs| == 1)
  {
    RunInv(es);
    assert PhaseOk(Exec(es), r);
  }

  /** Every answer a request accepts was produced for a request with the same identifier: itself, or
      one a whole turn of the 64-bit counter away. */
  lemma AnswersModuloWrap(es: seq<Event>, s: System, r: nat, m: Message, a: nat)
    requires IsRun(es) && s == Exec(es) && r < |s.phases| && s.phases[r] == Settled(Ok(m, a))
    ensures a < |s.phases| && a % U64 == r % U64 && m.id == IdOfRequest(a)
  {
    RunInv(es);
    assert PhaseOk(s, r);
    IdsCollideIff(r, a);
  }

  /** Correlation: as long as no more than 2^64 requests have been issued, every accepted answer was
      produced for exactly that request, whatever else the bridge sends. */
  lemma AnswersOwnRequest(es: seq<Event>, s: System, r: nat, m: Message, a: nat)
    requires IsRun(es) && s == Exec(es) && |s.phases| <= U64
    requires r < |s.phases| && s.phases[r] == Settled(Ok(m, a))
    ensures a == r
  {
    AnswersModuloWrap(es, s, r, m, a);
    ResiduesBelow(r, a, U64);
  }

  /** Every accepted answer was produced for the request that accepted it. */
  ghost predicate Correlated(s: System) {
    forall r: nat, m, a | r < |s.phases| && s.phases[r] == Settled(Ok(m, a)) :: a == r
  }

  /** The bridge answers on the connection over which it was asked: each reply an attempt reads is for
      a request written to the connection the attempt uses, if only by the attempt itself. */
  ghost predicate AnswersLocally(s: System, e: Event) {
    e.Try? ==>
      var c := if s.transport.slot.Some? then s.transport.slot.value else s.transport.connects;
      forall i | 0 <= i < |e.script.replies| && e.script.replies[i].Reply? ::
        Write(e.script.replies[i].answers, c) in s.transport.writes + [Write(e.request, c)]
  }

  ghost predicate IsLocal(es: seq<Event>) {
    es == [] || (IsLocal(es[..|es| - 1]) && AnswersLocally(Exec(es[..|es| - 1]), es[|es| - 1]))
  }

  ghost predicate AlwaysCorrelated(n: nat) {
    forall es | IsRun(es) && |Exec(es).phases| == n :: Correlated(Exec(es))
  }

  ghost predicate LocallyCorrelated(n: nat) {
    forall es | IsRun(es) && IsLocal(es) && |Exec(es).phases| == n :: Correlated(Exec(es))
  }

  /** Correlation, exactly: all runs that make `n` requests are correlated if and only if the 64-bit
      counter has not started again; and so it is for the runs whose replies stay on the connection of
      their request. */
  lemma CorrelatedIff(n: nat)
    ensures AlwaysCorrelated(n) <==> n <= U64
    ensures LocallyCorrelated(n) <==> n <= U64
  {
    if n <= U64 {
      forall es | IsRun(es) && |Exec(es).phases| == n
        ensures Correlated(Exec(es))
      {
        forall r: nat, m, a | r < |Exec(es).phases| && Exec(es).phases[r] == Settled(Ok(m, a))
          ensures a == r
        {
          AnswersOwnRequest(es, Exec(es), r, m, a);
        }
      }
    } else {
      var es, m := LateReplyRun(n);
      var s := Exec(es);
      assert s.phases[U64] == Settled(Ok(m, 0));
      assert !Correlated(s);
    }
  }

  lemma OneMore(es: seq<Event>, e: Event)
    requires IsRun(es) && Possible(Exec(es), e)
    ensures IsRun(es + [e]) && Exec(es + [e]) == Step(Exec(es), e)
    ensures IsLocal(es) && AnswersLocally(Exec(es), e) ==> IsLocal(es + [e])
  {
    assert (es + [e])[..|es|] == es;
  }

  /** Request 0 is written, meets garbage and fails, and the connection is kept; then `n - 1` further
      requests are issued. */
  lemma {:induction false} IssuedRun(n: nat) returns (es: seq<Event>)
    requires n >= 1
    ensures IsRun(es) && IsLocal(es) && |Exec(es).phases| == n && forall r | 1 <= r < n :: Exec(es).phases[r] == Waiting
    ensures Exec(es).transport == State(Some(0), 1, [Write(0, 0)])
  {
    if n == 1 {
      var garbled := Try(0, Script(true, Sent, [Garbage], EndOfFile));
      assert [] + [Issue] == [Issue];
      OneMore([], Issue);
      OneMore([Issue], garbled);
      es := [Issue] + [garbled];
    } else {
      es := IssuedRun(n - 1);
      OneMore(es, Issue);
      es := es + [Issue];
    }
  }

  /** When more than 2^64 requests have been made, request 2^64 accepts the late reply to request 0,
      which comes over the one connection that both were written to. */
  lemma LateReplyRun(n: nat) returns (es: seq<Event>, m: Message)
    requires n > U64
    ensures IsRun(es) && IsLocal(es) && |Exec(es).phases| == n && Exec(es).phases[U64] == Settled(Ok(m, 0))
    ensures Exec(es).transport.writes == [Write(0, 0), Write(U64, 0)]
  {
    es := IssuedRun(n);
    m := Message(IdOfRequest(0), Diagnostics, "s1", 1, DiagnosticsBody([]));
    var late := Try(U64, Script(true, Sent, [Reply(m, 0)], EndOfFile));
    IdsCollideIff(0, U64);
    OneMore(es, late);
    es := es + [late];
  }

  // ---------------------------------------------------------------------------------------------
  // A request as its task runs it
  // ---------------------------------------------------------------------------------------------

  /** The attempts of these events, first or second as the run has it. */
  function AsOthers(es: seq<Event>, more: seq<Event>): seq<Other>
    requires forall e | e in more :: e.Try?
  {
    if more == [] then []
    else
      var n := |more| - 1;
      AsOthers(es, more[..n]) + [AsOther(Exec(es + more[..n]), more[n])]
  }

  /** The attempt of an event, as one of another task. */
  function AsOther(s: System, e: Event): Other
    requires e.Try?
  {
    Other(e.request, e.request < |s.phases| && s.phases[e.request].Retrying?, e.script)
  }

  lemma MeanwhileMore(s: State, others: seq<Other>, o: Other)
    ensures Meanwhile(s, others + [o]) == Attempt(Meanwhile(s, others), o.number, o.second, o.script).0
  {
    assert (others + [o])[..|others|] == others;
  }

  lemma {:induction false} OthersRun(es: seq<Event>, more: seq<Event>)
    requires IsRun(es + more) && forall e | e in more :: e.Try?
    ensures Exec(es + more).transport == Meanwhile(Exec(es).transport, AsOthers(es, more))
  {
    if more == [] {
      assert es + more == es;
    } else {
      var n := |more| - 1;
      var mid, e := es + more[..n], more[n];
      assert es + more == mid + [e] && e in more;
      RunUnfold(mid, e);
      OthersRun(es, more[..n]);
      TryTransport(Exec(mid), e);
      MeanwhileMore(Exec(es).transport, AsOthers(es, more[..n]), AsOther(Exec(mid), e));
    }
  }

  lemma RunUnfold(es: seq<Event>, e: Event)
    requires IsRun(es + [e])
    ensures IsRun(es) && Possible(Exec(es), e) && Exec(es + [e]) == Step(Exec(es), e)
  {
    assert (es + [e])[..|es|] == es;
  }

  lemma TryTransport(s: System, e: Event)
    requires e.Try? && Possible(s, e)
    ensures Step(s, e).transport == Attempt(s.transport, e.request, s.phases[e.request].Retrying?, e.script).0
  {
  }

  /** An attempt of request `r` at the end of a run. */
  lemma TryLast(es: seq<Event>, r: nat, script: Script)
    requires IsRun(es) && Possible(Exec(es), Try(r, script))
    ensures IsRun(es + [Try(r, script)])
    ensures
      var s, t := Exec(es), Exec(es + [Try(r, script)]);
      var (after, verdict) := Attempt(s.transport, r, s.phases[r].Retrying?, script);
      && t.transport == after && |t.phases| == |s.phases|
      && t.phases[r] == match verdict case Done(result) => Settled(result) case Retry => Retrying
  {
    OneMore(es, Try(r, script));
  }

  /** In a run, what the two attempts of request `r` come to is what `BridgeTransport.Request` returns:
      between them others make their attempts, and a first attempt that is not retried settles it. */
  lemma RequestInRun(es: seq<Event>, r: nat, first: Script, between: seq<Event>, second: Script)
    requires IsRun(es) && r < |Exec(es).phases| && Exec(es).phases[r].Waiting? && Possible(Exec(es), Try(r, first))
    requires forall e | e in between :: e.Try?
    requires IsRun(es + [Try(r, first)] + between)
    requires Possible(Exec(es + [Try(r, first)] + between), Try(r, second))
    requires Exec(es + [Try(r, first)] + between).phases[r].Retrying?
    ensures
      var tried := es + [Try(r, first)];
      var once := Attempt(Exec(es).transport, r, false, first);
      var again := Attempt(Meanwhile(once.0, AsOthers(tried, between)), r, true, second);
      && Exec(tried).transport == once.0
      && (Exec(tried).phases[r] == if once.1.Done? then Settled(once.1.result) else Retrying)
      && again.1.Done? && Exec(tried + between + [Try(r, second)]).phases[r] == Settled(again.1.result)
  {
    var tried := es + [Try(r, first)];
    TryLast(es, r, first);
    OthersRun(tried, between);
    TryLast(tried + between, r, second);
    AttemptSlot(Exec(tried + between).transport, r, true, second);
  }

  // ---------------------------------------------------------------------------------------------
  // Termination
  // ---------------------------------------------------------------------------------------------

  function AttemptsLeft(phases: seq<Phase>): nat {
    if phases == [] then 0
    else
      var n := |phases| - 1;
      AttemptsLeft(phases[..n]) + (match phases[n] case Waiting => 2 case Retrying => 1 case Settled(_) => 0)
  }

  lemma {:induction false} AttemptsDrop(phases: seq<Phase>, r: nat, p: Phase)
    requires r < |phases| && ((phases[r].Waiting? && !p.Waiting?) || (phases[r].Retrying? && p.Settled?))
    ensures AttemptsLeft(phases[r := p]) < AttemptsLeft(phases)
  {
    var n := |phases| - 1;
    if r < n {
      AttemptsDrop(phases[..n], r, p);
      assert phases[r := p][..n] == phases[..n][r := p];
    } else {
      assert phases[r := p][..n] == phases[..n];
    }
  }

  /** Every attempt, whatever the environment does, brings the system closer to having all requests
      settled; an unsettled request can always be attempted. */
  lemma EveryAttemptProgresses(s: System, r: nat, script: Script)
    requires r < |s.phases| && !s.phases[r].Settled?
    ensures AttemptsLeft(Step(s, Try(r, script)).phases) < AttemptsLeft(s.phases)
  {
    var verdict := Attempt(s.transport, r, s.phases[r].Retrying?, script).1;
    AttemptSlot(s.transport, r, s.phases[r].Retrying?, script);
    AttemptsDrop(s.phases, r, match verdict case Done(result) => Settled(result) case Retry => Retrying);
  }
}

/** What the adapter gets to see through the debouncing session, compared with a router that
    forwards every line the moment it is read. */
module BridgeTransparency {
  import opened Protocol
  import opened Debounce
  import opened BridgeQueue
  import opened BridgeSession

  // ---------------------------------------------------------------------------------------------
  // What a reader of a stream of lines observes
  // ---------------------------------------------------------------------------------------------

  /** The router without a debouncer: it writes every line it reads, at once. */
  function ForwardAtOnce(read: seq<Timed>): (lines: seq<Message>)
    ensures |lines| == |read| && forall i | 0 <= i < |read| :: lines[i] == read[i].message
  {
    seq(|read|, i requires 0 <= i < |read| => read[i].message)
  }

  /** The text the reader holds for `u` after these lines. */
  function LastPush(lines: seq<Message>, u: Uri): Option<Message> {
    if lines == [] then None
    else
      var n := |lines| - 1;
      if lines[n].IsPushFor(u) then Some(lines[n]) else LastPush(lines[..n], u)
  }

  /** A check together with the push its reader held for that URI when the check arrived. */
  datatype Observation = Observation(check: Message, text: Option<Message>)

  function Observations(lines: seq<Message>): seq<Observation> {
    if lines == [] then []
    else
      var n := |lines| - 1;
      var before := Observations(lines[..n]);
      if lines[n].IsCheck() then
        before + [Observation(lines[n], LastPush(lines[..n], lines[n].payload.uri))]
      else before
  }

  function Pushes(lines: seq<Message>): seq<Message> {
    if lines == [] then []
    else
      var n := |lines| - 1;
      Pushes(lines[..n]) + (if lines[n].IsPush() then [lines[n]] else [])
  }

  function NonPushes(lines: seq<Message>): seq<Message> {
    if lines == [] then []
    else
      var n := |lines| - 1;
      NonPushes(lines[..n]) + (if lines[n].IsPush() then [] else [lines[n]])
  }

  lemma LineAppended(lines: seq<Message>, m: Message, u: Uri)
    ensures LastPush(lines + [m], u) == if m.IsPushFor(u) then Some(m) else LastPush(lines, u)
    ensures Observations(lines + [m]) == Observations(lines) +
                                         (if m.IsCheck() then [Observation(m, LastPush(lines, m.payload.uri))] else [])
    ensures Pushes(lines + [m]) == Pushes(lines) + (if m.IsPush() then [m] else [])
    ensures NonPushes(lines + [m]) == NonPushes(lines) + (if m.IsPush() then [] else [m])
  {
    assert (lines + [m])[..|lines|] == lines;
  }

  ghost predicate AllPushes(list: seq<Pending<Message>>) {
    forall i | 0 <= i < |list| :: list[i].item.IsPushFor(list[i].uri)
  }

  lemma ItemsSnoc(lines: seq<Message>, list: seq<Pending<Message>>)
    requires list != []
    ensures lines + Items(list) == lines + Items(list[..|list| - 1]) + [list[|list| - 1].item]
    ensures Items(list) == Items(list[..|list| - 1]) + [list[|list| - 1].item]
  {
  }

  lemma {:induction false} PushesAppended(lines: seq<Message>, list: seq<Pending<Message>>)
    requires AllPushes(list)
    ensures Observations(lines + Items(list)) == Observations(lines)
    ensures Pushes(lines + Items(list)) == Pushes(lines) + Items(list)
    ensures NonPushes(lines + Items(list)) == NonPushes(lines)
  {
    if list == [] {
      assert lines + Items(list) == lines;
    } else {
      var n := |list| - 1;
      PushesAppended(lines, list[..n]);
      ItemsSnoc(lines, list);
      var shorter, m := lines + Items(list[..n]), list[n].item;
      LineAppended(shorter, m, "");
      assert Pushes(lines) + Items(list[..n]) + [m] == Pushes(lines) + (Items(list[..n]) + [m]);
    }
  }

  /** Appending pushes of distinct URIs decides what the reader holds for exactly those URIs. */
  lemma {:induction false} LastOfBatch(lines: seq<Message>, list: seq<Pending<Message>>, u: Uri)
    requires AllPushes(list) && forall i, j | 0 <= i < j < |list| :: list[i].uri != list[j].uri
    ensures u !in Uris(list) ==> LastPush(lines + Items(list), u) == LastPush(lines, u)
    ensures forall i | 0 <= i < |list| && list[i].uri == u ::
              LastPush(lines + Items(list), u) == Some(list[i].item)
  {
    if list == [] {
      assert lines + Items(list) == lines;
    } else {
      var n := |list| - 1;
      var front := list[..n];
      LastOfBatch(lines, front, u);
      ItemsSnoc(lines, list);
      var shorter, m := lines + Items(front), list[n].item;
      LineAppended(shorter, m, u);
      if list[n].uri != u {
        assert forall i | 0 <= i < n :: front[i] == list[i];
        assert u in Uris(front) ==> u in Uris(list);
      }
    }
  }

  // ---------------------------------------------------------------------------------------------
  // One step of the session
  // ---------------------------------------------------------------------------------------------

  /** The newest push for `u` the session still vouches for: the waiting one, else the last written. */
  function Current(s: State, u: Uri): Option<Message> {
    if u in s.pending then Some(s.pending[u].item) else LastPush(s.written, u)
  }

  predicate ReadsPushFor(e: Event, u: Uri) {
    e.stimulus.Line? && e.stimulus.message.IsPushFor(u)
  }

  predicate ReadsCheck(e: Event) {
    e.stimulus.Line? && e.stimulus.message.IsCheck()
  }

  /** The guard under which the queue ignores a push: a strictly newer version is waiting. */
  predicate Rejects(s: State, e: Event, u: Uri) {
    ReadsPushFor(e, u) && u in s.pending && s.pending[u].version > e.stimulus.message.version
  }

  lemma DrainKeepsCurrent(s: State, list: seq<Pending<Message>>, u: Uri)
    requires WellFormed(s.pending)
    requires forall i | 0 <= i < |list| :: list[i].uri in s.pending && s.pending[list[i].uri] == list[i]
    requires forall i, j | 0 <= i < j < |list| :: list[i].uri != list[j].uri
    ensures var t := Take(s, list).(written := s.written + Items(list));
            WellFormed(t.pending) && Current(t, u) == Current(s, u)
  {
    LastOfBatch(s.written, list, u);
    if u in Uris(list) {
      var i :| 0 <= i < |list| && list[i].uri == u;
    }
  }

  lemma CurrentStep(s: State, e: Event, window: nat, u: Uri)
    requires s.status.Running? && WellFormed(s.pending) && Possible(s, e, window)
    requires !Step(s, e, window).status.Failed?
    ensures var t := Step(s, e, window);
            && WellFormed(t.pending)
            && Current(t, u) == if ReadsPushFor(e, u) && !Rejects(s, e, u) then Some(e.stimulus.message)
                                else Current(s, u)
  {
    match e.stimulus {
      case Line(m, at, sends) =>
        if m.IsPush() {
          CurrentAfterPush(s, m, at, u);
        } else if m.IsCheck() && m.payload.uri in s.pending {
          CurrentAfterFlush(s, m, u);
        } else {
          LineAppended(s.written, m, u);
        }
      case Tick(_, _) => DrainKeepsCurrent(s, e.order, u);
      case EndOfInput(_) => DrainKeepsCurrent(s, e.order, u);
      case _ =>
    }
  }

  lemma CurrentAfterPush(s: State, m: Message, at: nat, u: Uri)
    requires WellFormed(s.pending) && m.IsPush()
    ensures
      var t := s.(pending := Arrive(s.pending, EntryOf(m, at)));
      && WellFormed(t.pending)
      && Current(t, u) == if m.IsPushFor(u) && !(u in s.pending && s.pending[u].version > m.version) then Some(m)
                          else Current(s, u)
  {
  }

  lemma CurrentAfterFlush(s: State, m: Message, u: Uri)
    requires WellFormed(s.pending) && m.IsCheck() && m.payload.uri in s.pending
    ensures
      var p := s.pending[m.payload.uri];
      var t := Take(s, [p]).(written := s.written + [p.item, m]);
      WellFormed(t.pending) && Current(t, u) == Current(s, u)
  {
    var p := s.pending[m.payload.uri];
    DrainKeepsCurrent(s, [p], u);
    assert Items([p]) == [p.item];
    LineAppended(s.written + [p.item], m, u);
    assert s.written + [p.item, m] == s.written + [p.item] + [m];
  }

  lemma OneLineObserved(s: State, m: Message, sends: nat)
    requires s.status.Running?
    ensures var t := Forward(s, [m], sends);
            Observations(t.written) == Observations(s.written) +
              (if m.IsCheck() && !t.status.Failed? then [Observation(m, LastPush(s.written, m.payload.uri))] else [])
  {
    if sends == 0 {
      assert s.written + [m][..0] == s.written;
    } else {
      LineAppended(s.written, m, "");
    }
  }

  lemma FlushedCheckObserved(s: State, m: Message, sends: nat)
    requires s.status.Running? && WellFormed(s.pending) && m.IsCheck() && m.payload.uri in s.pending
    ensures var p := s.pending[m.payload.uri];
            var t := Forward(Take(s, [p]), [p.item, m], sends);
            Observations(t.written) == Observations(s.written) +
              (if t.status.Failed? then [] else [Observation(m, Some(p.item))])
  {
    var p := s.pending[m.payload.uri];
    LineAppended(s.written, p.item, m.payload.uri);
    var mid := s.written + [p.item];
    if sends == 0 {
      assert s.written + [p.item, m][..0] == s.written;
    } else if sends == 1 {
      assert s.written + [p.item, m][..1] == mid;
    } else {
      assert s.written + [p.item, m] == mid + [m];
      LineAppended(mid, m, "");
    }
  }

  /** A check that is written adds one observation, of the push the session vouches for. */
  lemma ObservationsStep(s: State, e: Event, window: nat)
    requires s.status.Running? && WellFormed(s.pending) && Possible(s, e, window)
    ensures var t := Step(s, e, window);
            Observations(t.written) == Observations(s.written) +
              (if ReadsCheck(e) && !t.status.Failed?
               then [Observation(e.stimulus.message, Current(s, e.stimulus.message.payload.uri))] else [])
  {
    match e.stimulus {
      case Line(m, at, sends) =>
        var r := s.(read := s.read + [Timed(m, at)]);
        if m.IsCheck() && m.payload.uri in s.pending {
          FlushedCheckObserved(r, m, sends);
        } else if !m.kind.DocumentPush? {
          OneLineObserved(r, m, sends);
        }
      case Tick(_, sends) => BatchObserved(s, e.order, sends);
      case EndOfInput(sends) => BatchObserved(s, e.order, sends);
      case _ =>
    }
  }

  /** What the router that forwards at once would observe. */
  lemma ReadObserved(s: State, e: Event, window: nat)
    requires s.status.Running?
    ensures var lines := ForwardAtOnce(s.read);
            Observations(ForwardAtOnce(Step(s, e, window).read)) == Observations(lines) +
              (if ReadsCheck(e) then [Observation(e.stimulus.message, LastPush(lines, e.stimulus.message.payload.uri))]
               else [])
  {
    if e.stimulus.Line? {
      ReadAppended(s, e.stimulus.message, e.stimulus.at);
      LineAppended(ForwardAtOnce(s.read), e.stimulus.message, "");
    }
  }

  lemma BatchObserved(s: State, list: seq<Pending<Message>>, sends: nat)
    requires WellFormed(s.pending)
    requires forall i | 0 <= i < |list| :: list[i].uri in s.pending && s.pending[list[i].uri] == list[i]
    ensures Observations(Forward(Take(s, list), Items(list), sends).written) == Observations(s.written)
  {
    if |list| <= sends {
      PushesAppended(s.written, list);
    } else {
      PushesAppended(s.written, list[..sends]);
      assert Items(list)[..sends] == Items(list[..sends]);
    }
  }

  // ---------------------------------------------------------------------------------------------
  // Whole runs: exactly when the adapter sees the latest text
  // ---------------------------------------------------------------------------------------------

  /** The last push read for `u` was ignored because a newer version was waiting at that moment. */
  ghost predicate StaleLast(es: seq<Event>, window: nat, u: Uri) {
    if es == [] then false
    else
      var n := |es| - 1;
      var s := Exec(es[..n], window);
      if s.status.Running? && ReadsPushFor(es[n], u) then Rejects(s, es[n], u)
      else StaleLast(es[..n], window, u)
  }

  lemma {:induction false} WellFormedRun(es: seq<Event>, window: nat)
    requires IsRun(es, window) && !Exec(es, window).status.Failed?
    ensures WellFormed(Exec(es, window).pending)
  {
    if es != [] {
      var n := |es| - 1;
      WellFormedRun(es[..n], window);
      var s := Exec(es[..n], window);
      if s.status.Running? {
        CurrentStep(s, es[n], window, "");
      }
    }
  }

  lemma ReadAppended(s: State, m: Message, at: nat)
    ensures ForwardAtOnce(s.read + [Timed(m, at)]) == ForwardAtOnce(s.read) + [m]
  {
  }

  /** The session vouches for the latest push read unless that push was ignored; an ignored one is
      answered for by a push of strictly greater version. */
  lemma {:induction false} CurrentIsLatest(es: seq<Event>, window: nat, u: Uri)
    requires IsRun(es, window) && !Exec(es, window).status.Failed?
    ensures
      var s := Exec(es, window);
      var latest := LastPush(ForwardAtOnce(s.read), u);
      && (!StaleLast(es, window, u) ==> Current(s, u) == latest)
      && (StaleLast(es, window, u) ==>
            Current(s, u).Some? && latest.Some? && Current(s, u).value.version > latest.value.version)
  {
    if es != [] {
      var n := |es| - 1;
      var s := Exec(es[..n], window);
      CurrentIsLatest(es[..n], window, u);
      if s.status.Running? {
        WellFormedRun(es[..n], window);
        CurrentStep(s, es[n], window, u);
        LatestStep(s, es[n], window, u);
      }
    }
  }

  /** Reading a line decides which push was read last. */
  lemma LatestStep(s: State, e: Event, window: nat, u: Uri)
    requires s.status.Running?
    ensures LastPush(ForwardAtOnce(Step(s, e, window).read), u)
         == if ReadsPushFor(e, u) then Some(e.stimulus.message) else LastPush(ForwardAtOnce(s.read), u)
  {
    if e.stimulus.Line? {
      var m := e.stimulus.message;
      ReadAppended(s, m, e.stimulus.at);
      LineAppended(ForwardAtOnce(s.read), m, u);
      assert Step(s, e, window).read == s.read + [Timed(m, e.stimulus.at)];
    }
  }

  /** The `k`-th event is a check for a URI whose last push had been ignored. */
  ghost predicate ChecksStale(es: seq<Event>, k: nat, window: nat)
    requires k < |es|
  {
    && Exec(es[..k], window).status.Running?
    && ReadsCheck(es[k])
    && StaleLast(es[..k], window, es[k].stimulus.message.payload.uri)
  }

  ghost predicate NeverChecksStale(es: seq<Event>, window: nat) {
    forall k: nat | k < |es| :: !ChecksStale(es, k, window)
  }

  lemma NeverChecksStaleSnoc(es: seq<Event>, window: nat)
    requires es != []
    ensures NeverChecksStale(es, window) <==>
            NeverChecksStale(es[..|es| - 1], window) && !ChecksStale(es, |es| - 1, window)
  {
    var front := es[..|es| - 1];
    forall k: nat | k < |front|
      ensures ChecksStale(front, k, window) == ChecksStale(es, k, window)
    {
      assert front[..k] == es[..k];
    }
  }

  /** Transparency, exactly: on every run that has not failed, the adapter observes at its checks
      precisely what it would observe if every push were forwarded at once, if and only if no check
      comes while the last push for its URI had been ignored in favour of a newer version. */
  lemma {:induction false} TransparentIff(es: seq<Event>, window: nat)
    requires IsRun(es, window) && !Exec(es, window).status.Failed?
    ensures
      var s := Exec(es, window);
      && |Observations(s.written)| == |Observations(ForwardAtOnce(s.read))|
      && (Observations(s.written) == Observations(ForwardAtOnce(s.read)) <==> NeverChecksStale(es, window))
  {
    if es != [] {
      var front, e := es[..|es| - 1], es[|es| - 1];
      TransparentIff(front, window);
      NeverChecksStaleSnoc(es, window);
      var s, t := Exec(front, window), Exec(es, window);
      assert t == Step(s, e, window);
      if s.status.Running? {
        ObservedAfter(front, e, window);
      } else {
        assert t == s;
      }
    }
  }

  /** One more event adds the same number of observations on both sides, and differing ones exactly
      when it is a check on an ignored push. */
  lemma ObservedAfter(es: seq<Event>, e: Event, window: nat)
    requires IsRun(es, window) && Exec(es, window).status.Running?
    requires Possible(Exec(es, window), e, window) && !Step(Exec(es, window), e, window).status.Failed?
    requires |Observations(Exec(es, window).written)| == |Observations(ForwardAtOnce(Exec(es, window).read))|
    ensures
      var s, t := Exec(es, window), Step(Exec(es, window), e, window);
      && |Observations(t.written)| == |Observations(ForwardAtOnce(t.read))|
      && (Observations(t.written) == Observations(ForwardAtOnce(t.read)) <==>
            && Observations(s.written) == Observations(ForwardAtOnce(s.read))
            && !(ReadsCheck(e) && StaleLast(es, window, e.stimulus.message.payload.uri)))
  {
    var s := Exec(es, window);
    WellFormedRun(es, window);
    ObservationsStep(s, e, window);
    ReadObserved(s, e, window);
    if ReadsCheck(e) {
      var u := e.stimulus.message.payload.uri;
      CurrentIsLatest(es, window, u);
      SnocEqual(Observations(s.written), Observation(e.stimulus.message, Current(s, u)),
                Observations(ForwardAtOnce(s.read)),
                Observation(e.stimulus.message, LastPush(ForwardAtOnce(s.read), u)));
    }
  }

  lemma SnocEqual<A>(xs: seq<A>, x: A, ys: seq<A>, y: A)
    requires |xs| == |ys|
    ensures xs + [x] == ys + [y] <==> xs == ys && x == y
  {
    if xs + [x] == ys + [y] {
      assert xs == (xs + [x])[..|xs|] == (ys + [y])[..|ys|] == ys;
      assert (xs + [x])[|xs|] == (ys + [y])[|ys|];
    }
  }

  /** The same at the end of input: the text left with the adapter is the last one read. */
  lemma FinalTextIff(es: seq<Event>, s: State, window: nat, u: Uri)
    requires IsRun(es, window) && s == Exec(es, window) && s.status.Closed?
    ensures LastPush(s.written, u) == LastPush(ForwardAtOnce(s.read), u) <==> !StaleLast(es, window, u)
  {
    CurrentIsLatest(es, window, u);
    ClosedIsEmpty(es, window);
  }

  lemma {:induction false} ClosedIsEmpty(es: seq<Event>, window: nat)
    requires IsRun(es, window) && Exec(es, window).status.Closed?
    ensures Exec(es, window).pending == map[]
  {
    if es != [] {
      var n := |es| - 1;
      var s := Exec(es[..n], window);
      if s.status.Closed? {
        ClosedIsEmpty(es[..n], window);
      } else if es[n].stimulus.EndOfInput? {
        ListsUris(es[n].order, s.pending);
        assert s.pending - s.pending.Keys == map[];
      }
    }
  }

  // ---------------------------------------------------------------------------------------------
  // Editors whose versions never go down
  // ---------------------------------------------------------------------------------------------

  ghost predicate VersionsAscend(read: seq<Timed>) {
    forall i, j, u: Uri | 0 <= i < j < |read| && read[i].message.IsPushFor(u) && read[j].message.IsPushFor(u) ::
      read[i].message.version <= read[j].message.version
  }

  /** An entry appears in the queue only when its push is read, stamped with the time of reading. */
  lemma PendingStep(s: State, e: Event, window: nat, u: Uri)
    requires u in Step(s, e, window).pending
    ensures
      var t := Step(s, e, window);
      || (u in s.pending && t.pending[u] == s.pending[u] && s.read <= t.read)
      || (ReadsPushFor(e, u) && t.pending[u] == EntryOf(e.stimulus.message, e.stimulus.at)
          && t.read == s.read + [Timed(e.stimulus.message, e.stimulus.at)])
  {
  }

  /** Whatever waits was read, and has waited since it was read. */
  lemma {:induction false} PendingWasRead(es: seq<Event>, window: nat, u: Uri) returns (i: nat)
    requires u in Exec(es, window).pending
    ensures
      var s := Exec(es, window);
      && i < |s.read| && s.read[i].message.IsPushFor(u)
      && s.pending[u] == EntryOf(s.read[i].message, s.read[i].at)
  {
    var n := |es| - 1;
    var s, t := Exec(es[..n], window), Exec(es, window);
    PendingStep(s, es[n], window, u);
    if u in s.pending && t.pending[u] == s.pending[u] && s.read <= t.read {
      i := PendingWasRead(es[..n], window, u);
      assert t.read[i] == s.read[i];
    } else {
      i := |s.read|;
    }
  }

  /** A tick takes out exactly what has waited for the window or longer. */
  lemma TickTakesDue(es: seq<Event>, r: State, s: State, now: nat, sends: nat, window: nat, u: Uri)
    requires es != [] && IsRun(es, window) && r == Exec(es[..|es| - 1], window) && s == Exec(es, window)
    requires r.status.Running? && es[|es| - 1].stimulus == Tick(now, sends)
    ensures u in s.pending <==> u in r.pending && window > 0 && now < r.pending[u].queuedAt + window
    ensures u in s.pending ==> s.pending[u] == r.pending[u]
  {
    ListsUris(es[|es| - 1].order, DuePart(r.pending, now, window));
    YoungRemain(r.pending, now, window, u);
  }

  /** Right after a tick whatever waits was read less than the window ago. */
  lemma TickLeavesYoung(es: seq<Event>, s: State, now: nat, sends: nat, window: nat, u: Uri) returns (i: nat)
    requires es != [] && IsRun(es, window) && s == Exec(es, window) && Exec(es[..|es| - 1], window).status.Running?
    requires es[|es| - 1].stimulus == Tick(now, sends) && u in s.pending
    ensures i < |s.read| && s.read[i].message.IsPushFor(u) && s.pending[u] == EntryOf(s.read[i].message, s.read[i].at)
    ensures now < s.read[i].at + window
  {
    TickTakesDue(es, Exec(es[..|es| - 1], window), s, now, sends, window, u);
    i := PendingWasRead(es, window, u);
  }

  lemma ReadGrows(es: seq<Event>, k: nat, window: nat)
    requires k <= |es|
    ensures Exec(es[..k], window).read <= Exec(es, window).read
  {
    if k < |es| {
      var n := |es| - 1;
      ReadGrows(es[..n], k, window);
      assert es[..n][..k] == es[..k];
    } else {
      assert es[..k] == es;
    }
  }

  lemma {:induction false} AscendingNeverStale(es: seq<Event>, window: nat, u: Uri)
    requires IsRun(es, window) && VersionsAscend(Exec(es, window).read)
    requires !Exec(es, window).status.Failed?
    ensures !StaleLast(es, window, u)
  {
    if es != [] {
      var n := |es| - 1;
      ReadGrows(es, n, window);
      var s, t := Exec(es[..n], window), Exec(es, window);
      if s.status.Running? && ReadsPushFor(es[n], u) {
        if u in s.pending {
          var i := PendingWasRead(es[..n], window, u);
          assert t.read[i].message.IsPushFor(u) && t.read[|s.read|].message.IsPushFor(u);
        }
      } else {
        AscendingNeverStale(es[..n], window, u);
      }
    }
  }

  lemma AscendingObserved(es: seq<Event>, window: nat)
    requires IsRun(es, window) && VersionsAscend(Exec(es, window).read) && !Exec(es, window).status.Failed?
    ensures Observations(Exec(es, window).written) == Observations(ForwardAtOnce(Exec(es, window).read))
  {
    TransparentIff(es, window);
    forall k: nat | k < |es|
      ensures !ChecksStale(es, k, window)
    {
      if ChecksStale(es, k, window) {
        RunPrefix(es, k, window);
        ReadGrows(es, k, window);
        AscendingNeverStale(es[..k], window, es[k].stimulus.message.payload.uri);
      }
    }
  }

  lemma FailingStepObserves(s: State, e: Event, window: nat)
    requires s.status.Running? && WellFormed(s.pending) && Possible(s, e, window)
    requires Step(s, e, window).status.Failed?
    requires Observations(s.written) == Observations(ForwardAtOnce(s.read))
    ensures var t := Step(s, e, window); Observations(t.written) <= Observations(ForwardAtOnce(t.read))
  {
    ObservationsStep(s, e, window);
    ReadObserved(s, e, window);
  }

  lemma {:induction false} ObservesPrefix(es: seq<Event>, window: nat)
    requires IsRun(es, window) && VersionsAscend(Exec(es, window).read)
    ensures Observations(Exec(es, window).written) <= Observations(ForwardAtOnce(Exec(es, window).read))
  {
    var t := Exec(es, window);
    if !t.status.Failed? {
      AscendingObserved(es, window);
    } else {
      var front, e := es[..|es| - 1], es[|es| - 1];
      ReadGrows(es, |es| - 1, window);
      var s := Exec(front, window);
      assert t == Step(s, e, window);
      if s.status.Running? {
        AscendingObserved(front, window);
        WellFormedRun(front, window);
        FailingStepObserves(s, e, window);
      } else {
        ObservesPrefix(front, window);
        StoppedStays(s, e, window);
      }
    }
  }

  lemma StoppedStays(s: State, e: Event, window: nat)
    requires !s.status.Running?
    ensures Step(s, e, window) == s
  {
  }

  /** The debounced session refines the router that forwards at once: with ascending versions the
      adapter's observations are the same, at the end of input it holds the same texts, and on a
      failed session its observations are a prefix. */
  lemma RefinesForwardAtOnce(es: seq<Event>, window: nat)
    requires IsRun(es, window) && VersionsAscend(Exec(es, window).read)
    ensures
      var s := Exec(es, window);
      && Observations(s.written) <= Observations(ForwardAtOnce(s.read))
      && (!s.status.Failed? ==> Observations(s.written) == Observations(ForwardAtOnce(s.read)))
      && (s.status.Closed? ==> forall u :: LastPush(s.written, u) == LastPush(ForwardAtOnce(s.read), u))
  {
    var s := Exec(es, window);
    ObservesPrefix(es, window);
    if !s.status.Failed? {
      AscendingObserved(es, window);
    }
    if s.status.Closed? {
      forall u
        ensures LastPush(s.written, u) == LastPush(ForwardAtOnce(s.read), u)
      {
        FinalTextIff(es, s, window, u);
        AscendingNeverStale(es, window, u);
      }
    }
  }

  /** Without ascending versions transparency fails: version 2, then version 1 of the same document
      within one window, then a check.  The adapter checks version 2, not the text read last. */
  lemma StaleExample()
    ensures exists es: seq<Event> ::
      && IsRun(es, 300) && Exec(es, 300).status.Running?
      && Observations(Exec(es, 300).written) != Observations(ForwardAtOnce(Exec(es, 300).read))
  {
    var u := "file:///a.thy";
    var newer := Message("msg-0001", DocumentPush, "s1", 2, PushBody(u, "newer"));
    var older := Message("msg-0002", DocumentPush, "s1", 1, PushBody(u, "older"));
    var check := Message("msg-0003", DocumentCheck, "s1", 1, CheckBody(u, 1));
    CheckAfterStale(u, newer, older, check);
  }

  lemma CheckAfterStale(u: Uri, newer: Message, older: Message, check: Message)
    requires newer.IsPushFor(u) && older.IsPushFor(u) && newer.version > older.version
    requires check.IsCheck() && check.payload.uri == u
    ensures exists es: seq<Event> ::
      && IsRun(es, 300) && Exec(es, 300).status.Running?
      && Observations(Exec(es, 300).written) != Observations(ForwardAtOnce(Exec(es, 300).read))
  {
    var e0, e1, e2 := Event(Line(newer, 0, 9), []), Event(Line(older, 1, 9), []), Event(Line(check, 2, 9), []);
    StaleAfterTwo(u, e0, e1);
    StaleCheckDiffers([e0] + [e1], e2, 300);
  }

  /** A check of a document whose last push was ignored shows the adapter something else. */
  lemma StaleCheckDiffers(es: seq<Event>, e: Event, window: nat)
    requires IsRun(es, window) && Exec(es, window).status.Running?
    requires ReadsCheck(e) && e.stimulus.sends >= 2 && StaleLast(es, window, e.stimulus.message.payload.uri)
    ensures
      var all := es + [e];
      && IsRun(all, window) && Exec(all, window).status.Running?
      && Observations(Exec(all, window).written) != Observations(ForwardAtOnce(Exec(all, window).read))
  {
    var all := es + [e];
    ExecAppend(es, e, window);
    assert all[..|es|] == es;
    assert ChecksStale(all, |es|, window);
    CheckKeepsRunning(Exec(es, window), e, window);
    TransparentIff(all, window);
  }

  lemma CheckKeepsRunning(s: State, e: Event, window: nat)
    requires s.status.Running? && ReadsCheck(e) && e.stimulus.sends >= 2
    ensures Step(s, e, window).status.Running?
  {
  }

  lemma StaleAfterTwo(u: Uri, e0: Event, e1: Event)
    requires ReadsPushFor(e0, u) && ReadsPushFor(e1, u) && e0.stimulus.message.version > e1.stimulus.message.version
    ensures
      var es := [e0] + [e1];
      IsRun(es, 300) && Exec(es, 300).status.Running? && StaleLast(es, 300, u)
  {
    ExecAppend([], e0, 300);
    assert [] + [e0] == [e0];
    ExecAppend([e0], e1, 300);
    assert Rejects(Exec([e0], 300), e1, u);
    assert ([e0] + [e1])[..1] == [e0];
  }

  // ---------------------------------------------------------------------------------------------
  // Conservation
  // ---------------------------------------------------------------------------------------------

  function Arrivals(read: seq<Timed>): seq<Pending<Message>> {
    if read == [] then []
    else
      var n := |read| - 1;
      Arrivals(read[..n]) + (if read[n].message.IsPush() then [EntryOf(read[n].message, read[n].at)] else [])
  }

  lemma ArrivalsAppend(read: seq<Timed>, t: Timed)
    ensures Arrivals(read + [t]) ==
            Arrivals(read) + (if t.message.IsPush() then [EntryOf(t.message, t.at)] else [])
  {
    assert (read + [t])[..|read|] == read;
  }

  /** The moves of a run: what each event added to the pushes read and to the entries drained. */
  function LogOf(es: seq<Event>, window: nat): Log<Message> {
    if es == [] then []
    else
      var n := |es| - 1;
      LogOf(es[..n], window) + Added(Exec(es[..n], window), Exec(es, window))
  }

  function Added(s: State, t: State): Log<Message> {
    Moves(Arrivals(s.read), s.drained, Arrivals(t.read), t.drained)
  }

  ghost predicate Accounted(log: Log<Message>, s: State) {
    Recorded(log, s.pending, Arrivals(s.read), s.drained)
  }

  /** The lines written are the entries drained and the other lines read; a failed session has written
      a prefix of that. */
  ghost predicate Balanced(s: State) {
    && Pushes(s.written) <= Items(s.drained)
    && NonPushes(s.written) <= NonPushes(ForwardAtOnce(s.read))
    && (!s.status.Failed? ==> Pushes(s.written) == Items(s.drained)
                              && NonPushes(s.written) == NonPushes(ForwardAtOnce(s.read)))
  }

  // The queue and its log

  lemma BatchLogged(log: Log<Message>, s: State, t: State, list: seq<Pending<Message>>)
    requires Accounted(log, s) && t.pending == s.pending - Uris(list) && t.drained == s.drained + list
    requires Arrivals(t.read) == Arrivals(s.read)
    requires forall i | 0 <= i < |list| :: list[i].uri in s.pending && s.pending[list[i].uri] == list[i]
    requires forall i, j | 0 <= i < j < |list| :: list[i].uri != list[j].uri
    ensures Accounted(log + Added(s, t), t) && Added(s, t) == OutMoves(list)
  {
    RecordedTakeAll(log, s.pending, Arrivals(s.read), s.drained, list);
    MovesAre(Arrivals(s.read), s.drained, [], list);
    assert Arrivals(s.read) + [] == Arrivals(s.read) && InMoves([]) + OutMoves(list) == OutMoves(list);
  }

  lemma PushLogged(log: Log<Message>, s: State, t: State, p: Pending<Message>)
    requires Accounted(log, s) && t.pending == Arrive(s.pending, p) && t.drained == s.drained
    requires Arrivals(t.read) == Arrivals(s.read) + [p]
    ensures Accounted(log + Added(s, t), t) && Added(s, t) == [In(p)]
  {
    RecordedArrive(log, s.pending, Arrivals(s.read), s.drained, p);
    MovesAre(Arrivals(s.read), s.drained, [p], []);
    assert s.drained + [] == s.drained && InMoves([p]) + OutMoves([]) == [In(p)];
  }

  lemma QuietLogged(log: Log<Message>, s: State, t: State)
    requires Accounted(log, s) && t.pending == s.pending && t.drained == s.drained
    requires Arrivals(t.read) == Arrivals(s.read)
    ensures Accounted(log + Added(s, t), t) && log + Added(s, t) == log
  {
    MovesAre(Arrivals(s.read), s.drained, [], []);
    assert s.drained + [] == s.drained && Arrivals(s.read) + [] == Arrivals(s.read);
    assert log + (InMoves([]) + OutMoves([])) == log;
  }

  /** What a step does to the epoch of `u`: reading a push for `u` extends it, and it ends exactly when
      the entry of `u` leaves. */
  ghost predicate EpochMoves(log: Log<Message>, s: State, e: Event, t: State, log': Log<Message>, u: Uri) {
    var past, epoch := PastEpochs(log, u), Epoch(log, u);
    if u in s.pending && u !in t.pending then PastEpochs(log', u) == past + [epoch] && Epoch(log', u) == []
    else
      && PastEpochs(log', u) == past
      && Epoch(log', u) == if s.status.Running? && ReadsPushFor(e, u)
                           then epoch + [EntryOf(e.stimulus.message, e.stimulus.at)] else epoch
  }

  lemma StepLogged(log: Log<Message>, s: State, e: Event, t: State, window: nat, u: Uri)
    requires Accounted(log, s) && Possible(s, e, window) && t == Step(s, e, window)
    ensures Accounted(log + Added(s, t), t) && EpochMoves(log, s, e, t, log + Added(s, t), u)
  {
    if !s.status.Running? {
      QuietLogged(log, s, t);
    } else {
      match e.stimulus {
        case Line(m, at, _) =>
          ArrivalsAppend(s.read, Timed(m, at));
          LineLogged(log, s, e, t, window, u);
        case Tick(_, _) =>
          BatchLogged(log, s, t, e.order);
          EpochsTaken(log, e.order, u);
        case EndOfInput(_) =>
          BatchLogged(log, s, t, e.order);
          EpochsTaken(log, e.order, u);
        case _ => QuietLogged(log, s, t);
      }
    }
  }

  lemma LineLogged(log: Log<Message>, s: State, e: Event, t: State, window: nat, u: Uri)
    requires Accounted(log, s) && s.status.Running? && e.stimulus.Line? && t == Step(s, e, window)
    requires
      var m, at := e.stimulus.message, e.stimulus.at;
      Arrivals(s.read + [Timed(m, at)]) == if m.IsPush() then Arrivals(s.read) + [EntryOf(m, at)] else Arrivals(s.read)
    ensures Accounted(log + Added(s, t), t) && EpochMoves(log, s, e, t, log + Added(s, t), u)
  {
    var m := e.stimulus.message;
    if m.IsPush() {
      PushLogged(log, s, t, EntryOf(m, e.stimulus.at));
      MoveAppended(log, In(EntryOf(m, e.stimulus.at)), u);
    } else if m.IsCheck() && m.payload.uri in s.pending {
      var p := s.pending[m.payload.uri];
      EpochWinner(log, m.payload.uri);
      BatchLogged(log, s, t, [p]);
      EpochsTaken(log, [p], u);
      assert [p][0].uri in Uris([p]);
    } else {
      QuietLogged(log, s, t);
    }
  }

  /** On every run the log of the run accounts for the queue: what waits is what its moves leave. */
  lemma {:induction false} RunLogged(es: seq<Event>, window: nat)
    requires IsRun(es, window)
    ensures Accounted(LogOf(es, window), Exec(es, window))
  {
    if es != [] {
      var n := |es| - 1;
      RunLogged(es[..n], window);
      StepLogged(LogOf(es[..n], window), Exec(es[..n], window), es[n], Exec(es, window), window, "");
    }
  }

  /** The common specification, on every run: what waits for `u` is the latest-arrived among the
      pushes of greatest version read since its entry last left the queue, with the time that push was
      read; and every earlier such epoch left as exactly its winner. */
  lemma WaitingIsWinner(es: seq<Event>, window: nat, u: Uri)
    requires IsRun(es, window)
    ensures
      var s, log := Exec(es, window), LogOf(es, window);
      && (u in s.pending <==> Epoch(log, u) != [])
      && (u in s.pending ==> Wins(Epoch(log, u), s.pending[u]))
      && Divides(PastEpochs(log, u), Epoch(log, u), Of(Arrivals(s.read), u), Of(s.drained, u))
  {
    RunLogged(es, window);
    EpochWinner(LogOf(es, window), u);
    EpochsExplain(LogOf(es, window), u);
  }

  /** The epochs of a run, event by event. */
  lemma EpochStep(es: seq<Event>, window: nat, u: Uri)
    requires es != [] && IsRun(es, window)
    ensures
      var front := es[..|es| - 1];
      EpochMoves(LogOf(front, window), Exec(front, window), es[|es| - 1], Exec(es, window), LogOf(es, window), u)
  {
    var n := |es| - 1;
    RunLogged(es[..n], window);
    StepLogged(LogOf(es[..n], window), Exec(es[..n], window), es[n], Exec(es, window), window, u);
  }

  // What one push becomes

  lemma {:induction false} LogPrefix(es: seq<Event>, k: nat, window: nat)
    requires k <= |es|
    ensures LogOf(es[..k], window) <= LogOf(es, window)
  {
    if k < |es| {
      var front := es[..|es| - 1];
      LogPrefix(front, k, window);
      assert front[..k] == es[..k];
    } else {
      assert es[..k] == es;
    }
  }

  /** The log right after event `k` has read the push `m`. */
  lemma PushMove(es: seq<Event>, k: nat, window: nat)
    requires IsRun(es, window) && k < |es| && Exec(es[..k], window).status.Running?
    requires es[k].stimulus.Line? && es[k].stimulus.message.IsPush()
    ensures
      var p := EntryOf(es[k].stimulus.message, es[k].stimulus.at);
      LogOf(es[..k + 1], window) == LogOf(es[..k], window) + [In(p)]
  {
    var s := Exec(es[..k], window);
    var m, at := es[k].stimulus.message, es[k].stimulus.at;
    assert es[..k + 1][..k] == es[..k];
    RunPrefix(es, k, window);
    RunLogged(es[..k], window);
    ArrivalsAppend(s.read, Timed(m, at));
    PushLogged(LogOf(es[..k], window), s, Exec(es[..k + 1], window), EntryOf(m, at));
  }

  /** No push read is lost: the first entry of its URI to leave after it was read, at position `d` of
      what was drained, is of at least its version; if none has left, one waits that is. */
  lemma PushAnswered(es: seq<Event>, k: nat, window: nat, u: Uri) returns (d: nat)
    requires IsRun(es, window) && k < |es| && Exec(es[..k], window).status.Running? && ReadsPushFor(es[k], u)
    ensures
      var before, s, v := |Exec(es[..k + 1], window).drained|, Exec(es, window), es[k].stimulus.message.version;
      && FirstFrom(s.drained, before, d, u)
      && if d < |s.drained| then s.drained[d].version >= v else u in s.pending && s.pending[u].version >= v
  {
    var log, front := LogOf(es, window), LogOf(es[..k], window);
    PushMove(es, k, window);
    LogPrefix(es, k + 1, window);
    LastOfPrefix(log, front, In(EntryOf(es[k].stimulus.message, es[k].stimulus.at)));
    RunPrefix(es, k + 1, window);
    RunLogged(es[..k + 1], window);
    RunLogged(es, window);
    d := LetOutLater(log, |front|);
  }

  // What is written

  lemma BatchStep(s: State, list: seq<Pending<Message>>, sends: nat)
    requires s.status.Running? && WellFormed(s.pending) && Balanced(s)
    requires forall i | 0 <= i < |list| :: list[i].uri in s.pending && s.pending[list[i].uri] == list[i]
    requires forall i, j | 0 <= i < j < |list| :: list[i].uri != list[j].uri
    ensures Balanced(Forward(Take(s, list), Items(list), sends))
  {
    BatchLedger(s, list, if |list| <= sends then |list| else sends);
  }

  lemma PushStep(s: State, m: Message, at: nat)
    requires s.status.Running? && WellFormed(s.pending) && Balanced(s) && m.IsPush()
    ensures Balanced(s.(read := s.read + [Timed(m, at)], pending := Arrive(s.pending, EntryOf(m, at))))
  {
    ReadAppended(s, m, at);
    LineAppended(ForwardAtOnce(s.read), m, "");
  }

  /** A line that is neither a push nor flushes one. */
  lemma PlainStep(s: State, m: Message, at: nat, sends: nat)
    requires s.status.Running? && Balanced(s) && !m.IsPush()
    ensures Balanced(Forward(s.(read := s.read + [Timed(m, at)]), [m], sends))
    ensures Balanced(s.(read := s.read + [Timed(m, at)], status := Failed))
  {
    ReadAppended(s, m, at);
    LineAppended(ForwardAtOnce(s.read), m, "");
    LineAppended(s.written, m, "");
    assert s.written + [m][..0] == s.written;
  }

  lemma LineStep(s: State, m: Message, at: nat, sends: nat)
    requires s.status.Running? && WellFormed(s.pending) && Balanced(s)
    ensures Balanced(Route(s.(read := s.read + [Timed(m, at)]), m, at, sends))
  {
    if m.IsPush() {
      PushStep(s, m, at);
    } else if m.IsCheck() && m.payload.uri in s.pending {
      FlushedCheckStep(s, m, at, sends);
    } else {
      PlainStep(s, m, at, sends);
    }
  }

  lemma FlushedCheckStep(s: State, m: Message, at: nat, sends: nat)
    requires s.status.Running? && WellFormed(s.pending) && Balanced(s)
    requires m.IsCheck() && m.payload.uri in s.pending
    ensures
      var p := s.pending[m.payload.uri];
      Balanced(Forward(Take(s.(read := s.read + [Timed(m, at)]), [p]), [p.item, m], sends))
  {
    CheckStep(s, m, sends);
    ReadAppended(s, m, at);
    LineAppended(ForwardAtOnce(s.read), m, "");
  }

  lemma CheckStep(s: State, m: Message, sends: nat)
    requires s.status.Running? && WellFormed(s.pending) && Balanced(s)
    requires m.IsCheck() && m.payload.uri in s.pending
    ensures
      var p := s.pending[m.payload.uri];
      var t := Forward(Take(s, [p]), [p.item, m], sends);
      && Pushes(t.written) <= Items(t.drained)
      && NonPushes(t.written) <= NonPushes(s.written) + [m]
      && (!t.status.Failed? ==>
            Pushes(t.written) == Items(t.drained) && NonPushes(t.written) == NonPushes(s.written) + [m])
  {
    var p := s.pending[m.payload.uri];
    var k := if sends == 0 then 0 else 1;
    var b := Forward(Take(s, [p]), Items([p]), k);
    var t := Forward(Take(s, [p]), [p.item, m], sends);
    BatchStep(s, [p], k);
    CheckWritten(s, p, m, sends, k);
    if sends >= 2 {
      LineAppended(b.written, m, "");
    }
    BatchLedger(s, [p], k);
  }

  /** A flushed check writes its push first, and the check only after it. */
  lemma CheckWritten(s: State, p: Pending<Message>, m: Message, sends: nat, k: nat)
    requires k == if sends == 0 then 0 else 1
    ensures
      var b := Forward(Take(s, [p]), Items([p]), k);
      var t := Forward(Take(s, [p]), [p.item, m], sends);
      && t.written == (if sends >= 2 then b.written + [m] else b.written)
      && t.pending == b.pending && t.drained == b.drained
  {
    assert Items([p]) == [p.item] && [p.item, m][..0] == [p.item][..0] && [p.item, m][..1] == [p.item];
  }

  lemma BatchLedger(s: State, list: seq<Pending<Message>>, k: nat)
    requires WellFormed(s.pending) && Pushes(s.written) == Items(s.drained) && k <= |list|
    requires forall i | 0 <= i < |list| :: list[i].uri in s.pending && s.pending[list[i].uri] == list[i]
    ensures Pushes(s.written + Items(list)[..k]) == Items(s.drained + list)[..|s.drained| + k]
    ensures NonPushes(s.written + Items(list)[..k]) == NonPushes(s.written)
    ensures Items(list)[..|list|] == Items(list)
    ensures Items(s.drained + list)[..|s.drained| + |list|] == Items(s.drained + list)
  {
    PushesAppended(s.written, list[..k]);
    assert Items(list)[..k] == Items(list[..k]);
  }

  lemma BalancedStep(s: State, e: Event, window: nat)
    requires s.status.Running? && WellFormed(s.pending) && Balanced(s) && Possible(s, e, window)
    ensures Balanced(Step(s, e, window))
  {
    match e.stimulus {
      case Line(m, at, sends) => LineStep(s, m, at, sends);
      case Tick(_, sends) => BatchStep(s, e.order, sends);
      case EndOfInput(sends) => BatchStep(s, e.order, sends);
      case _ =>
    }
  }

  // ---------------------------------------------------------------------------------------------
  // The other direction, and how a session ends
  // ---------------------------------------------------------------------------------------------

  /** The adapter's lines that met a running session, in order. */
  function AdapterLines(es: seq<Event>, window: nat): seq<string> {
    if es == [] then []
    else
      var n := |es| - 1;
      var before := AdapterLines(es[..n], window);
      if Exec(es[..n], window).status.Running? && es[n].stimulus.AdapterLine? then before + [es[n].stimulus.line]
      else before
  }

  /** Those of them that the editor's side took. */
  function DeliveredLines(es: seq<Event>, window: nat): seq<string> {
    if es == [] then []
    else
      var n := |es| - 1;
      var before := DeliveredLines(es[..n], window);
      if Exec(es[..n], window).status.Running? && es[n].stimulus.AdapterLine? && es[n].stimulus.delivered
      then before + [es[n].stimulus.line] else before
  }

  /** The editor gets exactly the adapter's lines that it takes, each once and in order; unless the
      session has failed those are all lines that met it running, and if it has, all but at most the
      one that could not be delivered. */
  lemma {:induction false} RepliesForwarded(es: seq<Event>, window: nat)
    ensures Exec(es, window).replies == DeliveredLines(es, window)
    ensures !Exec(es, window).status.Failed? ==> DeliveredLines(es, window) == AdapterLines(es, window)
    ensures DeliveredLines(es, window) <= AdapterLines(es, window)
    ensures |AdapterLines(es, window)| <= |DeliveredLines(es, window)| + 1
  {
    if es != [] {
      var n := |es| - 1;
      RepliesForwarded(es[..n], window);
      RepliesStep(Exec(es[..n], window), es[n], window);
    }
  }

  lemma RepliesStep(s: State, e: Event, window: nat)
    ensures
      var t := Step(s, e, window);
      && t.replies == (if s.status.Running? && e.stimulus.AdapterLine? && e.stimulus.delivered
                       then s.replies + [e.stimulus.line] else s.replies)
      && (s.status.Running? && e.stimulus.AdapterLine? && !e.stimulus.delivered ==> t.status.Failed?)
      && (!s.status.Running? ==> t.status == s.status)
  {
  }

  /** How many lines an event has the session write. */
  function Owed(s: State, e: Event): nat {
    match e.stimulus
    case Line(m, _, _) =>
      if m.kind.DocumentPush? then 0 else if m.IsCheck() && m.payload.uri in s.pending then 2 else 1
    case Tick(_, _) => |e.order|
    case EndOfInput(_) => |e.order|
    case _ => 0
  }

  /** How many lines the adapter takes before a write fails. */
  function Writable(e: Event): nat {
    match e.stimulus
    case Line(_, _, sends) => sends
    case Tick(_, sends) => sends
    case EndOfInput(sends) => sends
    case _ => 0
  }

  /** What makes a running session fail: a push whose payload does not decode, a read error, an
      adapter line the editor does not take, or a write the adapter does not take. */
  predicate Fault(s: State, e: Event) {
    || (e.stimulus.Line? && e.stimulus.message.kind.DocumentPush? && !e.stimulus.message.payload.PushBody?)
    || e.stimulus.ReadError?
    || (e.stimulus.AdapterLine? && !e.stimulus.delivered)
    || Owed(s, e) > Writable(e)
  }

  /** The event that ends a session, if any. */
  predicate EndsAt(es: seq<Event>, k: nat, window: nat) {
    && k < |es| && Exec(es[..k], window).status.Running?
    && (Fault(Exec(es[..k], window), es[k]) || es[k].stimulus.EndOfInput? || es[k].stimulus.AdapterClosed?)
  }

  lemma StatusStep(s: State, e: Event, window: nat)
    requires s.status.Running?
    ensures
      Step(s, e, window).status
      == if Fault(s, e) then Failed else if e.stimulus.EndOfInput? then Closed
         else if e.stimulus.AdapterClosed? then AdapterGone else Running
  {
  }

  /** What the ending event makes of the session, then and for good. */
  lemma {:induction false} EndedBy(es: seq<Event>, k: nat, window: nat)
    requires EndsAt(es, k, window)
    ensures
      Exec(es, window).status
      == if Fault(Exec(es[..k], window), es[k]) then Failed
         else if es[k].stimulus.EndOfInput? then Closed else AdapterGone
  {
    var n := |es| - 1;
    var front := es[..n];
    if k == n {
      StatusStep(Exec(front, window), es[n], window);
    } else {
      assert front[..k] == es[..k];
      EndedBy(front, k, window);
      StoppedStays(Exec(front, window), es[n], window);
    }
  }

  lemma {:induction false} EndingEvent(es: seq<Event>, window: nat) returns (k: nat)
    requires !Exec(es, window).status.Running?
    ensures EndsAt(es, k, window)
  {
    var n := |es| - 1;
    var front := es[..n];
    if Exec(front, window).status.Running? {
      k := n;
      StatusStep(Exec(front, window), es[n], window);
    } else {
      k := EndingEvent(front, window);
      assert front[..k] == es[..k];
    }
  }

  /** A session runs exactly as long as none of its events ends it; otherwise event `k` does, and a
      fault makes it fail, the end of input closes it, and the adapter's end leaves it without one. */
  lemma EndsIff(es: seq<Event>, window: nat)
    ensures Exec(es, window).status.Running? <==> forall k: nat :: !EndsAt(es, k, window)
    ensures forall k: nat | EndsAt(es, k, window) ::
              Exec(es, window).status
              == if Fault(Exec(es[..k], window), es[k]) then Failed
                 else if es[k].stimulus.EndOfInput? then Closed else AdapterGone
  {
    forall k: nat | EndsAt(es, k, window)
      ensures Exec(es, window).status
           == if Fault(Exec(es[..k], window), es[k]) then Failed
              else if es[k].stimulus.EndOfInput? then Closed else AdapterGone
    {
      EndedBy(es, k, window);
    }
    if !Exec(es, window).status.Running? {
      var k := EndingEvent(es, window);
    }
  }

  /** Conservation: on every run the pushes read divide, per URI, into the epochs between departures of
      its entry, each of which left as its winner, and a current epoch whose winner waits; the pushes
      written are those that left, all other lines are written exactly once and in order, the editor gets
      the adapter's lines, and a closed session keeps nothing back.  A failed session has written a
      prefix of what it owed. */
  lemma {:induction false} Conservation(es: seq<Event>, window: nat)
    requires IsRun(es, window)
    ensures Accounted(LogOf(es, window), Exec(es, window)) && forall u :: Explains(LogOf(es, window), u)
    ensures Balanced(Exec(es, window)) && Exec(es, window).replies == DeliveredLines(es, window)
    ensures Exec(es, window).status.Closed? ==> Exec(es, window).pending == map[]
  {
    RunLogged(es, window);
    RepliesForwarded(es, window);
    forall u
      ensures Explains(LogOf(es, window), u)
    {
      EpochsExplain(LogOf(es, window), u);
    }
    RunBalanced(es, window);
    if Exec(es, window).status.Closed? {
      ClosedIsEmpty(es, window);
    }
  }

  lemma {:induction false} RunBalanced(es: seq<Event>, window: nat)
    requires IsRun(es, window)
    ensures Balanced(Exec(es, window))
  {
    if es != [] {
      var n := |es| - 1;
      RunBalanced(es[..n], window);
      var s := Exec(es[..n], window);
      if s.status.Running? {
        WellFormedRun(es[..n], window);
        BalancedStep(s, es[n], window);
      }
    }
  }
}

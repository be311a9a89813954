/** bridge/src/process.rs, `ProcessManager`: writing lines to the adapter, restarting it with
    exponential backoff when a write fails. */
module Supervisor {
  import opened Protocol

  const MAX_RETRIES := 3
  const BASE_BACKOFF_MS := 250

  datatype AdapterMode = SpawnCommand | SpawnWithSocket | ConnectSocket

  /** Every successful start begins a new generation of the adapter connection. */
  datatype Writer = ChildPipe(generation: nat) | SocketPipe(generation: nat)

  /** One attempt to put a line on the current writer, completely or not. */
  datatype Record = Record(line: string, generation: nat, complete: bool)

  datatype State = State(mode: AdapterMode, child: Option<nat>, writer: Option<Writer>,
                         starts: nat, writes: seq<Record>, slept: nat)

  datatype ChildStatus = StillRunning | Exited | StatusUnknown

  /** The environment during one attempt: what the child's status is found to be, whether the write
      succeeds, and whether the restart that follows a failure does. */
  datatype Weather = Weather(status: ChildStatus, writeOk: bool, restartOk: bool)

  datatype SendResult = Sent | MaxRetriesExceeded | RestartFailed

  function Stopped(s: State): State {
    s.(writer := None, child := None)
  }

  function Started(s: State, ok: bool): State {
    var t := Stopped(s);
    var g := s.starts;
    if !ok then t
    else match s.mode
      case SpawnCommand => t.(child := Some(g), writer := Some(ChildPipe(g)), starts := g + 1)
      case SpawnWithSocket => t.(child := Some(g), writer := Some(SocketPipe(g)), starts := g + 1)
      case ConnectSocket => t.(writer := Some(SocketPipe(g)), starts := g + 1)
  }

  function LineWritten(s: State, line: string, w: Weather): (State, bool) {
    if s.child.Some? && w.status.StatusUnknown? then (s, false)
    else if s.child.Some? && w.status.Exited? then (s.(writer := None), false)
    else match s.writer
      case None => (s, false)
      case Some(out) => (s.(writes := s.writes + [Record(line, out.generation, w.writeOk)]), w.writeOk)
  }

  function Pow2(n: nat): nat {
    if n == 0 then 1 else 2 * Pow2(n - 1)
  }

  function Restarted(s: State, attempt: nat, ok: bool): State {
    Started(Stopped(s).(slept := s.slept + BASE_BACKOFF_MS * Pow2(attempt)), ok)
  }

  function SendFrom(s: State, line: string, attempts: nat, weather: nat -> Weather): (State, SendResult)
    requires attempts <= MAX_RETRIES
    decreases MAX_RETRIES - attempts
  {
    var (t, ok) := LineWritten(s, line, weather(attempts));
    if ok then (t, Sent)
    else if attempts == MAX_RETRIES then (t, MaxRetriesExceeded)
    else
      var u := Restarted(t, attempts, weather(attempts).restartOk);
      if weather(attempts).restartOk then SendFrom(u, line, attempts + 1, weather) else (u, RestartFailed)
  }

  // ---------------------------------------------------------------------------------------------
  // The manager object
  // ---------------------------------------------------------------------------------------------

  class ProcessManager {
    const mode: AdapterMode
    var child: Option<nat>
    var writer: Option<Writer>
    var starts: nat
    var writes: seq<Record>
    var slept: nat

    function Snapshot(): State
      reads this
    {
      State(mode, child, writer, starts, writes, slept)
    }

    constructor (mode: AdapterMode)
      ensures Snapshot() == State(mode, None, None, 0, [], 0)
    {
      this.mode := mode;
      child, writer, starts, writes, slept := None, None, 0, [], 0;
    }

    method Stop()
      modifies this
      ensures Snapshot() == Stopped(old(Snapshot()))
    {
      writer := None;
      child := None;
    }

    method Start(ok: bool) returns (started: bool)
      modifies this
      ensures Snapshot() == Started(old(Snapshot()), ok) && started == ok
    {
      Stop();
      if !ok {
        return false;
      }
      match mode {
        case SpawnCommand => child, writer := Some(starts), Some(ChildPipe(starts));
        case SpawnWithSocket => child, writer := Some(starts), Some(SocketPipe(starts));
        case ConnectSocket => writer := Some(SocketPipe(starts));
      }
      starts := starts + 1;
      return true;
    }

    method WriteLine(line: string, w: Weather) returns (ok: bool)
      modifies this
      ensures (Snapshot(), ok) == LineWritten(old(Snapshot()), line, w)
    {
      if child.Some? {
        if w.status.StatusUnknown? {
          return false;
        }
        if w.status.Exited? {
          writer := None;
          return false;
        }
      }
      match writer {
        case None => return false;
        case Some(out) =>
          writes := writes + [Record(line, out.generation, w.writeOk)];
          return w.writeOk;
      }
    }

    method RestartWithBackoff(attempt: nat, ok: bool) returns (started: bool)
      modifies this
      ensures Snapshot() == Restarted(old(Snapshot()), attempt, ok) && started == ok
    {
      Stop();
      slept := slept + BASE_BACKOFF_MS * Pow2(attempt);
      started := Start(ok);
    }

    method Send(line: string, weather: nat -> Weather) returns (result: SendResult)
      modifies this
      ensures (Snapshot(), result) == SendFrom(old(Snapshot()), line, 0, weather)
    {
      var attempts: nat := 0;
      while true
        invariant attempts <= MAX_RETRIES
        invariant SendFrom(old(Snapshot()), line, 0, weather) == SendFrom(Snapshot(), line, attempts, weather)
        decreases MAX_RETRIES - attempts
      {
        var ok := WriteLine(line, weather(attempts));
        if ok {
          return Sent;
        }
        if attempts >= MAX_RETRIES {
          return MaxRetriesExceeded;
        }
        var started := RestartWithBackoff(attempts, weather(attempts).restartOk);
        if !started {
          return RestartFailed;
        }
        attempts := attempts + 1;
      }
    }
  }

  // ---------------------------------------------------------------------------------------------
  // What a send may do
  // ---------------------------------------------------------------------------------------------

  /** Generations are handed out in order, and a pipe into a child implies that the child is there. */
  ghost predicate Sound(s: State) {
    && (s.writer.Some? ==> s.writer.value.generation < s.starts)
    && (s.writer.Some? && s.writer.value.ChildPipe? ==> s.child == Some(s.writer.value.generation))
    && (s.child.Some? ==> s.child.value < s.starts)
  }

  /** The first generation a send from `s` could write to. */
  ghost function Floor(s: State): nat {
    if s.writer.Some? then s.writer.value.generation else s.starts
  }

  /** The records of one send: each on a newer generation, only the last possibly complete. */
  ghost predicate Tries(records: seq<Record>, line: string, floor: nat) {
    records == [] ||
    (&& records[0].line == line && records[0].generation >= floor
     && (|records| == 1 || (!records[0].complete && Tries(records[1..], line, records[0].generation + 1))))
  }

  lemma LineWrittenFacts(s: State, line: string, w: Weather) returns (first: seq<Record>)
    requires Sound(s)
    ensures
      var (t, ok) := LineWritten(s, line, w);
      && Sound(t) && t.writes == s.writes + first && |first| <= 1
      && t.starts == s.starts && t.slept == s.slept && t.mode == s.mode
      && (first != [] ==> s.writer.Some? && first[0] == Record(line, Floor(s), ok))
      && (ok ==> first != [] && t.writer == s.writer)
  {
    var (t, ok) := LineWritten(s, line, w);
    first := if t.writes == s.writes then [] else [Record(line, s.writer.value.generation, ok)];
  }

  lemma RestartedFacts(s: State, attempt: nat, ok: bool)
    requires Sound(s)
    ensures
      var t := Restarted(s, attempt, ok);
      && Sound(t) && t.writes == s.writes && t.mode == s.mode
      && t.slept == s.slept + BASE_BACKOFF_MS * Pow2(attempt)
      && (ok ==> t.writer.Some? && Floor(t) == s.starts)
      && (t.child.Some? <==> ok && !s.mode.ConnectSocket?)
      && (t.writer.Some? <==> ok)
  {
  }

  /** `added` is what a send from `s` wrote before ending in `t`: success means that its last record
      is complete and on the writer now in use. */
  ghost predicate Wrote(s: State, t: State, sent: bool, added: seq<Record>, line: string) {
    && t.writes == s.writes + added
    && Tries(added, line, Floor(s))
    && (sent <==> added != [] && added[|added| - 1].complete)
    && (sent ==> t.writer.Some? && added[|added| - 1].generation == t.writer.value.generation)
  }

  lemma WroteOnce(s: State, line: string, w: Weather) returns (first: seq<Record>)
    requires Sound(s)
    ensures Wrote(s, LineWritten(s, line, w).0, LineWritten(s, line, w).1, first, line)
    ensures |first| <= 1 && Sound(LineWritten(s, line, w).0)
  {
    first := LineWrittenFacts(s, line, w);
  }

  lemma WroteAfterRestart(s: State, m: State, u: State, t: State, sent: bool, line: string,
                          first: seq<Record>, rest: seq<Record>)
    requires Wrote(s, m, false, first, line) && |first| <= 1
    requires u.writes == m.writes && Floor(s) <= Floor(u) && (first != [] ==> first[0].generation < Floor(u))
    requires Wrote(u, t, sent, rest, line)
    ensures Wrote(s, t, sent, first + rest, line)
  {
    assert s.writes + (first + rest) == s.writes + first + rest;
    if first == [] {
      assert first + rest == rest;
      TriesLower(rest, line, Floor(u), Floor(s));
    } else {
      TriesLower(rest, line, Floor(u), first[0].generation + 1);
      TriesCons(first[0], rest, line, Floor(s));
      assert first + rest == [first[0]] + rest;
      assert rest != [] ==> (first + rest)[|first + rest| - 1] == rest[|rest| - 1];
    }
  }

  lemma TriesCons(first: Record, rest: seq<Record>, line: string, floor: nat)
    requires first.line == line && first.generation >= floor && !first.complete
    requires Tries(rest, line, first.generation + 1)
    ensures Tries([first] + rest, line, floor)
  {
    assert ([first] + rest)[1..] == rest;
  }

  lemma FloorRises(s: State, line: string, w: Weather, attempt: nat, first: seq<Record>)
    requires Sound(s) && Wrote(s, LineWritten(s, line, w).0, LineWritten(s, line, w).1, first, line)
    ensures
      var u := Restarted(LineWritten(s, line, w).0, attempt, true);
      Floor(s) <= Floor(u) && (first != [] ==> first[0].generation < Floor(u))
  {
    var known := LineWrittenFacts(s, line, w);
    assert |s.writes + first| == |s.writes + known|;
    assert first != [] ==> (s.writes + first)[|s.writes|] == (s.writes + known)[|s.writes|];
    RestartedFacts(LineWritten(s, line, w).0, attempt, true);
  }

  lemma {:induction false} SendWrites(s: State, line: string, attempts: nat, weather: nat -> Weather)
    returns (added: seq<Record>)
    requires Sound(s) && attempts <= MAX_RETRIES
    ensures |added| <= MAX_RETRIES + 1 - attempts
    ensures
      var (t, result) := SendFrom(s, line, attempts, weather);
      Sound(t) && Wrote(s, t, result.Sent?, added, line)
    decreases MAX_RETRIES - attempts
  {
    var w := weather(attempts);
    var (m, ok) := LineWritten(s, line, w);
    added := WroteOnce(s, line, w);
    if !ok && attempts < MAX_RETRIES {
      RestartedFacts(m, attempts, w.restartOk);
      var u := Restarted(m, attempts, w.restartOk);
      if w.restartOk {
        var rest := SendWrites(u, line, attempts + 1, weather);
        var (t, result) := SendFrom(u, line, attempts + 1, weather);
        FloorRises(s, line, w, attempts, added);
        WroteAfterRestart(s, m, u, t, result.Sent?, line, added, rest);
        added := added + rest;
      }
    }
  }

  lemma TriesLower(records: seq<Record>, line: string, floor: nat, lower: nat)
    requires Tries(records, line, floor) && lower <= floor
    ensures Tries(records, line, lower)
  {
  }

  /** After `restarts` restarts the manager has slept the sum of that many doubling delays. */
  lemma {:induction false} SendSleeps(s: State, line: string, attempts: nat, weather: nat -> Weather)
    returns (restarts: nat)
    requires Sound(s) && attempts <= MAX_RETRIES
    ensures restarts <= MAX_RETRIES - attempts
    ensures SendFrom(s, line, attempts, weather).0.slept
         == s.slept + BASE_BACKOFF_MS * (Pow2(attempts + restarts) - Pow2(attempts))
    decreases MAX_RETRIES - attempts
  {
    var w := weather(attempts);
    var (m, ok) := LineWritten(s, line, w);
    var _ := LineWrittenFacts(s, line, w);
    if ok || attempts == MAX_RETRIES {
      restarts := 0;
    } else {
      RestartedFacts(m, attempts, w.restartOk);
      assert Pow2(attempts + 1) == 2 * Pow2(attempts);
      if w.restartOk {
        var more := SendSleeps(Restarted(m, attempts, true), line, attempts + 1, weather);
        restarts := more + 1;
        assert attempts + restarts == attempts + 1 + more;
      } else {
        restarts := 1;
      }
    }
  }

  lemma RetryPow2(n: nat)
    requires n <= MAX_RETRIES
    ensures 1 <= Pow2(n) <= 8
  {
    assert Pow2(1) == 2 * Pow2(0);
    assert Pow2(2) == 2 * Pow2(1);
    assert Pow2(3) == 2 * Pow2(2);
    assert n == 0 || n == 1 || n == 2 || n == 3;
  }

  /** For any failure pattern a send makes at most four writes, each to a newer generation of the
      adapter; it reports success exactly when its last write was complete, and that write went to
      the connection now in use; after `restarts` restarts it has slept 250 * (2^restarts - 1)
      milliseconds, never more than 1750; and a pipe into a child always has its child. */
  lemma SendBound(s: State, line: string, weather: nat -> Weather) returns (added: seq<Record>, restarts: nat)
    requires Sound(s)
    ensures |added| <= MAX_RETRIES + 1 && restarts <= MAX_RETRIES
    ensures
      var (t, result) := SendFrom(s, line, 0, weather);
      && Sound(t) && Wrote(s, t, result.Sent?, added, line)
      && t.slept == s.slept + BASE_BACKOFF_MS * (Pow2(restarts) - 1) <= s.slept + 1750
  {
    added := SendWrites(s, line, 0, weather);
    restarts := SendSleeps(s, line, 0, weather);
    RetryPow2(restarts);
    assert Pow2(0) == 1;
  }

  /** What Tries says of every pair of records. */
  lemma {:induction false} TriesMeans(records: seq<Record>, line: string, floor: nat, i: nat)
    requires Tries(records, line, floor) && i < |records|
    ensures records[i].line == line && records[i].generation >= floor
    ensures i + 1 < |records| ==> !records[i].complete && records[i].generation < records[i + 1].generation
  {
    if i > 0 {
      TriesMeans(records[1..], line, records[0].generation + 1, i - 1);
    } else if |records| > 1 {
      assert Tries(records[1..], line, records[0].generation + 1);
    }
  }

  /** Attempt `i` writes the whole line, given that it is reached: on attempt 0 the manager may
      have no writer; afterwards only a child that has died or a failing write stands in the way. */
  ghost predicate AttemptWorks(s: State, i: nat, weather: nat -> Weather) {
    && weather(i).writeOk
    && (i == 0 ==> s.writer.Some? && (s.child.Some? ==> weather(0).status.StillRunning?))
    && (i > 0 ==> s.mode.ConnectSocket? || weather(i).status.StillRunning?)
  }

  ghost predicate Reached(i: nat, weather: nat -> Weather, from: nat) {
    forall j | from <= j < i :: weather(j).restartOk
  }

  lemma {:induction false} RetrySucceedsIff(s: State, u: State, line: string, attempts: nat, weather: nat -> Weather)
    requires Sound(u) && attempts <= MAX_RETRIES && u.mode == s.mode
    requires attempts == 0 ==> u == s
    requires attempts > 0 ==> u.writer.Some? && (u.child.Some? <==> !u.mode.ConnectSocket?)
    ensures SendFrom(u, line, attempts, weather).1.Sent?
       <==> exists i :: attempts <= i <= MAX_RETRIES && AttemptWorks(s, i, weather) && Reached(i, weather, attempts)
    decreases MAX_RETRIES - attempts
  {
    var w := weather(attempts);
    var (m, ok) := LineWritten(u, line, w);
    var _ := LineWrittenFacts(u, line, w);
    assert ok <==> AttemptWorks(s, attempts, weather);
    if ok {
      assert Reached(attempts, weather, attempts);
    } else if attempts < MAX_RETRIES {
      RestartedFacts(m, attempts, w.restartOk);
      if w.restartOk {
        RetrySucceedsIff(s, Restarted(m, attempts, true), line, attempts + 1, weather);
        forall i | attempts < i <= MAX_RETRIES
          ensures Reached(i, weather, attempts) <==> Reached(i, weather, attempts + 1)
        {
          assert Reached(i, weather, attempts + 1) ==> Reached(i, weather, attempts);
        }
      }
    }
  }

  /** A send succeeds exactly when some attempt up to the fourth can write and every restart before
      it succeeds. */
  lemma SendSucceedsIff(s: State, line: string, weather: nat -> Weather)
    requires Sound(s)
    ensures SendFrom(s, line, 0, weather).1.Sent?
       <==> exists i :: 0 <= i <= MAX_RETRIES && AttemptWorks(s, i, weather) && Reached(i, weather, 0)
  {
    RetrySucceedsIff(s, s, line, 0, weather);
  }

  /** Attempt `i` is the last one: no attempt up to it can write, and the restart after it fails. */
  ghost predicate RestartFailsAt(s: State, i: nat, weather: nat -> Weather, from: nat) {
    && !weather(i).restartOk && Reached(i, weather, from)
    && forall j | from <= j <= i :: !AttemptWorks(s, j, weather)
  }

  lemma {:induction false} RetryRestartFails(s: State, u: State, line: string, attempts: nat, weather: nat -> Weather)
    requires Sound(u) && attempts <= MAX_RETRIES && u.mode == s.mode
    requires attempts == 0 ==> u == s
    requires attempts > 0 ==> u.writer.Some? && (u.child.Some? <==> !u.mode.ConnectSocket?)
    ensures SendFrom(u, line, attempts, weather).1.RestartFailed?
       <==> exists i: nat :: attempts <= i < MAX_RETRIES && RestartFailsAt(s, i, weather, attempts)
    decreases MAX_RETRIES - attempts
  {
    var w := weather(attempts);
    var (m, ok) := LineWritten(u, line, w);
    var _ := LineWrittenFacts(u, line, w);
    assert ok <==> AttemptWorks(s, attempts, weather);
    if !ok && attempts < MAX_RETRIES {
      RestartedFacts(m, attempts, w.restartOk);
      if w.restartOk {
        RetryRestartFails(s, Restarted(m, attempts, true), line, attempts + 1, weather);
        if i: nat :| attempts <= i < MAX_RETRIES && RestartFailsAt(s, i, weather, attempts) {
          ReachedOne(i, weather, attempts);
          assert RestartFailsAt(s, i, weather, attempts + 1);
        }
        var next := attempts + 1;
        if i: nat :| next <= i < MAX_RETRIES && RestartFailsAt(s, i, weather, next) {
          ReachedOne(i, weather, attempts);
          assert RestartFailsAt(s, i, weather, attempts);
        }
      } else {
        assert RestartFailsAt(s, attempts, weather, attempts);
      }
    }
  }

  lemma ReachedOne(i: nat, weather: nat -> Weather, from: nat)
    requires from < i && weather(from).restartOk
    ensures Reached(i, weather, from) <==> Reached(i, weather, from + 1)
  {
  }

  /** A send that does not succeed reports a failed restart exactly if one of the first three restarts
      failed before any attempt could write; otherwise it has used up its retries. */
  lemma SendFailsHow(s: State, line: string, weather: nat -> Weather)
    requires Sound(s)
    ensures SendFrom(s, line, 0, weather).1.RestartFailed?
       <==> exists i: nat :: i < MAX_RETRIES && RestartFailsAt(s, i, weather, 0)
  {
    RetryRestartFails(s, s, line, 0, weather);
  }

  /** What a start leaves: nothing if it fails; otherwise the next generation, written through the
      child's own pipe exactly if the command is spawned without a socket, and with a child unless the
      manager connects to an adapter that somebody else runs. */
  lemma StartMeans(s: State, ok: bool)
    ensures
      var t := Started(s, ok);
      && t.mode == s.mode && t.writes == s.writes && t.slept == s.slept
      && t.starts == s.starts + (if ok then 1 else 0)
      && (t.writer.Some? <==> ok) && (t.child.Some? <==> ok && s.mode != ConnectSocket)
      && (ok ==> t.writer.value.generation == s.starts && (t.writer.value.ChildPipe? <==> s.mode == SpawnCommand))
      && (t.child.Some? ==> t.child.value == s.starts)
  {
  }

  /** Starting and stopping keep the manager sound, whatever happens. */
  lemma StartStopSound(s: State, ok: bool)
    requires Sound(s)
    ensures Sound(Stopped(s)) && Sound(Started(s, ok))
    ensures Started(s, ok).writer.Some? <==> ok
  {
  }
}

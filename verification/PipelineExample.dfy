/** A run in which a check reads an older text: a document is edited at version 7, closed and opened
    again at version 1 while version 7 still waits, and then checked.  Closing leaves the waiting push
    alone, so the worker ignores the reopened text and the check reads the one before it. */
module PipelineExample {
  import opened Protocol
  import opened Debounce
  import opened MessageIds
  import opened BridgeQueue
  import Bridge = BridgeSession
  import opened Pipeline
  import opened PipelineOrder
  import opened PipelineChecks

  /** One more action on a run. */
  lemma Extend(acts: seq<Action>, trace: seq<State>, a: Action, window: nat)
    returns (acts': seq<Action>, trace': seq<State>)
    requires IsRun(acts, trace, window) && Possible(trace[|acts|], a, window)
    ensures IsRun(acts', trace', window) && trace'[|acts'|] == Step(trace[|acts|], a, window)
  {
    acts', trace' := acts + [a], trace + [Step(trace[|acts|], a, window)];
    assert acts' == acts + [a];
    assert forall k | 0 <= k <= |acts| :: trace'[k] == trace[k];
  }

  function Newer(u: Uri): Edit {
    Edit(u, 7, "edited")
  }

  function Reopened(u: Uri): Edit {
    Edit(u, 1, "reopened")
  }

  function Sent(u: Uri): Upstream {
    NO_EDITS.(edits := [Newer(u), Reopened(u)], commands := [Command(Some(u), 2)])
  }

  /** The editor's side: two edits and the command. */
  lemma EditorActs(u: Uri, window: nat) returns (acts: seq<Action>, trace: seq<State>)
    ensures IsRun(acts, trace, window)
    ensures trace[|acts|] == INITIAL.(up := Sent(u).(channel := [EditItem(0), EditItem(1), FlushItem(0)]))
  {
    acts, trace := [], [INITIAL];
    acts, trace := Extend(acts, trace, Change(Newer(u)), window);
    acts, trace := Extend(acts, trace, Change(Reopened(u)), window);
    assert trace[|acts|].up.edits == [Newer(u), Reopened(u)];
    acts, trace := Extend(acts, trace, RunCheck(Some(u)), window);
    assert trace[|acts|].up.channel == [EditItem(0), EditItem(1), FlushItem(0)];
  }

  /** The worker keeps the first edit, ignores the second and begins to send the first. */
  lemma WorkerActs(u: Uri, window: nat) returns (acts: seq<Action>, trace: seq<State>)
    ensures IsRun(acts, trace, window)
    ensures trace[|acts|]
         == INITIAL.(up := Sent(u).(received := 2, ignored := {1}, mode := Visiting(Some(0)), sending := Some(0)))
  {
    acts, trace := EditorActs(u, window);
    acts, trace := Extend(acts, trace, WorkerReceive(0, []), window);
    var first := Pending(u, 7, 0, 0);
    assert trace[|acts|].up
        == Sent(u).(channel := [EditItem(1), FlushItem(0)], received := 1, pending := map[u := first]);
    acts, trace := Extend(acts, trace, WorkerReceive(1, []), window);
    assert trace[|acts|].up
        == Sent(u).(channel := [FlushItem(0)], received := 2, pending := map[u := first], ignored := {1});
    acts, trace := Extend(acts, trace, WorkerReceive(2, []), window);
    assert trace[|acts|].up.targets == [u] && trace[|acts|].up.channel == [];
    acts, trace := Extend(acts, trace, WorkerVisit, window);
    assert trace[|acts|].up.pending == map[] && trace[|acts|].up.targets == [];
  }

  function PushMessage(u: Uri): Message {
    Message(IdOfRequest(0), DocumentPush, SESSION, 7, PushBody(u, "edited"))
  }

  function CheckMessage(u: Uri): Message {
    Message(IdOfRequest(1), DocumentCheck, SESSION, 1, CheckBody(u, 1))
  }

  /** What matters of the state once the push has been answered. */
  ghost predicate Pushed(s: State, u: Uri) {
    && s.up == Sent(u).(received := 2, ignored := {1}, mode := Visiting(Some(0)), delivered := map[u := 0])
    && s.net == Transport([PushOf(0)], map[], None, None)
    && s.bridge.status.Running? && s.bridge.pending == map[] && s.bridge.written == [PushMessage(u)]
    && s.adapter == Adapter({0}, map[u := "edited"], map[u := 0], [])
  }

  lemma PushActs(u: Uri, window: nat) returns (acts: seq<Action>, trace: seq<State>)
    ensures IsRun(acts, trace, window) && Pushed(trace[|acts|], u)
  {
    acts, trace := WorkerActs(u, window);
    acts, trace := Extend(acts, trace, IssuePush, window);
    acts, trace := Extend(acts, trace, Acquire(0), window);
    var m := PushMessage(u);
    assert trace[|acts|].net == Transport([PushOf(0)], map[], Some(InFlight(0, m, PushOf(0))), Some(m));
    acts, trace := BridgeActs(acts, trace, u, window);
    acts, trace := Extend(acts, trace, Execute(0), window);
    acts, trace := Extend(acts, trace, Answer(0), window);
  }

  /** The push waits in the bridge for its window and is then written. */
  lemma BridgeActs(acts: seq<Action>, trace: seq<State>, u: Uri, window: nat)
    returns (acts': seq<Action>, trace': seq<State>)
    requires IsRun(acts, trace, window) && trace[|acts|].bridge == Bridge.INITIAL
    requires trace[|acts|].net.line == Some(PushMessage(u))
    ensures IsRun(acts', trace', window)
    ensures
      var s, t := trace[|acts|], trace'[|acts'|];
      && t.up == s.up && t.adapter == s.adapter && t.net == s.net.(line := None)
      && t.bridge.status.Running? && t.bridge.pending == map[] && t.bridge.written == [PushMessage(u)]
  {
    var m := PushMessage(u);
    var entry := EntryOf(m, 3);
    BridgeLine(Bridge.INITIAL, m, 3, window);
    acts', trace' := Extend(acts, trace, BridgeRead(3), window);
    var b := trace'[|acts'|].bridge;
    assert b.pending == map[u := entry] && b.written == [];
    var due := DuePart(b.pending, 3 + window, window);
    assert due == map[u := entry];
    assert [entry][0].uri == u;
    BridgeTicks(b, m, 3 + window, [entry], window);
    acts', trace' := Extend(acts', trace', BridgeTick(3 + window, [entry]), window);
  }

  /** The check is written to the connection. */
  lemma CheckSent(acts: seq<Action>, trace: seq<State>, u: Uri, window: nat)
    returns (acts': seq<Action>, trace': seq<State>)
    requires IsRun(acts, trace, window) && Pushed(trace[|acts|], u)
    ensures IsRun(acts', trace', window)
    ensures
      var s, t := trace[|acts|], trace'[|acts'|];
      && t.up == s.up.(acked := t.up.acked, mode := Idle) && t.bridge == s.bridge && t.adapter == s.adapter
      && t.net.requests == [PushOf(0), CheckOf(0)] && t.net.line == Some(CheckMessage(u))
  {
    acts', trace' := Extend(acts, trace, WorkerFinish, window);
    acts', trace' := Extend(acts', trace', IssueCheck(0, u, 1), window);
    acts', trace' := Extend(acts', trace', Acquire(1), window);
  }

  lemma CheckActs(acts: seq<Action>, trace: seq<State>, u: Uri, window: nat)
    returns (acts': seq<Action>, trace': seq<State>)
    requires IsRun(acts, trace, window) && Pushed(trace[|acts|], u)
    ensures IsRun(acts', trace', window)
    ensures
      var t := trace'[|acts'|];
      && t.up.edits == [Newer(u), Reopened(u)] && t.up.commands == [Command(Some(u), 2)] && t.up.ignored == {1}
      && t.net.requests == [PushOf(0), CheckOf(0)]
      && t.adapter.seen == [Seen(IdOfRequest(1), u, Some("edited"), Some(0))]
  {
    acts', trace' := CheckSent(acts, trace, u, window);
    var m, s := CheckMessage(u), trace'[|acts'|];
    BridgeLine(s.bridge, m, 4, window);
    acts', trace' := Extend(acts', trace', BridgeRead(4), window);
    assert trace'[|acts'|].bridge.written[1] == m;
    acts', trace' := Extend(acts', trace', Execute(1), window);
  }

  /** The check reads version 7 although version 1 was sent last before the command. */
  lemma ReopenedExample(u: Uri, window: nat) returns (acts: seq<Action>, trace: seq<State>, s: State)
    ensures IsRun(acts, trace, window) && s == trace[|acts|]
    ensures s.adapter.seen == [Seen(IdOfRequest(1), u, Some("edited"), Some(0))]
    ensures s.net.requests == [PushOf(0), CheckOf(0)]
    ensures s.up.commands == [Command(Some(u), 2)] && |s.up.edits| == 2 && LastSent(s.up.edits, u, 2) == Some(1)
    ensures s.up.edits[1].text != "edited" && IgnoredLast(s.up, u, 2)
    ensures !AtLeastAsRecent(s.up.edits, s.adapter.seen[0].source, u, 2)
  {
    acts, trace := PushActs(u, window);
    acts, trace := CheckActs(acts, trace, u, window);
    s := trace[|acts|];
    assert s.up.edits[1] == Reopened(u) && s.up.edits[1].uri == u;
  }
}

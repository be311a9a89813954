/** The debouncing discipline shared by the bridge queue and the language server's push worker,
    and the log of arrivals and departures that explains everything such a debouncer lets out. */
module Debounce {
  import opened Protocol

  /** One waiting push: `item` is what will be sent, `queuedAt` the time it was accepted. */
  datatype Pending<T> = Pending(uri: Uri, version: int, item: T, queuedAt: nat)

  type Queue<T> = map<Uri, Pending<T>>

  /** Every entry is stored under its own URI. */
  ghost predicate Keyed<T>(q: Queue<T>) {
    forall u | u in q :: q[u].uri == u
  }

  /** Accept a push unless a push of a strictly greater version is waiting for the same URI. */
  function Arrive<T>(q: Queue<T>, p: Pending<T>): Queue<T> {
    if p.uri in q && q[p.uri].version > p.version then q else q[p.uri := p]
  }

  /** Time since `since`, never negative (a monotonic clock subtracts with saturation). */
  function Elapsed(now: nat, since: nat): nat {
    if now >= since then now - since else 0
  }

  predicate Due<T>(p: Pending<T>, now: nat, window: nat) {
    Elapsed(now, p.queuedAt) >= window
  }

  function DuePart<T>(q: Queue<T>, now: nat, window: nat): Queue<T> {
    map u | u in q && Due(q[u], now, window) :: q[u]
  }

  /** `list` enumerates the entries of `q`, each exactly once, in some order. */
  ghost predicate Lists<T>(list: seq<Pending<T>>, q: Queue<T>) {
    && (forall i | 0 <= i < |list| :: list[i].uri in q && q[list[i].uri] == list[i])
    && (forall i, j | 0 <= i < j < |list| :: list[i].uri != list[j].uri)
    && (forall u | u in q :: exists i :: 0 <= i < |list| && list[i].uri == u)
  }

  /** The URIs of a list of entries. */
  function Uris<T>(list: seq<Pending<T>>): (us: set<Uri>)
    ensures forall i | 0 <= i < |list| :: list[i].uri in us
    ensures forall u | u in us :: exists i :: 0 <= i < |list| && list[i].uri == u
  {
    set i | 0 <= i < |list| :: list[i].uri
  }

  // ---------------------------------------------------------------------------------------------
  // Winners of a group
  // ---------------------------------------------------------------------------------------------

  /** Position `i` holds the latest-arrived among the pushes of greatest version in the group. */
  ghost predicate WinsAt<T>(group: seq<Pending<T>>, i: int) {
    && 0 <= i < |group|
    && (forall j | 0 <= j < |group| :: group[j].version <= group[i].version)
    && (forall j | i < j < |group| :: group[j].version < group[i].version)
  }

  ghost predicate Wins<T>(group: seq<Pending<T>>, w: Pending<T>) {
    exists i :: WinsAt(group, i) && group[i] == w
  }

  lemma WinnerUnique<T>(group: seq<Pending<T>>, v: Pending<T>, w: Pending<T>)
    requires Wins(group, v) && Wins(group, w)
    ensures v == w
  {
    var i :| WinsAt(group, i) && group[i] == v;
    var j :| WinsAt(group, j) && group[j] == w;
    assert i == j;
  }

  lemma WinnerAppend<T>(group: seq<Pending<T>>, w: Pending<T>, p: Pending<T>)
    requires Wins(group, w)
    ensures Wins(group + [p], if w.version > p.version then w else p)
  {
    var i :| WinsAt(group, i) && group[i] == w;
    var longer := group + [p];
    if w.version > p.version {
      assert WinsAt(longer, i);
    } else {
      assert forall j | 0 <= j < |group| :: longer[j] == group[j];
      assert WinsAt(longer, |group|) && longer[|group|] == p;
    }
  }

  lemma WinnerSingle<T>(p: Pending<T>)
    ensures Wins([p], p)
  {
    assert WinsAt([p], 0) && [p][0] == p;
  }

  // ---------------------------------------------------------------------------------------------
  // Histories restricted to one URI
  // ---------------------------------------------------------------------------------------------

  function Of<T>(history: seq<Pending<T>>, u: Uri): seq<Pending<T>> {
    if history == [] then []
    else
      var n := |history| - 1;
      if history[n].uri == u then Of(history[..n], u) + [history[n]] else Of(history[..n], u)
  }

  lemma OfAppend<T>(history: seq<Pending<T>>, p: Pending<T>, u: Uri)
    ensures Of(history + [p], u) == if p.uri == u then Of(history, u) + [p] else Of(history, u)
  {
    assert (history + [p])[..|history|] == history;
  }

  function Flatten<A>(groups: seq<seq<A>>): seq<A> {
    if groups == [] then [] else Flatten(groups[..|groups| - 1]) + groups[|groups| - 1]
  }

  lemma FlattenAppend<A>(groups: seq<seq<A>>, g: seq<A>)
    ensures Flatten(groups + [g]) == Flatten(groups) + g
  {
    assert (groups + [g])[..|groups|] == groups;
  }

  // ---------------------------------------------------------------------------------------------
  // The log: arrivals and departures in the order in which they happened
  // ---------------------------------------------------------------------------------------------

  datatype Move<T> = In(push: Pending<T>) | Out(push: Pending<T>)

  type Log<T> = seq<Move<T>>

  function Ins<T>(log: Log<T>): seq<Pending<T>> {
    if log == [] then []
    else
      var n := |log| - 1;
      if log[n].In? then Ins(log[..n]) + [log[n].push] else Ins(log[..n])
  }

  function Outs<T>(log: Log<T>): seq<Pending<T>> {
    if log == [] then []
    else
      var n := |log| - 1;
      if log[n].Out? then Outs(log[..n]) + [log[n].push] else Outs(log[..n])
  }

  /** The queue these moves leave behind. */
  function Queued<T>(log: Log<T>): Queue<T> {
    if log == [] then map[]
    else
      var n := |log| - 1;
      var q := Queued(log[..n]);
      if log[n].In? then Arrive(q, log[n].push) else q - {log[n].push.uri}
  }

  /** Only what waits can leave. */
  ghost predicate Sound<T>(log: Log<T>) {
    log == [] ||
    var n := |log| - 1;
    && Sound(log[..n])
    && (log[n].Out? ==> log[n].push.uri in Queued(log[..n]) && Queued(log[..n])[log[n].push.uri] == log[n].push)
  }

  /** The current epoch of `u`: the pushes that arrived for it since its entry last left. */
  function Epoch<T>(log: Log<T>, u: Uri): seq<Pending<T>> {
    if log == [] then []
    else
      var n := |log| - 1;
      if log[n].push.uri != u then Epoch(log[..n], u)
      else if log[n].In? then Epoch(log[..n], u) + [log[n].push]
      else []
  }

  /** The finished epochs of `u`, one for each departure. */
  function PastEpochs<T>(log: Log<T>, u: Uri): seq<seq<Pending<T>>> {
    if log == [] then []
    else
      var n := |log| - 1;
      if log[n].Out? && log[n].push.uri == u then PastEpochs(log[..n], u) + [Epoch(log[..n], u)]
      else PastEpochs(log[..n], u)
  }

  lemma MoveAppended<T>(log: Log<T>, m: Move<T>, u: Uri)
    ensures Ins(log + [m]) == if m.In? then Ins(log) + [m.push] else Ins(log)
    ensures Outs(log + [m]) == if m.Out? then Outs(log) + [m.push] else Outs(log)
    ensures Queued(log + [m]) == if m.In? then Arrive(Queued(log), m.push) else Queued(log) - {m.push.uri}
    ensures Sound(log + [m]) <==>
            Sound(log) && (m.Out? ==> m.push.uri in Queued(log) && Queued(log)[m.push.uri] == m.push)
    ensures Epoch(log + [m], u) == if m.push.uri != u then Epoch(log, u)
                                   else if m.In? then Epoch(log, u) + [m.push] else []
    ensures PastEpochs(log + [m], u) == if m.Out? && m.push.uri == u then PastEpochs(log, u) + [Epoch(log, u)]
                                        else PastEpochs(log, u)
  {
    assert (log + [m])[..|log|] == log;
  }

  lemma {:induction false} SoundPrefix<T>(log: Log<T>, k: nat)
    requires Sound(log) && k <= |log|
    ensures Sound(log[..k])
  {
    if k < |log| {
      var front := log[..|log| - 1];
      SoundPrefix(front, k);
      assert front[..k] == log[..k];
    } else {
      assert log[..k] == log;
    }
  }

  // ---------------------------------------------------------------------------------------------
  // The specification: the entry that waits is the winner of the current epoch
  // ---------------------------------------------------------------------------------------------

  /** What waits for `u` is the latest-arrived among the pushes of greatest version since its entry
      last left, with the time that push arrived; nothing waits exactly if none arrived since. */
  lemma {:induction false} EpochWinner<T>(log: Log<T>, u: Uri)
    requires Sound(log)
    ensures Keyed(Queued(log)) && (u in Queued(log) <==> Epoch(log, u) != [])
    ensures u in Queued(log) ==> Wins(Epoch(log, u), Queued(log)[u])
  {
    if log != [] {
      var n := |log| - 1;
      EpochWinner(log[..n], u);
      var q, p := Queued(log[..n]), log[n].push;
      if log[n].In? && p.uri == u {
        if u in q {
          WinnerAppend(Epoch(log[..n], u), q[u], p);
        } else {
          WinnerSingle(p);
          assert [] + [p] == [p];
        }
      }
    }
  }

  /** All arrivals are the finished epochs followed by the current one, and each finished epoch let
      out exactly its winner. */
  ghost predicate Divides<T>(past: seq<seq<Pending<T>>>, epoch: seq<Pending<T>>, arrivals: seq<Pending<T>>,
                             out: seq<Pending<T>>) {
    && Flatten(past) + epoch == arrivals
    && |past| == |out|
    && forall k | 0 <= k < |out| :: Wins(past[k], out[k])
  }

  lemma DividesIn<T>(past: seq<seq<Pending<T>>>, epoch: seq<Pending<T>>, arrivals: seq<Pending<T>>,
                     out: seq<Pending<T>>, p: Pending<T>)
    requires Divides(past, epoch, arrivals, out)
    ensures Divides(past, epoch + [p], arrivals + [p], out)
  {
    assert Flatten(past) + (epoch + [p]) == Flatten(past) + epoch + [p];
  }

  lemma DividesOut<T>(past: seq<seq<Pending<T>>>, epoch: seq<Pending<T>>, arrivals: seq<Pending<T>>,
                      out: seq<Pending<T>>, w: Pending<T>)
    requires Divides(past, epoch, arrivals, out) && Wins(epoch, w)
    ensures Divides(past + [epoch], [], arrivals, out + [w])
  {
    FlattenAppend(past, epoch);
    assert Flatten(past + [epoch]) + [] == Flatten(past) + epoch;
  }

  /** The epochs of `u` divide everything that ever arrived for it. */
  ghost predicate Explains<T>(log: Log<T>, u: Uri) {
    Divides(PastEpochs(log, u), Epoch(log, u), Of(Ins(log), u), Of(Outs(log), u))
  }

  lemma {:induction false} EpochsExplain<T>(log: Log<T>, u: Uri)
    requires Sound(log)
    ensures Explains(log, u)
  {
    if log != [] {
      var n := |log| - 1;
      EpochsExplain(log[..n], u);
      EpochWinner(log[..n], u);
      assert log == log[..n] + [log[n]];
      ExplainsMore(log[..n], log[n], u);
    }
  }

  lemma ExplainsMore<T>(log: Log<T>, m: Move<T>, u: Uri)
    requires Explains(log, u) && (m.Out? && m.push.uri == u ==> Wins(Epoch(log, u), m.push))
    ensures Explains(log + [m], u)
  {
    var past, epoch := PastEpochs(log, u), Epoch(log, u);
    MoveAppended(log, m, u);
    OfAppend(Ins(log), m.push, u);
    OfAppend(Outs(log), m.push, u);
    if m.push.uri == u {
      if m.In? {
        DividesIn(past, epoch, Of(Ins(log), u), Of(Outs(log), u), m.push);
      } else {
        DividesOut(past, epoch, Of(Ins(log), u), Of(Outs(log), u), m.push);
      }
    }
  }

  // ---------------------------------------------------------------------------------------------
  // A debouncer's state is recorded in a log
  // ---------------------------------------------------------------------------------------------

  /** The log accounts for the queue and for both of its histories. */
  ghost predicate Recorded<T>(log: Log<T>, q: Queue<T>, arrived: seq<Pending<T>>, drained: seq<Pending<T>>) {
    Sound(log) && q == Queued(log) && arrived == Ins(log) && drained == Outs(log)
  }

  function InMoves<T>(list: seq<Pending<T>>): (moves: Log<T>)
    ensures |moves| == |list| && forall i | 0 <= i < |list| :: moves[i] == In(list[i])
  {
    seq(|list|, i requires 0 <= i < |list| => In(list[i]))
  }

  function OutMoves<T>(list: seq<Pending<T>>): (moves: Log<T>)
    ensures |moves| == |list| && forall i | 0 <= i < |list| :: moves[i] == Out(list[i])
  {
    seq(|list|, i requires 0 <= i < |list| => Out(list[i]))
  }

  /** What a history has gained. */
  function Gained<A>(before: seq<A>, after: seq<A>): seq<A> {
    if |before| <= |after| then after[|before|..] else []
  }

  /** The moves by which two histories grew. */
  function Moves<T>(arrived: seq<Pending<T>>, drained: seq<Pending<T>>, arrived': seq<Pending<T>>,
                    drained': seq<Pending<T>>): Log<T> {
    InMoves(Gained(arrived, arrived')) + OutMoves(Gained(drained, drained'))
  }

  lemma MovesAre<T>(arrived: seq<Pending<T>>, drained: seq<Pending<T>>, ins: seq<Pending<T>>, outs: seq<Pending<T>>)
    ensures Moves(arrived, drained, arrived + ins, drained + outs) == InMoves(ins) + OutMoves(outs)
  {
    assert (arrived + ins)[|arrived|..] == ins && (drained + outs)[|drained|..] == outs;
  }

  lemma RecordedArrive<T>(log: Log<T>, q: Queue<T>, arrived: seq<Pending<T>>, drained: seq<Pending<T>>, p: Pending<T>)
    requires Recorded(log, q, arrived, drained)
    ensures Recorded(log + [In(p)], Arrive(q, p), arrived + [p], drained)
  {
    MoveAppended(log, In(p), p.uri);
  }

  lemma RecordedTake<T>(log: Log<T>, q: Queue<T>, arrived: seq<Pending<T>>, drained: seq<Pending<T>>, u: Uri)
    requires Recorded(log, q, arrived, drained) && u in q
    ensures Recorded(log + [Out(q[u])], q - {u}, arrived, drained + [q[u]])
  {
    EpochWinner(log, u);
    MoveAppended(log, Out(q[u]), u);
  }

  /** Taking out a whole list of waiting entries, one after the other. */
  lemma {:induction false} RecordedTakeAll<T>(log: Log<T>, q: Queue<T>, arrived: seq<Pending<T>>,
                                              drained: seq<Pending<T>>, list: seq<Pending<T>>)
    requires Recorded(log, q, arrived, drained)
    requires forall i | 0 <= i < |list| :: list[i].uri in q && q[list[i].uri] == list[i]
    requires forall i, j | 0 <= i < j < |list| :: list[i].uri != list[j].uri
    ensures Recorded(log + OutMoves(list), q - Uris(list), arrived, drained + list)
  {
    if list == [] {
      assert q - Uris(list) == q && drained + list == drained && log + OutMoves(list) == log;
    } else {
      var n := |list| - 1;
      var front, p := list[..n], list[n];
      RecordedTakeAll(log, q, arrived, drained, front);
      ListSnoc(log, q, drained, front, p);
      assert front + [p] == list;
      assert p.uri !in Uris(front);
      RecordedTake(log + OutMoves(front), q - Uris(front), arrived, drained + front, p.uri);
    }
  }

  lemma ListSnoc<T>(log: Log<T>, q: Queue<T>, drained: seq<Pending<T>>, front: seq<Pending<T>>, p: Pending<T>)
    ensures log + OutMoves(front + [p]) == log + OutMoves(front) + [Out(p)]
    ensures drained + (front + [p]) == drained + front + [p]
    ensures q - Uris(front + [p]) == q - Uris(front) - {p.uri}
  {
    UrisSnoc(front, p);
  }

  /** Taking out this list finishes the current epoch of `u` if `u` is in it, and else leaves it. */
  ghost predicate Finishes<T>(log: Log<T>, list: seq<Pending<T>>, u: Uri) {
    var after := log + OutMoves(list);
    if u in Uris(list) then PastEpochs(after, u) == PastEpochs(log, u) + [Epoch(log, u)] && Epoch(after, u) == []
    else PastEpochs(after, u) == PastEpochs(log, u) && Epoch(after, u) == Epoch(log, u)
  }

  /** Taking out a list finishes the current epoch of each of its URIs, and of no other. */
  lemma {:induction false} EpochsTaken<T>(log: Log<T>, list: seq<Pending<T>>, u: Uri)
    requires forall i, j | 0 <= i < j < |list| :: list[i].uri != list[j].uri
    ensures Finishes(log, list, u)
  {
    if list == [] {
      assert log + OutMoves(list) == log;
    } else {
      var n := |list| - 1;
      EpochsTaken(log, list[..n], u);
      FinishesMore(log, list[..n], list[n], u);
      assert list[..n] + [list[n]] == list;
    }
  }

  lemma FinishesMore<T>(log: Log<T>, front: seq<Pending<T>>, p: Pending<T>, u: Uri)
    requires Finishes(log, front, u) && forall i | 0 <= i < |front| :: front[i].uri != p.uri
    ensures Finishes(log, front + [p], u)
  {
    TakenOne(log, front, p, u);
    assert p.uri !in Uris(front);
  }

  lemma TakenOne<T>(log: Log<T>, front: seq<Pending<T>>, p: Pending<T>, u: Uri)
    ensures
      var before, after := log + OutMoves(front), log + OutMoves(front + [p]);
      && PastEpochs(after, u) == (if u == p.uri then PastEpochs(before, u) + [Epoch(before, u)]
                                  else PastEpochs(before, u))
      && Epoch(after, u) == (if u == p.uri then [] else Epoch(before, u))
      && (u in Uris(front + [p]) <==> u in Uris(front) || u == p.uri)
  {
    ListSnoc(log, map[], [], front, p);
    UrisSnoc(front, p);
    MoveAppended(log + OutMoves(front), Out(p), u);
  }

  lemma UrisSnoc<T>(list: seq<Pending<T>>, p: Pending<T>)
    ensures Uris(list + [p]) == Uris(list) + {p.uri}
  {
    var longer := list + [p];
    forall u | u in Uris(list) + {p.uri}
      ensures u in Uris(longer)
    {
      if u in Uris(list) {
        var i :| 0 <= i < |list| && list[i].uri == u;
        assert longer[i].uri == u;
      } else {
        assert longer[|list|].uri == u;
      }
    }
  }

  // ---------------------------------------------------------------------------------------------
  // What the log means for a single push
  // ---------------------------------------------------------------------------------------------

  /** The entry of `u` does not leave between positions `i` and `j`. */
  ghost predicate Stays<T>(log: Log<T>, u: Uri, i: nat, j: nat) {
    forall k | i <= k < j && k < |log| :: !(log[k].Out? && log[k].push.uri == u)
  }

  /** Where the epoch of the push that arrived at `i` ends: the first later departure of its URI. */
  lemma {:induction false} EpochEnd<T>(log: Log<T>, i: nat) returns (j: nat)
    requires i < |log| && log[i].In?
    ensures i < j <= |log| && Stays(log, log[i].push.uri, i, j)
    ensures j < |log| ==> log[j].Out? && log[j].push.uri == log[i].push.uri
    ensures log[i].push in Epoch(log[..j], log[i].push.uri)
  {
    var n := |log| - 1;
    var front := log[..n];
    assert log[..|log|] == log;
    if i == n {
      j := n + 1;
    } else {
      j := EpochEnd(front, i);
      assert front[..j] == log[..j];
      if j == n && !(log[n].Out? && log[n].push.uri == log[i].push.uri) {
        j := n + 1;
      }
    }
  }

  /** No push vanishes without cause: position `j` is where the epoch of the push that arrived at `i`
      ends, with the departure of that epoch's winner, or the end of the log with the winner waiting.
      The winner comes from the same epoch, has at least the push's version, and leaves after it. */
  lemma NothingLost<T>(log: Log<T>, i: nat) returns (j: nat, w: Pending<T>)
    requires Sound(log) && i < |log| && log[i].In?
    ensures i < j <= |log| && Stays(log, log[i].push.uri, i, j)
    ensures if j < |log| then log[j] == Out(w) else w.uri in Queued(log) && w == Queued(log)[w.uri]
    ensures w.uri == log[i].push.uri && w.version >= log[i].push.version
    ensures log[i].push in Epoch(log[..j], w.uri) && Wins(Epoch(log[..j], w.uri), w)
  {
    var u := log[i].push.uri;
    j := EpochEnd(log, i);
    SoundPrefix(log, j);
    EpochWinner(log[..j], u);
    w := Queued(log[..j])[u];
    if j < |log| {
      SoundPrefix(log, j + 1);
      assert log[..j + 1][..j] == log[..j];
    } else {
      assert log[..j] == log;
    }
  }

  /** From position `from` on, `d` is the first entry of `u` in the history, or else its end. */
  ghost predicate FirstFrom<T>(history: seq<Pending<T>>, from: nat, d: nat, u: Uri) {
    && from <= d <= |history|
    && (forall k | from <= k < d :: history[k].uri != u)
    && (d < |history| ==> history[d].uri == u)
  }

  /** The same in terms of what has left: after the push that arrived as the last of `log[..i + 1]`,
      the first entry of its URI to leave, position `d` of what left, has at least its version;
      if none has left, one waits that has. */
  lemma LetOutLater<T>(log: Log<T>, i: nat) returns (d: nat)
    requires Sound(log) && i < |log| && log[i].In?
    ensures FirstFrom(Outs(log), |Outs(log[..i + 1])|, d, log[i].push.uri)
    ensures
      var p := log[i].push;
      if d < |Outs(log)| then Outs(log)[d].version >= p.version
      else p.uri in Queued(log) && Queued(log)[p.uri].version >= p.version
  {
    var j, w := NothingLost(log, i);
    d := |Outs(log[..j])|;
    FirstLeaves(log, i + 1, j, w.uri);
    if j < |log| {
      DepartureAt(log, j);
    }
  }

  lemma LastOfPrefix<T>(log: Log<T>, front: Log<T>, m: Move<T>)
    requires front + [m] <= log
    ensures |front| < |log| && log[|front|] == m && log[..|front| + 1] == front + [m]
  {
  }

  lemma FirstLeaves<T>(log: Log<T>, i: nat, j: nat, u: Uri)
    requires i <= j <= |log| && Stays(log, u, i, j)
    requires j < |log| ==> log[j].Out? && log[j].push.uri == u
    ensures FirstFrom(Outs(log), |Outs(log[..i])|, |Outs(log[..j])|, u)
    ensures j == |log| ==> |Outs(log[..j])| == |Outs(log)|
  {
    OutsGrow(log, i, j);
    OutsStay(log, i, j, u);
    OutsGrow(log, j, |log|);
    assert log[..|log|] == log;
    if j < |log| {
      DepartureAt(log, j);
    }
  }

  lemma {:induction false} OutsGrow<T>(log: Log<T>, i: nat, j: nat)
    requires i <= j <= |log|
    ensures Outs(log[..i]) <= Outs(log[..j])
  {
    if i < j {
      OutsGrow(log, i, j - 1);
      assert log[..j][..j - 1] == log[..j - 1];
    }
  }

  lemma DepartureAt<T>(log: Log<T>, j: nat)
    requires j < |log| && log[j].Out?
    ensures |Outs(log[..j])| < |Outs(log)| && Outs(log)[|Outs(log[..j])|] == log[j].push
  {
    OutsGrow(log, j + 1, |log|);
    assert log[..j + 1][..j] == log[..j] && log[..|log|] == log;
  }

  /** While the entry of `u` stays, only others leave. */
  lemma {:induction false} OutsStay<T>(log: Log<T>, i: nat, j: nat, u: Uri)
    requires i <= j <= |log| && Stays(log, u, i, j)
    ensures forall k | |Outs(log[..i])| <= k < |Outs(log[..j])| :: Outs(log[..j])[k].uri != u
  {
    if i < j {
      OutsStay(log, i, j - 1, u);
      assert log[..j][..j - 1] == log[..j - 1];
    }
  }

  /** `xs` is obtained from `ys` by deleting elements. */
  ghost predicate Subsequence<A>(xs: seq<A>, ys: seq<A>) {
    exists at: seq<int> :: Picks(at, xs, ys)
  }

  ghost predicate Picks<A>(at: seq<int>, xs: seq<A>, ys: seq<A>) {
    && |at| == |xs|
    && (forall k | 0 <= k < |at| :: 0 <= at[k] < |ys| && ys[at[k]] == xs[k])
    && (forall j, k | 0 <= j < k < |at| :: at[j] < at[k])
  }

  lemma PicksAppend<A>(at: seq<int>, xs: seq<A>, ys: seq<A>, zs: seq<A>, i: nat)
    requires Picks(at, xs, ys) && i < |zs|
    ensures Picks(at + [|ys| + i], xs + [zs[i]], ys + zs)
  {
  }

  lemma WinnerPicked<T>(ws: seq<Pending<T>>, earlier: seq<Pending<T>>, group: seq<Pending<T>>, w: Pending<T>)
    requires Subsequence(ws, earlier) && Wins(group, w)
    ensures Subsequence(ws + [w], earlier + group)
  {
    var at :| Picks(at, ws, earlier);
    var i :| WinsAt(group, i) && group[i] == w;
    PicksAppend(at, ws, earlier, group, i);
  }

  lemma {:induction false} WinnersPicked<T>(done: seq<seq<Pending<T>>>, ws: seq<Pending<T>>)
    requires |done| == |ws| && forall k | 0 <= k < |done| :: Wins(done[k], ws[k])
    ensures Subsequence(ws, Flatten(done))
  {
    if done == [] {
      assert Picks([], ws, Flatten(done));
    } else {
      var n := |done| - 1;
      WinnersPicked(done[..n], ws[..n]);
      WinnerPicked(ws[..n], Flatten(done[..n]), done[n], ws[n]);
      assert ws[..n] + [ws[n]] == ws;
    }
  }

  /** Pushes leave in the order they arrived: per URI, what was let out followed by what waits is a
      subsequence of what arrived.  In particular no push is let out twice. */
  lemma LetOutInOrder<T>(log: Log<T>, u: Uri)
    requires Sound(log)
    ensures
      var waiting := if u in Queued(log) then [Queued(log)[u]] else [];
      Subsequence(Of(Outs(log), u) + waiting, Of(Ins(log), u))
  {
    EpochWinner(log, u);
    EpochsExplain(log, u);
    var past, out := PastEpochs(log, u), Of(Outs(log), u);
    if u in Queued(log) {
      WinnersPicked(past + [Epoch(log, u)], out + [Queued(log)[u]]);
      FlattenAppend(past, Epoch(log, u));
    } else {
      WinnersPicked(past, out);
      assert out + [] == out && Flatten(past) + [] == Flatten(past);
    }
  }

  /** The last push has the greatest version of all. */
  ghost predicate LastIsGreatest<T>(pushes: seq<Pending<T>>) {
    pushes != [] ==> forall i | 0 <= i < |pushes| :: pushes[i].version <= pushes[|pushes| - 1].version
  }

  /** Once nothing waits for `u`, the last push let out is the last one that arrived if and only if no
      push of its epoch had a greater version. */
  lemma LatestLetOutIff<T>(log: Log<T>, u: Uri)
    requires Sound(log) && u !in Queued(log) && Of(Ins(log), u) != []
    ensures PastEpochs(log, u) != [] && Of(Outs(log), u) != []
    ensures
      var past, mine, out := PastEpochs(log, u), Of(Ins(log), u), Of(Outs(log), u);
      out[|out| - 1] == mine[|mine| - 1] <==> LastIsGreatest(past[|past| - 1])
  {
    AllPast(log, u);
    LastDivision(PastEpochs(log, u), Of(Ins(log), u), Of(Outs(log), u));
  }

  lemma AllPast<T>(log: Log<T>, u: Uri)
    requires Sound(log) && u !in Queued(log)
    ensures Divides(PastEpochs(log, u), [], Of(Ins(log), u), Of(Outs(log), u))
  {
    EpochWinner(log, u);
    EpochsExplain(log, u);
  }

  lemma LastDivision<T>(past: seq<seq<Pending<T>>>, arrivals: seq<Pending<T>>, out: seq<Pending<T>>)
    requires Divides(past, [], arrivals, out) && arrivals != []
    ensures past != [] && out != []
    ensures out[|out| - 1] == arrivals[|arrivals| - 1] <==> LastIsGreatest(past[|past| - 1])
  {
    LastGroup(past, arrivals);
    GroupWinner(past[|past| - 1], out[|past| - 1]);
  }

  lemma LastGroup<A>(groups: seq<seq<A>>, all: seq<A>)
    requires Flatten(groups) + [] == all && all != []
    ensures groups != []
    ensures groups[|groups| - 1] != [] ==> groups[|groups| - 1][|groups[|groups| - 1]| - 1] == all[|all| - 1]
  {
    assert Flatten(groups) == all;
  }

  lemma GroupWinner<T>(group: seq<Pending<T>>, w: Pending<T>)
    requires Wins(group, w)
    ensures group != [] && (w == group[|group| - 1] <==> LastIsGreatest(group))
  {
    var i :| WinsAt(group, i) && group[i] == w;
    if LastIsGreatest(group) {
      assert WinsAt(group, |group| - 1);
      WinnerUnique(group, w, group[|group| - 1]);
    }
  }

  // ---------------------------------------------------------------------------------------------
  // The newest push, and the guard under which a newer arrival is ignored
  // ---------------------------------------------------------------------------------------------

  /** The last entry for `u` in a history. */
  function LastOf<T>(history: seq<Pending<T>>, u: Uri): Option<Pending<T>> {
    if history == [] then None
    else
      var n := |history| - 1;
      if history[n].uri == u then Some(history[n]) else LastOf(history[..n], u)
  }

  lemma LastOfAppend<T>(history: seq<Pending<T>>, p: Pending<T>, u: Uri)
    ensures LastOf(history + [p], u) == if p.uri == u then Some(p) else LastOf(history, u)
  {
    assert (history + [p])[..|history|] == history;
  }

  /** The entry that waits for `u`, or else the last one let out. */
  function Newest<T>(q: Queue<T>, drained: seq<Pending<T>>, u: Uri): Option<Pending<T>> {
    if u in q then Some(q[u]) else LastOf(drained, u)
  }

  /** A strictly newer version is waiting, so this arrival is ignored. */
  predicate Ignores<T>(q: Queue<T>, p: Pending<T>) {
    p.uri in q && q[p.uri].version > p.version
  }

  lemma NewestArrive<T>(q: Queue<T>, drained: seq<Pending<T>>, p: Pending<T>, u: Uri)
    ensures Newest(Arrive(q, p), drained, u)
         == if p.uri == u && !Ignores(q, p) then Some(p) else Newest(q, drained, u)
  {
  }

  lemma NewestTake<T>(q: Queue<T>, drained: seq<Pending<T>>, t: Uri, u: Uri)
    requires Keyed(q) && t in q
    ensures Newest(q - {t}, drained + [q[t]], u) == Newest(q, drained, u)
  {
    LastOfAppend(drained, q[t], u);
  }

  /** Right after the due entries have left, exactly the younger ones remain, unchanged. */
  lemma YoungRemain<T>(q: Queue<T>, now: nat, window: nat, u: Uri)
    ensures
      var left := q - DuePart(q, now, window).Keys;
      && (u in left <==> u in q && window > 0 && now < q[u].queuedAt + window)
      && (u in left ==> left[u] == q[u])
  {
  }
}

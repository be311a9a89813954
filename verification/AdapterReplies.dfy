/** Which replies the adapter writes, and how four busy connections can bring it to a standstill. */
module AdapterReplies {
  import opened AdapterPool

  // ---------------------------------------------------------------------------------------------
  // Reply accounting
  // ---------------------------------------------------------------------------------------------

  /** The reply a request has earned: one, once all its stages have run and none has failed. */
  function Earned(q: Request): multiset<Reply> {
    if q.line.Decoded? && q.left == 0 && !q.failed then multiset{Reply(q.loop, q.line.envelope)} else multiset{}
  }

  function Owed(requests: seq<Request>): multiset<Reply> {
    if requests == [] then multiset{}
    else Owed(requests[..|requests| - 1]) + Earned(requests[|requests| - 1])
  }

  lemma OwedSnoc(requests: seq<Request>, q: Request)
    ensures Owed(requests + [q]) == Owed(requests) + Earned(q)
  {
    assert (requests + [q])[..|requests|] == requests;
  }

  lemma SumSwap<A>(a: multiset<A>, b: multiset<A>, c: multiset<A>)
    ensures (a + b) + c == (a + c) + b
  {
  }

  lemma {:induction false} OwedUpdate(requests: seq<Request>, r: nat, q: Request)
    requires r < |requests| && Earned(requests[r]) == multiset{}
    ensures Owed(requests[r := q]) == Owed(requests) + Earned(q)
  {
    var front, last := requests[..|requests| - 1], requests[|requests| - 1];
    if r < |front| {
      assert requests[r := q] == front[r := q] + [last];
      OwedSnoc(front[r := q], last);
      OwedUpdate(front, r, q);
      SumSwap(Owed(front), Earned(q), Earned(last));
    } else {
      assert requests[r := q] == front + [q];
      OwedSnoc(front, q);
    }
  }

  /** The replies handed to writers. */
  function Replies(output: seq<Written>): multiset<Reply> {
    if output == [] then multiset{}
    else Replies(output[..|output| - 1]) + multiset{output[|output| - 1].reply}
  }

  ghost predicate Accounts(s: State) {
    Replies(s.output) == Owed(s.requests)
  }

  lemma RepliesSnoc(output: seq<Written>, w: Written)
    ensures Replies(output + [w]) == Replies(output) + multiset{w.reply}
  {
    assert (output + [w])[..|output|] == output;
  }

  lemma AccountFinish(s: State, i: nat, succeeds: bool)
    requires Possible(s, Finish(i, succeeds)) && TasksAccounted(s) && Accounts(s)
    ensures Accounts(Step(s, Finish(i, succeeds)))
  {
    RunningStageIsDue(s, i);
    var s' := Step(s, Finish(i, succeeds));
    var r := s.running[i].r;
    var q := s'.requests[r];
    assert s'.requests == s.requests[r := q];
    OwedUpdate(s.requests, r, q);
    if s'.output != s.output {
      RepliesSnoc(s.output, Written(Reply(q.loop, q.line.envelope), !Closed(s, q.loop)));
    }
  }

  lemma AccountSubmit(s: State, l: nat)
    requires Possible(s, Submit(l)) && Accounts(s)
    ensures Accounts(Step(s, Submit(l)))
  {
    var s' := Step(s, Submit(l));
    assert s'.requests[..|s.requests|] == s.requests;
    assert Earned(s'.requests[|s.requests|]) == multiset{};
  }

  lemma {:induction false} OwedRegistered(requests: seq<Request>, more: seq<Request>)
    requires |more| == |requests| && forall r | 0 <= r < |requests| :: Earned(more[r]) == Earned(requests[r])
    ensures Owed(more) == Owed(requests)
  {
    if requests != [] {
      OwedRegistered(requests[..|requests| - 1], more[..|more| - 1]);
    }
  }

  lemma AccountWait(s: State, l: nat)
    requires Possible(s, Wait(l)) && Accounts(s)
    ensures Accounts(Step(s, Wait(l)))
  {
    var s' := Step(s, Wait(l));
    forall r | 0 <= r < |s.requests|
      ensures Earned(s'.requests[r]) == Earned(s.requests[r])
    {
      RegisteredFacts(s.requests, Prune(s, s.loops[l].inflight), Wake(l, s.loops[l].waits), r);
    }
    OwedRegistered(s.requests, s'.requests);
  }

  lemma AccountStep(s: State, a: Action)
    requires Possible(s, a) && TasksAccounted(s) && Accounts(s)
    ensures Accounts(Step(s, a))
  {
    match a {
      case Finish(i, succeeds) => AccountFinish(s, i, succeeds);
      case Submit(l) => AccountSubmit(s, l);
      case Wait(l) => AccountWait(s, l);
      case _ => AccountElsewhere(s, a);
    }
  }

  lemma AccountElsewhere(s: State, a: Action)
    requires Possible(s, a) && !a.Finish? && !a.Submit? && !a.Wait?
    ensures Step(s, a).output == s.output && Step(s, a).requests == s.requests
  {
  }

  /** On every run the replies handed to writers are, as a multiset, exactly one for each decoded
      request whose stages have all succeeded, addressed to the connection it came from: no
      duplicates, nothing for rejected lines, nothing for failures. */
  lemma {:induction false} RepliesAccounted(acts: seq<Action>, trace: seq<State>)
    requires IsRun(acts, trace)
    ensures Accounts(trace[|acts|])
  {
    if acts != [] {
      var n := |acts| - 1;
      assert IsRun(acts[..n], trace[..n + 1]);
      RepliesAccounted(acts[..n], trace[..n + 1]);
      RunInv(acts[..n], trace[..n + 1]);
      AccountStep(trace[n], acts[n]);
    }
  }

  /** Every reply to a connection that is still open has been delivered. */
  ghost predicate DeliveredIfOpen(s: State) {
    forall i | 0 <= i < |s.output| && !Closed(s, s.output[i].reply.loop) :: s.output[i].delivered
  }

  lemma DeliveredStep(s: State, a: Action)
    requires Possible(s, a) && DeliveredIfOpen(s) && Inv(s)
    ensures DeliveredIfOpen(Step(s, a))
  {
    var s' := Step(s, a);
    forall l: nat | Closed(s, l)
      ensures Closed(s', l)
    {
      StaysClosed(s, a, l);
    }
  }

  lemma StaysClosed(s: State, a: Action, l: nat)
    requires Possible(s, a) && Inv(s) && Closed(s, l)
    ensures Closed(Step(s, a), l)
  {
    CountMember(s.queue, LoopTask(l));
    assert Accounted(s, LoopTask(l));
    assert a.Start? ==> s.queue[0] in s.queue;
  }

  /** So while a connection is open its peer gets every reply it has earned; a reply can only be lost
      when its connection was closed before it was ready. */
  lemma {:induction false} OpenConnectionsServed(acts: seq<Action>, trace: seq<State>)
    requires IsRun(acts, trace)
    ensures DeliveredIfOpen(trace[|acts|])
  {
    if acts != [] {
      var n := |acts| - 1;
      assert IsRun(acts[..n], trace[..n + 1]);
      OpenConnectionsServed(acts[..n], trace[..n + 1]);
      RunInv(acts[..n], trace[..n + 1]);
      DeliveredStep(trace[n], acts[n]);
    }
  }

  lemma {:induction false} OwedBounded(requests: seq<Request>, reply: Reply)
    ensures Owed(requests)[reply] <= Matching(requests, reply)
  {
    if requests != [] {
      OwedBounded(requests[..|requests| - 1], reply);
    }
  }

  /** The decoded requests of that connection with that envelope. */
  function Matching(requests: seq<Request>, reply: Reply): nat {
    if requests == [] then 0
    else
      var n := |requests| - 1;
      Matching(requests[..n], reply) +
      (if requests[n].line.Decoded? && Reply(requests[n].loop, requests[n].line.envelope) == reply then 1 else 0)
  }

  /** So a reply never appears more often than it was asked for. */
  lemma NoUnaskedReply(acts: seq<Action>, trace: seq<State>, reply: Reply)
    requires IsRun(acts, trace)
    ensures Replies(trace[|acts|].output)[reply] <= Matching(trace[|acts|].requests, reply)
  {
    RepliesAccounted(acts, trace);
    OwedBounded(trace[|acts|].requests, reply);
  }

  // ---------------------------------------------------------------------------------------------
  // Four saturated connections
  // ---------------------------------------------------------------------------------------------

  /** All four threads are held by connection loops, and every loop that has started is blocked,
      waiting for capacity. */
  ghost predicate Deadlocked(s: State) {
    && |s.running| == THREADS
    && (forall i | 0 <= i < THREADS :: s.running[i].LoopTask?)
    && (forall l: nat | l < |s.loops| :: s.loops[l].phase.Submitted? || s.loops[l].phase.Waiting?)
  }

  lemma DeadlockStep(s: State, a: Action)
    requires Deadlocked(s) && Possible(s, a)
    ensures a.Open?
    ensures a.onPool ==> Deadlocked(Step(s, a)) && Step(s, a).requests == s.requests && Step(s, a).output == s.output
  {
  }

  /** From there nothing happens any more except that new connections queue up, for ever: however the
      server goes on, no request makes progress and no reply is written. */
  lemma {:induction false} DeadlockIsFinal(s: State, acts: seq<Action>, t: State)
    requires Deadlocked(s) && Leads(s, acts, t)
    requires forall a | a in acts :: a.Open? ==> a.onPool
    ensures Deadlocked(t) && t.requests == s.requests && t.output == s.output
    ensures forall a | a in acts :: a == Open(true)
    decreases |acts|
  {
    if acts != [] {
      DeadlockStep(s, acts[0]);
      assert acts == [acts[0]] + acts[1..];
      DeadlockIsFinal(Step(s, acts[0]), acts[1..], t);
    }
  }

  /** No request has finished, and loops 0 to `m - 1` wait; loop `m` has `k` in flight. */
  ghost predicate Filling(s: State, m: nat, k: nat) {
    && s.running == [LoopTask(0), LoopTask(1), LoopTask(2), LoopTask(3)] && |s.loops| == 4
    && (forall r | 0 <= r < |s.requests| :: s.requests[r].left > 0)
    && (forall l, r | 0 <= l < 4 && r in s.loops[l].inflight :: r < |s.requests|)
    && (forall l | 0 <= l < 4 && l < m :: s.loops[l].phase.Waiting?)
    && (forall l | 0 <= l < 4 && l >= m ::
          s.loops[l].phase.Reading? && |s.loops[l].inflight| == if l == m then k else 0)
  }

  lemma {:induction false} NothingPruned(s: State, inflight: seq<nat>)
    requires forall r | 0 <= r < |s.requests| :: s.requests[r].left > 0
    ensures Prune(s, inflight) == inflight
  {
    if inflight != [] {
      NothingPruned(s, inflight[..|inflight| - 1]);
    }
  }

  /** Read one line and submit it. */
  lemma FillOne(s: State, m: nat, k: nat, line: Line) returns (t: State)
    requires Filling(s, m, k) && m < 4 && k < MAX_IN_FLIGHT && line.Decoded?
    ensures Leads(s, [Read(m, line), Submit(m)], t) && Filling(t, m, k + 1)
  {
    var h := Step(s, Read(m, line));
    NothingPruned(h, h.loops[m].inflight);
    t := Step(h, Submit(m));
    assert [Read(m, line), Submit(m)][1..] == [Submit(m)] && [Submit(m)][1..] == [];
    forall l, r | 0 <= l < 4 && r in t.loops[l].inflight
      ensures r < |t.requests|
    {
      assert l != m ==> r in s.loops[l].inflight;
      assert l == m ==> r in s.loops[l].inflight || r == |s.requests|;
    }
  }

  /** Read one line too many and begin to wait. */
  lemma BlockOne(s: State, m: nat, line: Line) returns (t: State)
    requires Filling(s, m, MAX_IN_FLIGHT) && m < 4
    ensures Leads(s, [Read(m, line), Wait(m)], t) && Filling(t, m + 1, 0) && t.requests != []
  {
    var h := Step(s, Read(m, line));
    NothingPruned(h, h.loops[m].inflight);
    TwoSteps(s, Read(m, line), Wait(m));
    t := Step(h, Wait(m));
    StillLeft(h, m);
    BlockEffect(s, m, line);
    Blocked(s, m, t);
    assert s.loops[m].inflight[0] in s.loops[m].inflight;
  }

  lemma TwoSteps(s: State, a: Action, b: Action)
    requires Possible(s, a) && Possible(Step(s, a), b)
    ensures Leads(s, [a, b], Step(Step(s, a), b))
  {
    assert [a, b][1..] == [b] && [b][1..] == [];
  }

  lemma BlockEffect(s: State, m: nat, line: Line)
    requires Possible(s, Read(m, line)) && Possible(Step(s, Read(m, line)), Wait(m))
    requires Prune(Step(s, Read(m, line)), s.loops[m].inflight) == s.loops[m].inflight
    ensures
      var t := Step(Step(s, Read(m, line)), Wait(m));
      && t.running == s.running && |t.requests| == |s.requests| && |t.loops| == |s.loops|
      && t.loops[m].phase.Waiting? && t.loops[m].inflight == s.loops[m].inflight
      && forall l | 0 <= l < |s.loops| && l != m :: t.loops[l] == s.loops[l]
  {
  }

  lemma StillLeft(h: State, m: nat)
    requires Possible(h, Wait(m)) && forall r | 0 <= r < |h.requests| :: h.requests[r].left > 0
    ensures forall r | 0 <= r < |h.requests| :: Step(h, Wait(m)).requests[r].left > 0
  {
    forall r | 0 <= r < |h.requests|
      ensures Step(h, Wait(m)).requests[r].left > 0
    {
      RegisteredFacts(h.requests, Prune(h, h.loops[m].inflight), Wake(m, h.loops[m].waits), r);
    }
  }

  lemma Blocked(s: State, m: nat, t: State)
    requires Filling(s, m, MAX_IN_FLIGHT) && m < 4 && t.running == s.running && |t.requests| == |s.requests|
    requires forall r | 0 <= r < |t.requests| :: t.requests[r].left > 0
    requires |t.loops| == |s.loops| && t.loops[m].phase.Waiting? && t.loops[m].inflight == s.loops[m].inflight
    requires forall l | 0 <= l < |s.loops| && l != m :: t.loops[l] == s.loops[l]
    ensures Filling(t, m + 1, 0)
  {
    forall l, r | 0 <= l < 4 && r in t.loops[l].inflight
      ensures r < |t.requests|
    {
      assert r in s.loops[l].inflight;
    }
  }

  lemma {:induction false} LeadsAppend(s: State, xs: seq<Action>, t: State, ys: seq<Action>, u: State)
    requires Leads(s, xs, t) && Leads(t, ys, u)
    ensures Leads(s, xs + ys, u)
    decreases |xs|
  {
    if xs == [] {
      assert xs + ys == ys;
    } else {
      LeadsAppend(Step(s, xs[0]), xs[1..], t, ys, u);
      assert (xs + ys)[1..] == xs[1..] + ys;
    }
  }

  lemma {:induction false} FillAll(s: State, m: nat, k: nat, line: Line) returns (acts: seq<Action>, t: State)
    requires Filling(s, m, k) && m <= 4 && k <= MAX_IN_FLIGHT && line.Decoded?
    ensures Leads(s, acts, t) && Filling(t, 4, 0) && (m < 4 || s.requests != [] ==> t.requests != [])
    decreases 4 - m, MAX_IN_FLIGHT - k
  {
    if m == 4 {
      acts, t := [], s;
    } else {
      var u: State;
      var first: seq<Action>;
      var rest;
      if k < MAX_IN_FLIGHT {
        first := [Read(m, line), Submit(m)];
        u := FillOne(s, m, k, line);
        rest, t := FillAll(u, m, k + 1, line);
      } else {
        first := [Read(m, line), Wait(m)];
        u := BlockOne(s, m, line);
        rest, t := FillAll(u, m + 1, 0, line);
      }
      LeadsAppend(s, first, u, rest, t);
      acts := first + rest;
    }
  }

  /** The standstill is reachable: four connections that each send 65 lines before any stage gets a
      thread.  So the bound of three connections for progress cannot be raised. */
  lemma DeadlockReachable(line: Line) returns (acts: seq<Action>, t: State)
    requires line.Decoded?
    ensures Leads(INITIAL, acts, t) && Deadlocked(t) && Unfinished(t)
  {
    var s: State;
    acts, s := FourConnections();
    var more;
    more, t := FillAll(s, 0, 0, line);
    LeadsAppend(INITIAL, acts, s, more, t);
    acts := acts + more;
    assert t.requests[0].left > 0;
  }

  lemma FourConnections() returns (acts: seq<Action>, t: State)
    ensures Leads(INITIAL, acts, t) && Filling(t, 0, 0)
  {
    acts, t := [], INITIAL;
    var i := 0;
    while i < 4
      invariant 0 <= i <= 4 && Leads(INITIAL, acts, t)
      invariant t.queue == [] && t.requests == [] && |t.loops| == i && |t.running| == i
      invariant forall j | 0 <= j < i :: t.loops[j] == Loop(true, Reading, [], 0) && t.running[j] == LoopTask(j)
    {
      var u := Step(t, Open(true));
      var v := Step(u, Start);
      var two := [Open(true), Start];
      assert two[1..] == [Start] && [Start][1..] == [];
      assert Leads(t, two, v);
      LeadsAppend(INITIAL, acts, t, two, v);
      acts, t := acts + two, v;
      i := i + 1;
    }
  }
}

/** scala-adapter/src/main/scala/AdapterMain.scala, `streamLoop`: reading lines, keeping at most 64
    requests of a connection in flight, and waiting for them at the end of input. */
module StreamLoop {
  import opened AdapterPool

  /** The futures of one connection.  Their completion is the pool's business; here completed numbers
      only accumulate, at times the loop does not choose. */
  class Futures {
    var completed: set<nat>

    constructor ()
      ensures completed == {}
    {
      completed := {};
    }

    method TimePasses(news: set<nat>)
      modifies this
      ensures completed == old(completed) + news
    {
      completed := completed + news;
    }

    /** `Await.ready(Future.firstCompletedOf(pending), Duration.Inf)` */
    method AwaitFirst(pending: seq<nat>, news: set<nat>)
      requires pending != []
      modifies this
      ensures old(completed) + news <= completed && exists r :: r in pending && r in completed
    {
      completed := completed + news + {pending[0]};
    }

    /** `Await.result(Future.sequence(pending), ShutdownWait)`, which the environment lets end as it
        likes; only when all have succeeded has it waited for all. */
    method AwaitAll(pending: seq<nat>, news: set<nat>, farewell: Farewell)
      modifies this
      ensures old(completed) + news <= completed
      ensures farewell.Joined? ==> forall r | r in pending :: r in completed
    {
      completed := completed + news;
      if farewell.Joined? {
        completed := completed + set r | r in pending;
      }
    }
  }

  /** How a connection ends: with nothing in flight, with everything in flight waited for, after 30
      seconds, or as soon as a request has failed. */
  datatype Farewell = NothingLeft | Joined | TimedOut | RequestFailed

  class Connection {
    const futures: Futures
    var inflight: seq<nat>
    var submitted: seq<string>
    ghost var mostInFlight: nat

    ghost predicate Valid()
      reads this
    {
      && |inflight| <= mostInFlight <= MAX_IN_FLIGHT
      && (forall i | 0 <= i < |inflight| :: inflight[i] < |submitted|)
    }

    constructor ()
      ensures Valid() && fresh(futures) && inflight == [] && submitted == []
    {
      futures := new Futures();
      inflight, submitted := [], [];
      mostInFlight := 0;
    }

    /** Drop the completed requests, keeping the order of the others. */
    method PruneCompleted()
      requires Valid()
      modifies this`inflight
      ensures Valid() && inflight == Remaining(old(inflight), futures.completed)
    {
      var kept: seq<nat> := [];
      var i := 0;
      while i < |inflight|
        invariant 0 <= i <= |inflight| && kept == Remaining(inflight[..i], futures.completed)
      {
        assert inflight[..i + 1][..i] == inflight[..i];
        if inflight[i] !in futures.completed {
          kept := kept + [inflight[i]];
        }
        i := i + 1;
      }
      assert inflight[..i] == inflight;
      RemainingFacts(inflight, futures.completed);
      assert forall j | 0 <= j < |kept| :: kept[j] in kept;
      inflight := kept;
    }

    /** Returns with room for one more request, having dropped just the completed ones; it waits only
        while there is no room, and every wait lets at least one request complete. */
    method WaitForCapacity(news: set<nat>)
      requires Valid()
      modifies this`inflight, futures
      ensures Valid() && |inflight| < MAX_IN_FLIGHT
      ensures old(futures.completed) <= futures.completed
      ensures inflight == Remaining(old(inflight), futures.completed)
      ensures |Remaining(old(inflight), old(futures.completed))| < MAX_IN_FLIGHT ==>
                futures.completed == old(futures.completed)
    {
      PruneCompleted();
      while |inflight| >= MAX_IN_FLIGHT
        invariant Valid() && old(futures.completed) <= futures.completed
        invariant inflight == Remaining(old(inflight), futures.completed)
        invariant futures.completed == old(futures.completed)
               || |Remaining(old(inflight), old(futures.completed))| >= MAX_IN_FLIGHT
        decreases |inflight|
      {
        ghost var before := futures.completed;
        futures.AwaitFirst(inflight, news);
        RemainingDrops(inflight, futures.completed);
        RemainingAgain(old(inflight), before, futures.completed);
        PruneCompleted();
      }
    }

    /** One line: wait for room, submit it, count it as in flight. */
    method Submit(line: string, news: set<nat>)
      requires Valid()
      modifies this, futures
      ensures Valid() && submitted == old(submitted) + [line]
      ensures old(futures.completed) <= futures.completed
      ensures inflight == Remaining(old(inflight), futures.completed) + [|old(submitted)|]
    {
      WaitForCapacity(news);
      inflight := inflight + [|submitted|];
      submitted := submitted + [line];
      mostInFlight := if mostInFlight < |inflight| then |inflight| else mostInFlight;
    }

    /** The reading part: every line is submitted exactly once, in order; in the end exactly the
        requests that have not completed are in flight, in order of submission. */
    method ReadAll(lines: seq<string>, news: nat -> set<nat>)
      requires Valid() && submitted == [] && inflight == []
      modifies this, futures
      ensures Valid() && submitted == lines
      ensures inflight == Remaining(FirstNumbers(|lines|), futures.completed)
    {
      var i := 0;
      ghost var gone: set<nat> := {};
      assert FirstNumbers(0) == [];
      while i < |lines|
        invariant 0 <= i <= |lines| && submitted == lines[..i] && Valid()
        invariant gone <= futures.completed && inflight == Remaining(FirstNumbers(i), gone)
      {
        futures.TimePasses(news(i));
        Submit(lines[i], news(i));
        OneMoreInFlight(i, gone, futures.completed);
        gone := futures.completed - {i};
        i := i + 1;
      }
      RemainingAgain(FirstNumbers(i), gone, futures.completed);
      PruneCompleted();
    }

    /** The whole loop.  At the end of input the requests still in flight are waited for, and unless
        that times out or one of them fails, every request has completed when the loop returns. */
    method Run(lines: seq<string>, news: nat -> set<nat>, end: Farewell)
      returns (farewell: Farewell, ghost before: set<nat>)
      requires Valid() && submitted == [] && inflight == [] && !end.NothingLeft?
      modifies this, futures
      ensures Valid() && submitted == lines && mostInFlight <= 64
      ensures before <= futures.completed && inflight == Remaining(FirstNumbers(|lines|), before)
      ensures farewell == if inflight == [] then NothingLeft else end
      ensures farewell.NothingLeft? || farewell.Joined? ==> forall r: nat | r < |lines| :: r in futures.completed
    {
      ReadAll(lines, news);
      before := futures.completed;
      EveryoneGone(|lines|, before, inflight);
      farewell := NothingLeft;
      if inflight != [] {
        futures.AwaitAll(inflight, news(|lines|), end);
        farewell := end;
      }
    }
  }

  // ---------------------------------------------------------------------------------------------
  // What remains of the requests in flight
  // ---------------------------------------------------------------------------------------------

  /** The numbers that are not in `completed`, in order. */
  function Remaining(numbers: seq<nat>, completed: set<nat>): seq<nat> {
    if numbers == [] then []
    else
      var n := |numbers| - 1;
      Remaining(numbers[..n], completed) + (if numbers[n] in completed then [] else [numbers[n]])
  }

  function FirstNumbers(n: nat): (s: seq<nat>)
    ensures |s| == n && forall i | 0 <= i < n :: s[i] == i
  {
    seq(n, i => i)
  }

  lemma {:induction false} RemainingFacts(numbers: seq<nat>, completed: set<nat>)
    ensures |Remaining(numbers, completed)| <= |numbers|
    ensures forall r :: r in Remaining(numbers, completed) <==> r in numbers && r !in completed
  {
    if numbers != [] {
      var n := |numbers| - 1;
      RemainingFacts(numbers[..n], completed);
      assert numbers == numbers[..n] + [numbers[n]];
    }
  }

  lemma {:induction false} RemainingDrops(numbers: seq<nat>, completed: set<nat>)
    requires exists r :: r in numbers && r in completed
    ensures |Remaining(numbers, completed)| < |numbers|
  {
    var n := |numbers| - 1;
    RemainingFacts(numbers[..n], completed);
    if numbers[n] !in completed {
      assert numbers == numbers[..n] + [numbers[n]];
      RemainingDrops(numbers[..n], completed);
    }
  }

  lemma {:induction false} RemainingAgain(numbers: seq<nat>, c: set<nat>, d: set<nat>)
    requires c <= d
    ensures Remaining(Remaining(numbers, c), d) == Remaining(numbers, d)
  {
    if numbers != [] {
      var n := |numbers| - 1;
      var front := Remaining(numbers[..n], c);
      RemainingAgain(numbers[..n], c, d);
      if numbers[n] in c {
        assert front + [] == front;
      } else {
        assert (front + [numbers[n]])[..|front|] == front;
      }
    }
  }

  // ---------------------------------------------------------------------------------------------
  // The loop inside the pool
  // ---------------------------------------------------------------------------------------------

  /** `completed` holds of these requests exactly those the pool has finished. */
  ghost predicate Tells(completed: set<nat>, s: State, inflight: seq<nat>) {
    forall r | r in inflight :: r in completed <==> Completed(s, r)
  }

  lemma {:induction false} PruneIsRemaining(s: State, inflight: seq<nat>, completed: set<nat>)
    requires Tells(completed, s, inflight)
    ensures Prune(s, inflight) == Remaining(inflight, completed)
  {
    if inflight != [] {
      var n := |inflight| - 1;
      assert inflight == inflight[..n] + [inflight[n]];
      PruneIsRemaining(s, inflight[..n], completed);
    }
  }

  /** A loop of `AdapterPool` does what `Connection` does, with the pool's numbers for its requests: it
      submits exactly when pruning leaves room, and waits exactly when it does not; what is then in
      flight is what `Submit` and `PruneCompleted` leave. */
  lemma PoolLoopAgrees(s: State, l: nat, completed: set<nat>)
    requires l < |s.loops| && s.loops[l].phase.Holding? && Tells(completed, s, s.loops[l].inflight)
    ensures
      var left := Remaining(s.loops[l].inflight, completed);
      && (Possible(s, Submit(l)) <==> |left| < MAX_IN_FLIGHT)
      && (Possible(s, Wait(l)) <==> |left| >= MAX_IN_FLIGHT)
      && (Possible(s, Submit(l)) ==> Step(s, Submit(l)).loops[l].inflight == left + [|s.requests|])
      && (Possible(s, Wait(l)) ==> Step(s, Wait(l)).loops[l].inflight == left)
  {
    PruneIsRemaining(s, s.loops[l].inflight, completed);
  }

  /** A request is in flight or has completed. */
  lemma EveryoneGone(n: nat, completed: set<nat>, inflight: seq<nat>)
    requires inflight == Remaining(FirstNumbers(n), completed)
    ensures forall r: nat | r < n :: r in inflight || r in completed
  {
    RemainingFacts(FirstNumbers(n), completed);
    forall r: nat | r < n
      ensures r in FirstNumbers(n)
    {
      assert FirstNumbers(n)[r] == r;
    }
  }

  lemma OneMoreInFlight(i: nat, gone: set<nat>, completed: set<nat>)
    requires gone <= completed
    ensures Remaining(Remaining(FirstNumbers(i), gone), completed) + [i] == Remaining(FirstNumbers(i + 1),
        completed - {i})
  {
    RemainingAgain(FirstNumbers(i), gone, completed);
    StillInFlight(i, completed);
  }

  /** A request submitted now is in flight, even if its future completes at once. */
  lemma StillInFlight(i: nat, completed: set<nat>)
    ensures Remaining(FirstNumbers(i + 1), completed - {i}) == Remaining(FirstNumbers(i), completed) + [i]
  {
    assert FirstNumbers(i + 1)[..i] == FirstNumbers(i);
    SameRemaining(FirstNumbers(i), completed, completed - {i});
  }

  lemma {:induction false} SameRemaining(numbers: seq<nat>, c: set<nat>, d: set<nat>)
    requires forall r | r in numbers :: r in c <==> r in d
    ensures Remaining(numbers, c) == Remaining(numbers, d)
  {
    if numbers != [] {
      var n := |numbers| - 1;
      assert numbers == numbers[..n] + [numbers[n]];
      SameRemaining(numbers[..n], c, d);
    }
  }
}

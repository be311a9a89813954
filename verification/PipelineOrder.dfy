/** What a check reads, over whole runs of the pipeline: exactly the last edit the worker accepted
    before the command, or one sent after it.  The only way to read something older than the last
    edit is that the worker ignored that edit while a greater version was waiting. */
module PipelineOrder {
  import opened Protocol
  import opened Debounce
  import opened Pipeline

  // ---------------------------------------------------------------------------------------------
  // The last edit of a document
  // ---------------------------------------------------------------------------------------------

  /** The last of the first `k` edits that concerns `u`. */
  function LastSent(edits: seq<Edit>, u: Uri, k: nat): Option<nat>
    requires k <= |edits|
  {
    LastAccepted(edits, {}, u, k)
  }

  /** The last of the first `k` edits that concerns `u` and was not ignored. */
  function LastAccepted(edits: seq<Edit>, ignored: set<nat>, u: Uri, k: nat): Option<nat>
    requires k <= |edits|
  {
    if k == 0 then None
    else if edits[k - 1].uri == u && k - 1 !in ignored then Some(k - 1)
    else LastAccepted(edits, ignored, u, k - 1)
  }

  lemma {:induction false} AcceptedFacts(edits: seq<Edit>, ignored: set<nat>, u: Uri, k: nat)
    requires k <= |edits|
    ensures
      match LastAccepted(edits, ignored, u, k)
      case None => forall n: nat | n < k && edits[n].uri == u :: n in ignored
      case Some(w) =>
        && w < k && edits[w].uri == u && w !in ignored
        && forall n: nat | w < n < k && edits[n].uri == u :: n in ignored
  {
    if k > 0 && !(edits[k - 1].uri == u && k - 1 !in ignored) {
      AcceptedFacts(edits, ignored, u, k - 1);
    }
  }

  /** Later edits, and edits ignored later, make no difference. */
  lemma {:induction false} AcceptedStable(edits: seq<Edit>, ignored: set<nat>, edits': seq<Edit>,
                                          ignored': set<nat>, u: Uri, k: nat)
    requires k <= |edits| && edits <= edits' && forall n: nat | n < k :: n in ignored <==> n in ignored'
    ensures LastAccepted(edits', ignored', u, k) == LastAccepted(edits, ignored, u, k)
  {
    if k > 0 {
      AcceptedStable(edits, ignored, edits', ignored', u, k - 1);
    }
  }

  // ---------------------------------------------------------------------------------------------
  // The worker's side
  // ---------------------------------------------------------------------------------------------

  /** The channel holds the edits from number `r` on, in order, and each flush sits right after the
      edits that were sent before its command. */
  ghost predicate ChannelFrom(channel: seq<Item>, r: nat, count: nat, commands: seq<Command>) {
    if channel == [] then r == count
    else match channel[0]
      case EditItem(n) => n == r && r < count && ChannelFrom(channel[1..], r + 1, count, commands)
      case FlushItem(c) => c < |commands| && commands[c].mark == r && ChannelFrom(channel[1..], r, count, commands)
  }

  lemma {:induction false} ChannelEdit(channel: seq<Item>, r: nat, count: nat, commands: seq<Command>)
    requires ChannelFrom(channel, r, count, commands)
    ensures ChannelFrom(channel + [EditItem(count)], r, count + 1, commands)
  {
    var more := channel + [EditItem(count)];
    if channel == [] {
      assert more[1..] == [];
      assert ChannelFrom([], count + 1, count + 1, commands);
    } else {
      assert more[1..] == channel[1..] + [EditItem(count)];
      match channel[0] {
        case EditItem(_) => ChannelEdit(channel[1..], r + 1, count, commands);
        case FlushItem(_) => ChannelEdit(channel[1..], r, count, commands);
      }
    }
  }

  lemma {:induction false} ChannelFlush(channel: seq<Item>, r: nat, count: nat, commands: seq<Command>,
                                        command: Command)
    requires ChannelFrom(channel, r, count, commands) && command.mark == count
    ensures ChannelFrom(channel + [FlushItem(|commands|)], r, count, commands + [command])
  {
    var more := channel + [FlushItem(|commands|)];
    if channel == [] {
      assert more[1..] == [];
      assert ChannelFrom([], count, count, commands + [command]);
    } else {
      assert more[1..] == channel[1..] + [FlushItem(|commands|)];
      match channel[0] {
        case EditItem(_) => ChannelFlush(channel[1..], r + 1, count, commands, command);
        case FlushItem(_) => ChannelFlush(channel[1..], r, count, commands, command);
      }
    }
  }

  function Accepted(w: Upstream, u: Uri, k: nat): Option<nat>
    requires k <= |w.edits|
  {
    LastAccepted(w.edits, w.ignored, u, k)
  }

  predicate Sends(w: Upstream, u: Uri) {
    w.sending.Some? && w.sending.value < |w.edits| && w.edits[w.sending.value].uri == u
  }

  /** The newest edit of `u` that waits, is being sent or has been answered. */
  function Newest(w: Upstream, u: Uri): Option<nat> {
    if u in w.pending then Some(w.pending[u].item)
    else if Sends(w, u) then w.sending
    else Lookup(w.delivered, u)
  }

  /** Everything the worker holds is an edit it has received. */
  ghost predicate Held(w: Upstream) {
    && w.received <= |w.edits|
    && (forall u | u in w.pending ::
          && w.pending[u].item < w.received
          && w.pending[u] == EntryFor(w.edits, w.pending[u].item, w.pending[u].queuedAt) && w.pending[u].uri == u)
    && (w.sending.Some? ==> w.sending.value < w.received)
    && (forall n | n in w.ignored :: n < w.received)
  }

  /** While a flush is under way, every covered document still waiting is still on its list. */
  ghost predicate FlushUnderWay(w: Upstream) {
    && (w.mode.Idle? ==> w.sending.None?)
    && (w.mode.Visiting? && w.mode.ack.Some? ==>
          var c := w.mode.ack.value;
          && c < |w.commands| && w.commands[c].mark == w.received
          && forall u | u in w.pending && Covers(w.commands[c], u) :: u in w.targets)
  }

  /** `x` is the last accepted of the first `mark` edits of its document, or a later one. */
  predicate Fits(x: Option<nat>, last: Option<nat>, mark: nat) {
    x == last || (x.Some? && x.value >= mark)
  }

  /** Where document `u` stands for an acknowledged command: answered up to the last edit accepted
      before the command, with nothing older left anywhere. */
  ghost predicate SettledFor(w: Upstream, c: nat, u: Uri)
    requires c < |w.commands| && w.commands[c].mark <= |w.edits|
  {
    var mark := w.commands[c].mark;
    var last := Accepted(w, u, mark);
    && Fits(Lookup(w.delivered, u), last, mark)
    && (Sends(w, u) ==> w.sending.value >= mark)
    && (u in w.pending ==> w.pending[u].item >= mark)
  }

  ghost predicate Settled(w: Upstream, c: nat) {
    && c < |w.commands| && w.commands[c].mark <= w.received <= |w.edits|
    && forall u | Covers(w.commands[c], u) :: SettledFor(w, c, u)
  }

  /** An ignored edit lost against the edit accepted before it, which has a greater version. */
  ghost predicate Beaten(w: Upstream, n: nat) {
    n < |w.edits| &&
    var last := Accepted(w, w.edits[n].uri, n);
    last.Some? && last.value < n && w.edits[last.value].version > w.edits[n].version
  }

  ghost predicate InOrder(w: Upstream) {
    && Held(w)
    && ChannelFrom(w.channel, w.received, |w.edits|, w.commands)
    && FlushUnderWay(w)
    && (forall u :: Newest(w, u) == Accepted(w, u, w.received))
    && (forall c | c in w.acked :: Settled(w, c))
    && (forall n | n in w.ignored :: Beaten(w, n))
    && (forall c: nat | c < |w.commands| :: w.commands[c].mark <= |w.edits|)
  }

  /** What was settled or beaten stays so while histories grow. */
  lemma HistoryStable(w: Upstream, v: Upstream)
    requires InOrder(w) && w.edits <= v.edits && w.commands <= v.commands && w.received <= v.received <= |v.edits|
    requires w.ignored <= v.ignored && forall n | n in v.ignored && n !in w.ignored :: n >= w.received
    ensures forall u :: Accepted(v, u, w.received) == Accepted(w, u, w.received)
    ensures forall n | n in w.ignored :: Beaten(v, n)
    ensures forall c, u | c in w.acked :: Accepted(v, u, v.commands[c].mark) == Accepted(w, u, w.commands[c].mark)
  {
    forall u, k: nat | k <= w.received
      ensures Accepted(v, u, k) == Accepted(w, u, k)
    {
      AcceptedStable(w.edits, w.ignored, v.edits, v.ignored, u, k);
    }
    forall n | n in w.ignored
      ensures Beaten(v, n)
    {
      assert Beaten(w, n);
      assert Accepted(v, w.edits[n].uri, n) == Accepted(w, w.edits[n].uri, n);
    }
    forall c, u | c in w.acked
      ensures Accepted(v, u, v.commands[c].mark) == Accepted(w, u, w.commands[c].mark)
    {
      assert Settled(w, c);
    }
  }

  lemma SettledStay(w: Upstream, v: Upstream)
    requires InOrder(w) && w.edits <= v.edits && w.commands <= v.commands && w.received <= v.received <= |v.edits|
    requires w.ignored <= v.ignored && forall n | n in v.ignored && n !in w.ignored :: n >= w.received
    requires v.delivered == w.delivered && v.sending == w.sending && v.acked == w.acked
    requires forall u | u in v.pending ::
               (u in w.pending && v.pending[u] == w.pending[u]) || v.pending[u].item >= w.received
    ensures forall c | c in v.acked :: Settled(v, c)
  {
    HistoryStable(w, v);
    forall c | c in v.acked
      ensures Settled(v, c)
    {
      assert Settled(w, c);
      forall u | Covers(v.commands[c], u)
        ensures SettledFor(v, c, u)
      {
        assert SettledFor(w, c, u);
      }
    }
  }

  lemma OrderChange(w: Upstream, e: Edit)
    requires InOrder(w)
    ensures InOrder(WorkerStep(w, Change(e)))
  {
    var v := WorkerStep(w, Change(e));
    ChannelEdit(w.channel, w.received, |w.edits|, w.commands);
    HistoryStable(w, v);
    SettledStay(w, v);
  }

  lemma OrderCommand(w: Upstream, target: Option<Uri>)
    requires InOrder(w)
    ensures InOrder(WorkerStep(w, RunCheck(target)))
  {
    var v := WorkerStep(w, RunCheck(target));
    ChannelFlush(w.channel, w.received, |w.edits|, w.commands, Command(target, |w.edits|));
    HistoryStable(w, v);
    SettledStay(w, v);
  }

  /** An edit taken from the channel is the newest of its document, unless it is ignored; then the
      newest is a waiting edit of greater version. */
  lemma OrderEdit(w: Upstream, n: nat, at: nat)
    requires InOrder(w) && w.mode.Idle? && w.channel != [] && w.channel[0] == EditItem(n)
    ensures n == w.received < |w.edits| && InOrder(EditReceived(w, n, at))
  {
    var v := EditReceived(w, n, at);
    HistoryStable(w, v);
    SettledStay(w, v);
    NewestAfterEdit(w, v, n, at);
    if Rejects(w, n) {
      var u := w.edits[n].uri;
      assert Newest(w, u) == Accepted(w, u, n);
      AcceptedFacts(w.edits, w.ignored, u, n);
      AcceptedStable(w.edits, w.ignored, v.edits, v.ignored, u, n);
      assert Beaten(v, n);
    }
  }

  lemma NewestAfterEdit(w: Upstream, v: Upstream, n: nat, at: nat)
    requires InOrder(w) && n == w.received < |w.edits| && w.channel != [] && v == EditReceived(w, n, at)
    ensures forall u :: Newest(v, u) == Accepted(v, u, v.received)
  {
    forall u
      ensures Newest(v, u) == Accepted(v, u, v.received)
    {
      AcceptedStable(w.edits, w.ignored, v.edits, v.ignored, u, n);
      assert Newest(w, u) == Accepted(w, u, n);
    }
  }

  lemma OrderFlush(w: Upstream, at: nat, order: seq<Uri>)
    requires InOrder(w) && WorkerPossible(w, WorkerReceive(at, order)) && w.channel[0].FlushItem?
    ensures InOrder(WorkerStep(w, WorkerReceive(at, order)))
  {
    OrderSame(w, WorkerStep(w, WorkerReceive(at, order)));
  }

  /** Nothing moved except the channel and the list of documents to visit. */
  lemma OrderSame(w: Upstream, v: Upstream)
    requires InOrder(w)
    requires v == w.(channel := v.channel, mode := v.mode, targets := v.targets, issued := v.issued)
    requires ChannelFrom(v.channel, v.received, |v.edits|, v.commands) && FlushUnderWay(v)
    ensures InOrder(v)
  {
    HistoryStable(w, v);
    SettledStay(w, v);
    forall u
      ensures Newest(v, u) == Accepted(v, u, v.received)
    {
      assert Newest(w, u) == Accepted(w, u, w.received);
    }
  }

  lemma OrderVisit(w: Upstream)
    requires InOrder(w) && WorkerPossible(w, WorkerVisit)
    ensures InOrder(WorkerStep(w, WorkerVisit))
  {
    var v := WorkerStep(w, WorkerVisit);
    var u := w.targets[0];
    assert w.targets == [u] + w.targets[1..];
    assert FlushUnderWay(v);
    if u in w.pending {
      OrderTaken(w, v, u);
    } else {
      OrderSame(w, v);
    }
  }

  /** The waiting entry of `u` is now being sent. */
  lemma OrderTaken(w: Upstream, v: Upstream, u: Uri)
    requires InOrder(w) && w.mode.Visiting? && w.sending.None? && u in w.pending && FlushUnderWay(v)
    requires v == w.(targets := v.targets, pending := w.pending - {u}, sending := Some(w.pending[u].item))
    ensures InOrder(v)
  {
    HistoryStable(w, v);
    forall x
      ensures Newest(v, x) == Accepted(v, x, v.received)
    {
      assert Newest(w, x) == Accepted(w, x, w.received);
    }
    forall c | c in v.acked
      ensures Settled(v, c)
    {
      assert Settled(w, c);
      forall x | Covers(v.commands[c], x)
        ensures SettledFor(v, c, x)
      {
        assert SettledFor(w, c, x);
      }
    }
  }

  /** When the last covered document has been visited, each one is answered up to its last accepted
      edit. */
  lemma OrderFinish(w: Upstream)
    requires InOrder(w) && WorkerPossible(w, WorkerFinish)
    ensures InOrder(WorkerStep(w, WorkerFinish))
    ensures w.mode.ack.Some? ==> AnsweredExactly(WorkerStep(w, WorkerFinish), w.mode.ack.value)
  {
    var v := WorkerStep(w, WorkerFinish);
    HistoryStable(w, v);
    forall u
      ensures Newest(v, u) == Accepted(v, u, v.received)
    {
      assert Newest(w, u) == Accepted(w, u, w.received);
    }
    forall c | c in v.acked
      ensures Settled(v, c)
    {
      if c in w.acked {
        assert Settled(w, c);
        forall u | Covers(v.commands[c], u)
          ensures SettledFor(v, c, u)
        {
          assert SettledFor(w, c, u);
        }
      } else {
        forall u | Covers(v.commands[c], u)
          ensures SettledFor(v, c, u)
        {
          assert Newest(w, u) == Lookup(w.delivered, u);
        }
      }
    }
  }

  /** For every covered document the last push answered is exactly the last edit accepted before the
      command. */
  ghost predicate AnsweredExactly(w: Upstream, c: nat) {
    && c < |w.commands| && w.commands[c].mark <= |w.edits|
    && forall u | Covers(w.commands[c], u) :: Lookup(w.delivered, u) == Accepted(w, u, w.commands[c].mark)
  }

  /** The push of edit `n` has been answered. */
  lemma OrderDelivered(w: Upstream, n: nat)
    requires InOrder(w) && w.sending == Some(n) && n < |w.edits|
    ensures InOrder(Delivered(w, n))
  {
    var v := Delivered(w, n);
    HistoryStable(w, v);
    forall u
      ensures Newest(v, u) == Accepted(v, u, v.received)
    {
      assert Newest(w, u) == Accepted(w, u, w.received);
    }
    forall c | c in v.acked
      ensures Settled(v, c)
    {
      assert Settled(w, c);
      forall u | Covers(v.commands[c], u)
        ensures SettledFor(v, c, u)
      {
        assert SettledFor(w, c, u);
      }
    }
  }

  lemma OrderWorker(w: Upstream, a: Action)
    requires InOrder(w) && a.OfWorker() && WorkerPossible(w, a)
    ensures InOrder(WorkerStep(w, a))
  {
    match a {
      case Change(e) => OrderChange(w, e);
      case RunCheck(target) => OrderCommand(w, target);
      case WorkerReceive(at, order) =>
        if w.channel[0].EditItem? {
          OrderEdit(w, w.channel[0].n, at);
        } else {
          OrderFlush(w, at, order);
        }
      case WorkerTick(_, _) => OrderSame(w, WorkerStep(w, a));
      case WorkerVisit => OrderVisit(w);
      case WorkerFinish => OrderFinish(w);
    }
  }
}

/** The language server's publishing calls as it runs them: maps and vectors updated in place, one
    notification at a time. */
module DiagnosticsServer {
  import opened Protocol
  import opened HashOrder
  import opened Publishing

  class Server {
    var publishedTargets: map<Uri, seq<Uri>>
    var documents: set<Uri>
    var sent: seq<Notification>

    function Snapshot(): State
      reads this
    {
      State(publishedTargets, documents, sent)
    }

    constructor ()
      ensures Snapshot() == INITIAL
    {
      publishedTargets, documents, sent := map[], {}, [];
    }

    method Notify(uri: Uri, diagnostics: seq<LspDiagnostic>, version: Option<int>)
      modifies this`sent
      ensures sent == old(sent) + [Notification(uri, diagnostics, version)]
    {
      sent := sent + [Notification(uri, diagnostics, version)];
    }

    /** A response that is not a decodable list of diagnostics changes nothing. */
    method PublishDiagnosticsFor(uri: Uri, version: int, response: Message, parse: UrlParser)
      returns (ok: bool, ghost e: Event)
      modifies this`publishedTargets, this`sent
      ensures ok <==> response.kind.Diagnostics? && response.payload.DiagnosticsBody?
      ensures e.call == if ok then Publish(uri, version, Grouped(response.payload.items, uri, parse)) else Refused(uri)
      ensures Possible(old(Snapshot()), e) && Snapshot() == Step(old(Snapshot()), e)
    {
      e := Event(Refused(uri), [], []);
      if !response.kind.Diagnostics? || !response.payload.DiagnosticsBody? {
        return false, e;
      }
      var grouped := Group(response.payload.items, uri, parse);
      var keys := InSomeOrder(grouped.Keys);
      var previous := if uri in publishedTargets then publishedTargets[uri] else [];
      publishedTargets := publishedTargets[uri := keys];

      NotifyStale(previous, uri, version, grouped);
      var walk := InSomeOrder(grouped.Keys);
      NotifyGroups(walk, uri, version, grouped);
      e := Event(Publish(uri, version, grouped), keys, walk);
      return true, e;
    }

    /** Blank the previous targets that have no group any more. */
    method NotifyStale(previous: seq<Uri>, uri: Uri, version: int, grouped: map<Uri, seq<LspDiagnostic>>)
      requires uri in grouped
      modifies this`sent
      ensures sent == old(sent) + Blank(Without(previous, grouped.Keys))
    {
      var i := 0;
      while i < |previous|
        invariant 0 <= i <= |previous|
        invariant sent == old(sent) + Blank(Without(previous[..i], grouped.Keys))
      {
        assert previous[..i + 1][..i] == previous[..i];
        if previous[i] !in grouped {
          Notify(previous[i], [], if previous[i] == uri then Some(ClientVersion(version)) else None);
        }
        i := i + 1;
      }
      assert previous[..i] == previous;
    }

    method NotifyGroups(walk: seq<Uri>, uri: Uri, version: int, grouped: map<Uri, seq<LspDiagnostic>>)
      requires forall i | 0 <= i < |walk| :: walk[i] in grouped
      modifies this`sent
      ensures sent == old(sent) + Fresh(uri, version, grouped, walk)
    {
      var i := 0;
      while i < |walk|
        invariant 0 <= i <= |walk|
        invariant sent == old(sent) + Fresh(uri, version, grouped, walk[..i])
      {
        Notify(walk[i], grouped[walk[i]], if walk[i] == uri then Some(ClientVersion(version)) else None);
        assert walk[..i + 1] == walk[..i] + [walk[i]];
        i := i + 1;
      }
      assert walk[..i] == walk;
    }

    method ClearDiagnosticsForUri(uri: Uri) returns (ghost e: Event)
      modifies this
      ensures e.call == Close(uri)
      ensures Possible(old(Snapshot()), e) && Snapshot() == Step(old(Snapshot()), e)
    {
      documents := documents - {uri};
      var related := if uri in publishedTargets then publishedTargets[uri] else [];
      publishedTargets := publishedTargets - {uri};
      BlankAll(related);
      Notify(uri, [], None);
      e := Event(Close(uri), [], []);
    }

    method ClearDiagnostics() returns (ghost e: Event)
      modifies this`publishedTargets, this`sent
      ensures e.call == Stop
      ensures Possible(old(Snapshot()), e) && Snapshot() == Step(old(Snapshot()), e)
    {
      var requests := InSomeOrder(publishedTargets.Keys);
      var all: seq<Uri> := [];
      var i := 0;
      while i < |requests|
        invariant 0 <= i <= |requests|
        invariant forall t :: t in all <==> exists j :: 0 <= j < i && t in publishedTargets[requests[j]]
      {
        all := all + publishedTargets[requests[i]];
        i := i + 1;
      }
      forall t
        ensures t in all <==> t in Registered(Snapshot())
      {
        if t in Registered(Snapshot()) {
          var r, k :| r in publishedTargets && 0 <= k < |publishedTargets[r]| && publishedTargets[r][k] == t;
          var j :| 0 <= j < |requests| && requests[j] == r;
        }
      }
      publishedTargets := map[];
      BlankAll(all);
      var open := InSomeOrder(documents);
      BlankAll(open);
      e := Event(Stop, all, open);
    }

    method BlankAll(list: seq<Uri>)
      modifies this`sent
      ensures sent == old(sent) + Blank(list)
    {
      var i := 0;
      while i < |list|
        invariant 0 <= i <= |list|
        invariant sent == old(sent) + Blank(list[..i])
      {
        Notify(list[i], [], None);
        assert Blank(list[..i + 1]) == Blank(list[..i]) + [Notification(list[i], [], None)];
        i := i + 1;
      }
      assert list[..i] == list;
    }
  }

  /** The map the grouping loop has built after these diagnostics. */
  ghost function Collected(seen: seq<Diagnostic>, uri: Uri, parse: UrlParser): map<Uri, seq<LspDiagnostic>> {
    if seen == [] then map[]
    else
      var n := |seen| - 1;
      AddTo(Collected(seen[..n], uri, parse), Target(seen[n], uri, parse), ToLsp(seen[n]))
  }

  ghost function AddTo(grouped: map<Uri, seq<LspDiagnostic>>, t: Uri, d: LspDiagnostic): map<Uri, seq<LspDiagnostic>> {
    grouped[t := (if t in grouped then grouped[t] else []) + [d]]
  }

  lemma {:induction false} CollectedAt(seen: seq<Diagnostic>, uri: Uri, parse: UrlParser, t: Uri)
    ensures var g := Collected(seen, uri, parse);
            && (if t in g then g[t] else []) == GroupFor(seen, uri, parse, t)
            && (t in g ==> g[t] != [])
  {
    if seen != [] {
      CollectedAt(seen[..|seen| - 1], uri, parse, t);
    }
  }

  method Group(payload: seq<Diagnostic>, uri: Uri, parse: UrlParser) returns (grouped: map<Uri, seq<LspDiagnostic>>)
    ensures grouped == Grouped(payload, uri, parse)
  {
    grouped := map[];
    var i := 0;
    while i < |payload|
      invariant 0 <= i <= |payload|
      invariant grouped == Collected(payload[..i], uri, parse)
    {
      var target := match parse(payload[i].uri) case Some(u) => u case None => uri;
      assert payload[..i + 1][..i] == payload[..i];
      var sofar := if target in grouped then grouped[target] else [];
      grouped := grouped[target := sofar + [ToLsp(payload[i])]];
      i := i + 1;
    }
    assert payload[..i] == payload;
    CollectedAll(payload, uri, parse);
    if uri !in grouped {
      grouped := grouped[uri := []];
    }
  }

  lemma CollectedAll(payload: seq<Diagnostic>, uri: Uri, parse: UrlParser)
    ensures var g := Collected(payload, uri, parse);
            (if uri in g then g else g[uri := []]) == Grouped(payload, uri, parse)
  {
    var g := Collected(payload, uri, parse);
    var complete := if uri in g then g else g[uri := []];
    forall t
      ensures t in complete <==> t in Targets(payload, uri, parse)
      ensures t in complete ==> complete[t] == GroupFor(payload, uri, parse, t)
    {
      CollectedAt(payload, uri, parse, t);
      GroupInhabited(payload, uri, parse, t);
    }
  }

  lemma GroupInhabited(payload: seq<Diagnostic>, uri: Uri, parse: UrlParser, t: Uri)
    ensures GroupFor(payload, uri, parse, t) != []
        <==> exists i :: 0 <= i < |payload| && Target(payload[i], uri, parse) == t
  {
    GroupIsStable(payload, uri, parse, t);
    var at := Positions(payload, uri, parse, t);
    if at != [] {
      PositionsExact(payload, uri, parse, t, at[0]);
    }
    forall i | 0 <= i < |payload| && Target(payload[i], uri, parse) == t
      ensures at != []
    {
      PositionsExact(payload, uri, parse, t, i);
    }
  }
}

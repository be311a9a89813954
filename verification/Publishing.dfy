/** isabelle-lsp/src/main.rs, `publish_diagnostics_for`, `clear_diagnostics_for_uri` and
    `clear_diagnostics`: publishing diagnostics per target and clearing the stale ones.

    Each of the three calls is one atomic step. */
module Publishing {
  import opened Protocol
  import opened HashOrder

  datatype LspPosition = LspPosition(line: int, character: int)

  datatype LspRange = LspRange(start: LspPosition, end: LspPosition)

  datatype LspSeverity = ERROR | WARNING | INFORMATION

  datatype LspDiagnostic = LspDiagnostic(range: LspRange, severity: LspSeverity, message: string, source: string)

  const U32_MAX := 0xFFFF_FFFF
  const I32_MIN := -0x8000_0000
  const I32_MAX := 0x7FFF_FFFF

  // ---------------------------------------------------------------------------------------------
  // Converting one diagnostic
  // ---------------------------------------------------------------------------------------------

  /** From a 1-based index to a 0-based one, saturating at both ends. */
  function IndexToLsp(value: int): int {
    if value <= 1 then 0
    else if value - 1 <= U32_MAX then value - 1
    else U32_MAX
  }

  function PositionToLsp(p: Position): LspPosition {
    LspPosition(IndexToLsp(p.line), IndexToLsp(p.col))
  }

  function SeverityToLsp(s: Severity): LspSeverity {
    match s
    case Error => ERROR
    case Warning => WARNING
    case Info => INFORMATION
  }

  function ToLsp(d: Diagnostic): LspDiagnostic {
    LspDiagnostic(LspRange(PositionToLsp(d.range.start), PositionToLsp(d.range.end)),
                  SeverityToLsp(d.severity), d.message, "isabelle")
  }

  /** An indices pair is exact when both lie in 1..2^32. */
  predicate Exact(p: Position) {
    1 <= p.line <= U32_MAX + 1 && 1 <= p.col <= U32_MAX + 1
  }

  predicate Before(p: Position, q: Position) {
    p.line < q.line || (p.line == q.line && p.col < q.col)
  }

  predicate LspBefore(p: LspPosition, q: LspPosition) {
    p.line < q.line || (p.line == q.line && p.character < q.character)
  }

  /** Exact positions convert without collisions and keep their order, in both directions. */
  lemma PositionOrderKept(p: Position, q: Position)
    requires Exact(p) && Exact(q)
    ensures PositionToLsp(p) == PositionToLsp(q) <==> p == q
    ensures LspBefore(PositionToLsp(p), PositionToLsp(q)) <==> Before(p, q)
  {
  }

  /** Two indices collide exactly when they are equal or saturate at the same end. */
  lemma IndexCollides(v: int, w: int)
    ensures IndexToLsp(v) == IndexToLsp(w) <==>
            v == w || (v <= 1 && w <= 1) || (v > U32_MAX && w > U32_MAX)
  {
  }

  /** The version the client is told: one that does not fit 32 bits is reported as the largest. */
  function ClientVersion(version: int): int {
    if I32_MIN <= version <= I32_MAX then version else I32_MAX
  }

  // ---------------------------------------------------------------------------------------------
  // Grouping
  // ---------------------------------------------------------------------------------------------

  /** URL parsing is the library's; a diagnostic with an unparsable URI goes to the request URI. */
  type UrlParser = string -> Option<Uri>

  function Target(d: Diagnostic, request: Uri, parse: UrlParser): Uri {
    match parse(d.uri)
    case Some(u) => u
    case None => request
  }

  function GroupFor(payload: seq<Diagnostic>, request: Uri, parse: UrlParser, t: Uri): seq<LspDiagnostic> {
    if payload == [] then []
    else
      var n := |payload| - 1;
      GroupFor(payload[..n], request, parse, t) +
      (if Target(payload[n], request, parse) == t then [ToLsp(payload[n])] else [])
  }

  function Targets(payload: seq<Diagnostic>, request: Uri, parse: UrlParser): set<Uri> {
    {request} + set i | 0 <= i < |payload| :: Target(payload[i], request, parse)
  }

  function Grouped(payload: seq<Diagnostic>, request: Uri, parse: UrlParser): map<Uri, seq<LspDiagnostic>> {
    map t | t in Targets(payload, request, parse) :: GroupFor(payload, request, parse, t)
  }

  /** The positions of the payload that resolve to `t`. */
  function Positions(payload: seq<Diagnostic>, request: Uri, parse: UrlParser, t: Uri): (at: seq<int>)
    ensures forall k | 0 <= k < |at| :: 0 <= at[k] < |payload|
  {
    if payload == [] then []
    else
      var n := |payload| - 1;
      Positions(payload[..n], request, parse, t) + (if Target(payload[n], request, parse) == t then [n] else [])
  }

  /** They are listed in increasing order, and they are exactly the positions that resolve to `t`. */
  lemma {:induction false} PositionsExact(payload: seq<Diagnostic>, request: Uri, parse: UrlParser, t: Uri, i: nat)
    requires i < |payload|
    ensures i in Positions(payload, request, parse, t) <==> Target(payload[i], request, parse) == t
  {
    var n := |payload| - 1;
    var front := Positions(payload[..n], request, parse, t);
    if i < n {
      PositionsExact(payload[..n], request, parse, t, i);
    } else {
      assert forall k | 0 <= k < |front| :: front[k] < n;
    }
  }

  lemma {:induction false} PositionsAscend(payload: seq<Diagnostic>, request: Uri, parse: UrlParser, t: Uri)
    ensures Ascending(Positions(payload, request, parse, t))
  {
    if payload != [] {
      var n := |payload| - 1;
      PositionsAscend(payload[..n], request, parse, t);
      assert forall k | 0 <= k < |Positions(payload[..n], request, parse, t)| ::
          Positions(payload[..n], request, parse, t)[k] < n;
    }
  }

  ghost predicate Ascending(xs: seq<int>) {
    forall j, k | 0 <= j < k < |xs| :: xs[j] < xs[k]
  }

  /** A group is the subsequence of the payload at those positions, converted, in order. */
  lemma {:induction false} GroupIsStable(payload: seq<Diagnostic>, request: Uri, parse: UrlParser, t: Uri)
    ensures
      var at, group := Positions(payload, request, parse, t), GroupFor(payload, request, parse, t);
      |at| == |group| && forall k | 0 <= k < |at| :: group[k] == ToLsp(payload[at[k]])
  {
    if payload != [] {
      GroupIsStable(payload[..|payload| - 1], request, parse, t);
    }
  }

  function Converted(payload: seq<Diagnostic>): (ds: seq<LspDiagnostic>)
    ensures |ds| == |payload| && forall i | 0 <= i < |payload| :: ds[i] == ToLsp(payload[i])
  {
    seq(|payload|, i requires 0 <= i < |payload| => ToLsp(payload[i]))
  }

  /** Everything published, when the groups go out in this order. */
  function Concat(payload: seq<Diagnostic>, request: Uri, parse: UrlParser, order: seq<Uri>): seq<LspDiagnostic> {
    if order == [] then []
    else
      var n := |order| - 1;
      Concat(payload, request, parse, order[..n]) + GroupFor(payload, request, parse, order[n])
  }

  /** Nothing is lost, duplicated or invented: in whatever order the groups are published, together
      they are the converted payload. */
  lemma GroupingConserves(payload: seq<Diagnostic>, request: Uri, parse: UrlParser, order: seq<Uri>)
    requires Walks(order, Targets(payload, request, parse))
    ensures
      var all := Concat(payload, request, parse, order);
      |all| == |payload| && multiset(all) == multiset(Converted(payload))
  {
    ConcatCounts(payload, request, parse, order);
    var all := Concat(payload, request, parse, order);
    assert |multiset(all)| == |all| && |multiset(Converted(payload))| == |payload|;
  }

  lemma {:induction false} ConcatCounts(payload: seq<Diagnostic>, request: Uri, parse: UrlParser, order: seq<Uri>)
    requires forall i, j | 0 <= i < j < |order| :: order[i] != order[j]
    requires forall i | 0 <= i < |payload| :: Target(payload[i], request, parse) in order
    ensures multiset(Concat(payload, request, parse, order)) == multiset(Converted(payload))
  {
    if payload == [] {
      ConcatOfNothing(request, parse, order);
    } else {
      var front, d := payload[..|payload| - 1], payload[|payload| - 1];
      assert payload == front + [d];
      ConcatCounts(front, request, parse, order);
      var k :| 0 <= k < |order| && order[k] == Target(d, request, parse);
      ConcatGrows(front, d, request, parse, order, k);
      assert Converted(payload) == Converted(front) + [ToLsp(d)];
    }
  }

  lemma {:induction false} ConcatOfNothing(request: Uri, parse: UrlParser, order: seq<Uri>)
    ensures Concat([], request, parse, order) == []
  {
    if order != [] {
      ConcatOfNothing(request, parse, order[..|order| - 1]);
    }
  }

  lemma GroupAppend(front: seq<Diagnostic>, d: Diagnostic, request: Uri, parse: UrlParser, t: Uri)
    ensures GroupFor(front + [d], request, parse, t) ==
            GroupFor(front, request, parse, t) + (if Target(d, request, parse) == t then [ToLsp(d)] else [])
  {
    assert (front + [d])[..|front|] == front;
  }

  lemma {:induction false} ConcatMisses(front: seq<Diagnostic>, d: Diagnostic, request: Uri, parse: UrlParser,
                                        order: seq<Uri>)
    requires forall i | 0 <= i < |order| :: order[i] != Target(d, request, parse)
    ensures Concat(front + [d], request, parse, order) == Concat(front, request, parse, order)
  {
    if order != [] {
      ConcatMisses(front, d, request, parse, order[..|order| - 1]);
      GroupAppend(front, d, request, parse, order[|order| - 1]);
    }
  }

  /** One more diagnostic lands in one group, once. */
  lemma {:induction false} ConcatGrows(front: seq<Diagnostic>, d: Diagnostic, request: Uri, parse: UrlParser,
                                       order: seq<Uri>, k: nat)
    requires forall i, j | 0 <= i < j < |order| :: order[i] != order[j]
    requires k < |order| && order[k] == Target(d, request, parse)
    ensures multiset(Concat(front + [d], request, parse, order)) ==
            multiset(Concat(front, request, parse, order)) + multiset{ToLsp(d)}
  {
    var rest, t := order[..|order| - 1], order[|order| - 1];
    var before, group := Concat(front, request, parse, rest), GroupFor(front, request, parse, t);
    GroupAppend(front, d, request, parse, t);
    assert Concat(front, request, parse, order) == before + group;
    if k == |order| - 1 {
      ConcatMisses(front, d, request, parse, rest);
      AppendCounts(before, group, ToLsp(d));
    } else {
      ConcatGrows(front, d, request, parse, rest, k);
      var after := Concat(front + [d], request, parse, rest);
      assert group + [] == group;
      assert Concat(front + [d], request, parse, order) == after + group;
      ExtendCounts(after, before, group, ToLsp(d));
    }
  }

  lemma ExtendCounts<A>(xs: seq<A>, ys: seq<A>, zs: seq<A>, a: A)
    requires multiset(xs) == multiset(ys) + multiset{a}
    ensures multiset(xs + zs) == multiset(ys + zs) + multiset{a}
  {
  }

  lemma AppendCounts<A>(xs: seq<A>, ys: seq<A>, z: A)
    ensures multiset(xs + (ys + [z])) == multiset(xs + ys) + multiset{z}
  {
    assert xs + (ys + [z]) == xs + ys + [z];
  }

  // ---------------------------------------------------------------------------------------------
  // What the client shows
  // ---------------------------------------------------------------------------------------------

  datatype Notification = Notification(uri: Uri, diagnostics: seq<LspDiagnostic>, version: Option<int>)

  /** A newly published list replaces the earlier one for the same URI; nothing is merged
      (Language Server Protocol 3.17, "PublishDiagnostics Notification"). */
  function Visible(sent: seq<Notification>, t: Uri): seq<LspDiagnostic> {
    if sent == [] then []
    else
      var n := |sent| - 1;
      if sent[n].uri == t then sent[n].diagnostics else Visible(sent[..n], t)
  }

  /** `targets` maps a request URI to the URIs its latest response was published to. */
  datatype State = State(targets: map<Uri, seq<Uri>>, documents: set<Uri>, sent: seq<Notification>)

  const INITIAL := State(map[], {}, [])

  datatype Call =
    | Open(uri: Uri)
    | Publish(uri: Uri, version: int, groups: map<Uri, seq<LspDiagnostic>>)
    | Refused(uri: Uri)           // a response of the wrong type, or one that does not decode
    | Close(uri: Uri)
    | Stop

  /** `keys` and `walk` are the orders in which the call walks its hash maps. */
  datatype Event = Event(call: Call, keys: seq<Uri>, walk: seq<Uri>)

  function Blank(list: seq<Uri>): (ns: seq<Notification>)
    ensures |ns| == |list| && forall i | 0 <= i < |list| :: ns[i] == Notification(list[i], [], None)
  {
    seq(|list|, i requires 0 <= i < |list| => Notification(list[i], [], None))
  }

  function Without(list: seq<Uri>, gone: set<Uri>): seq<Uri> {
    if list == [] then []
    else
      var n := |list| - 1;
      Without(list[..n], gone) + (if list[n] in gone then [] else [list[n]])
  }

  function Fresh(u: Uri, version: int, groups: map<Uri, seq<LspDiagnostic>>, walk: seq<Uri>): (ns: seq<Notification>)
    requires forall i | 0 <= i < |walk| :: walk[i] in groups
    ensures |ns| == |walk|
    ensures forall i | 0 <= i < |walk| ::
              ns[i] == Notification(walk[i], groups[walk[i]],
                                    if walk[i] == u then Some(ClientVersion(version)) else None)
  {
    seq(|walk|, i requires 0 <= i < |walk| =>
      Notification(walk[i], groups[walk[i]], if walk[i] == u then Some(ClientVersion(version)) else None))
  }

  function TargetsOf(s: State, u: Uri): seq<Uri> {
    if u in s.targets then s.targets[u] else []
  }

  function Registered(s: State): set<Uri> {
    set r, i | r in s.targets && 0 <= i < |s.targets[r]| :: s.targets[r][i]
  }

  ghost predicate Possible(s: State, e: Event) {
    match e.call
    case Publish(u, _, groups) => u in groups && Walks(e.keys, groups.Keys) && Walks(e.walk, groups.Keys)
    case Stop => (forall t :: t in e.keys <==> t in Registered(s)) && Walks(e.walk, s.documents)
    case _ => true
  }

  ghost function Step(s: State, e: Event): State
    requires Possible(s, e)
  {
    match e.call
    case Open(u) => s.(documents := s.documents + {u})
    case Publish(u, version, groups) =>
      s.(targets := s.targets[u := e.keys],
         sent := s.sent + Blank(Without(TargetsOf(s, u), groups.Keys)) + Fresh(u, version, groups, e.walk))
    case Refused(_) => s
    case Close(u) =>
      State(s.targets - {u}, s.documents - {u}, s.sent + Blank(TargetsOf(s, u)) + Blank([u]))
    case Stop => State(map[], s.documents, s.sent + Blank(e.keys) + Blank(e.walk))
  }
}

/** scripts/install_zed_shortcuts.sh, the embedded Python: which keys a keymap text already binds
    (`extract_used_binding_keys`) and which candidates are chosen (`choose_keys`). */
module KeymapKeys {
  import opened Protocol
  import opened KeymapMarkers
  import opened Text

  /** Python's Unicode tables: `str.lower` and `str.isdigit` of one character. */
  datatype Unicode = Unicode(lower: string -> string, isDigit: char -> bool)

  /** What is needed of lower-casing: a closing bracket stays one. */
  ghost predicate KeepsBracket(u: Unicode) {
    forall s :: ']' in s ==> ']' in u.lower(s)
  }

  /** The characters at which `str.splitlines` breaks; `read_text` has already turned carriage
      returns into newlines. */
  predicate IsBreak(c: char) {
    var n := c as int;
    10 <= n <= 13 || 28 <= n <= 30 || n == 0x85 || n == 0x2028 || n == 0x2029
  }

  /** The line breaks, one by one. */
  const BREAKS: string := "\n\U{000B}\U{000C}\r\U{001C}\U{001D}\U{001E}\U{0085}\U{2028}\U{2029}"

  lemma BreakTable(c: char)
    ensures IsBreak(c) <==> c in BREAKS
  {
  }

  function LineEnd(text: string, i: nat): (r: nat)
    requires i <= |text|
    ensures i <= r <= |text| && (r < |text| ==> IsBreak(text[r])) && forall k | i <= k < r :: !IsBreak(text[k])
    decreases |text| - i
  {
    if i < |text| && !IsBreak(text[i]) then LineEnd(text, i + 1) else i
  }

  function SplitLines(text: string): seq<string>
    decreases |text|
  {
    if text == [] then []
    else
      var e := LineEnd(text, 0);
      [text[..e]] + if e < |text| then SplitLines(text[e + 1..]) else []
  }

  /** The pattern `^\s*"([^"]+)"\s*:\s*(?:\[|")`: what it captures. */
  function BoundKey(line: string): Option<string> {
    var i := SpaceEnd(line, 0);
    if i == |line| || line[i] != '"' then None
    else
      var j := IndexFrom(line, '\"', i + 1);
      if j == i + 1 || j == |line| then None
      else
        var m := SpaceEnd(line, j + 1);
        if m == |line| || line[m] != ':' then None
        else
          var n := SpaceEnd(line, m + 1);
          if n == |line| || (line[n] != '[' && line[n] != '"') then None else Some(line[i + 1..j])
  }

  function Trim(s: string): string {
    TrimEnd(TrimStart(s))
  }

  function Normal(u: Unicode, name: string): string {
    u.lower(Trim(name))
  }

  predicate LooksLikeBindingKey(u: Unicode, name: string) {
    var value := Normal(u, name);
    || (|value| > 1 && value[0] == 'f' && forall i | 1 <= i < |value| :: u.isDigit(value[i]))
    || '-' in value || '+' in value || ' ' in value
  }

  /** The keys one line contributes: none or one. */
  function KeysOn(u: Unicode, line: string): set<string> {
    match BoundKey(line)
    case None => {}
    case Some(name) => if LooksLikeBindingKey(u, Normal(u, name)) then {Normal(u, name)} else {}
  }

  function KeysOf(u: Unicode, lines: seq<string>): set<string> {
    if lines == [] then {} else KeysOn(u, lines[0]) + KeysOf(u, lines[1..])
  }

  function UsedKeys(u: Unicode, text: string): set<string> {
    KeysOf(u, SplitLines(text))
  }

  method ExtractUsedBindingKeys(u: Unicode, text: string) returns (used: set<string>)
    ensures used == UsedKeys(u, text)
  {
    used := {};
    var lines := SplitLines(text);
    for i := 0 to |lines|
      invariant UsedKeys(u, text) == used + KeysOf(u, lines[i..])
    {
      assert lines[i..][1..] == lines[i + 1..];
      var found := BoundKey(lines[i]);
      if found.None? {
        continue;
      }
      var key := Normal(u, found.value);
      if LooksLikeBindingKey(u, key) {
        used := used + {key};
      }
    }
  }

  // ---------------------------------------------------------------------------------------------
  // Which keys a text uses
  // ---------------------------------------------------------------------------------------------

  /** Positions `p` to `q` of the text hold one whole line. */
  ghost predicate IsLine(text: string, p: nat, q: nat) {
    && p <= q <= |text| && (forall k | p <= k < q :: !IsBreak(text[k]))
    && (p == 0 || IsBreak(text[p - 1])) && (q == |text| || IsBreak(text[q]))
  }

  /** `r` is `s` without the whitespace around it. */
  ghost predicate IsTrimmed(s: string, r: string) {
    && (r == "" || (!IsSpace(r[0]) && !IsSpace(r[|r| - 1])))
    && exists a, b :: AllSpace(a) && AllSpace(b) && s == a + r + b
  }

  /** A function key, or a key with a modifier or of several strokes. */
  ghost predicate IsBindingKey(u: Unicode, value: string) {
    || (|value| >= 2 && value[0] == 'f' && forall k | 1 <= k < |value| :: u.isDigit(value[k]))
    || (exists k :: 0 <= k < |value| && (value[k] == '-' || value[k] == '+' || value[k] == ' '))
  }

  /** The line binds `key`: the pattern matches, and `key` is the quoted name trimmed and in lower
      case, which trimmed and in lower case once more looks like a key. */
  ghost predicate BindsAt(u: Unicode, line: string, key: string, i: nat, j: nat, m: nat, n: nat, name: string,
                          again: string) {
    && Match(line, i, j, m, n)
    && IsTrimmed(line[i + 1..j], name) && key == u.lower(name)
    && IsTrimmed(key, again) && IsBindingKey(u, u.lower(again))
  }

  ghost predicate Binds(u: Unicode, line: string, key: string) {
    exists i: nat, j: nat, m: nat, n: nat, name, again :: BindsAt(u, line, key, i, j, m, n, name, again)
  }

  ghost predicate BindsIn(u: Unicode, text: string, key: string, p: nat, q: nat) {
    IsLine(text, p, q) && Binds(u, text[p..q], key)
  }

  lemma TrimMeans(s: string, r: string)
    ensures IsTrimmed(s, r) <==> r == Trim(s)
  {
    TrimIsTrimmed(s);
    if IsTrimmed(s, r) {
      var a, b :| AllSpace(a) && AllSpace(b) && s == a + r + b;
      TrimmedIsTrim(a, r, b);
    }
  }

  lemma {:induction false} StartTrimmed(s: string) returns (a: string)
    ensures AllSpace(a) && s == a + TrimStart(s) && (TrimStart(s) == "" || !IsSpace(TrimStart(s)[0]))
  {
    if s != [] && IsSpace(s[0]) {
      var rest := StartTrimmed(s[1..]);
      a := [s[0]] + rest;
    } else {
      a := [];
    }
  }

  lemma TrimIsTrimmed(s: string)
    ensures IsTrimmed(s, Trim(s))
  {
    var a := StartTrimmed(s);
    var t, r := TrimStart(s), Trim(s);
    var b := t[|r|..];
    assert t == r + b;
    assert s == a + r + b;
  }

  lemma TrimmedIsTrim(a: string, r: string, b: string)
    requires AllSpace(a) && AllSpace(b) && (r == "" || (!IsSpace(r[0]) && !IsSpace(r[|r| - 1])))
    ensures Trim(a + r + b) == r
  {
    assert a + r + b == a + (r + b);
    if r == "" {
      TrimSpace(a + b);
      assert r + b == b;
    } else {
      StartSkips(a, r + b);
      TrimEndIs(r, b);
    }
  }

  lemma {:induction false} TrimSpace(s: string)
    requires AllSpace(s)
    ensures TrimStart(s) == "" && Trim(s) == ""
  {
    if s != [] {
      TrimSpace(s[1..]);
    }
  }

  lemma {:induction false} StartSkips(a: string, t: string)
    requires AllSpace(a) && t != "" && !IsSpace(t[0])
    ensures TrimStart(a + t) == t
  {
    if a == [] {
      assert a + t == t;
    } else {
      assert (a + t)[1..] == a[1..] + t;
      StartSkips(a[1..], t);
    }
  }

  lemma LooksMeans(u: Unicode, key: string)
    ensures LooksLikeBindingKey(u, key) <==> exists again :: IsTrimmed(key, again) && IsBindingKey(u, u.lower(again))
  {
    TrimMeans(key, Trim(key));
    forall again | IsTrimmed(key, again)
      ensures again == Trim(key)
    {
      TrimMeans(key, again);
    }
    LooksIs(u, u.lower(Trim(key)), key);
  }

  lemma LooksIs(u: Unicode, value: string, key: string)
    requires value == Normal(u, key)
    ensures LooksLikeBindingKey(u, key) <==> IsBindingKey(u, value)
  {
  }

  /** What one line contributes. */
  lemma KeysOnMeans(u: Unicode, line: string, key: string)
    ensures key in KeysOn(u, line) <==> Binds(u, line, key)
  {
    if key in KeysOn(u, line) {
      var i, j, m, n := BindsMatch(line);
      MatchBinds(line, i, j, m, n);
      TrimMeans(line[i + 1..j], Trim(line[i + 1..j]));
      LooksMeans(u, key);
      var again :| IsTrimmed(key, again) && IsBindingKey(u, u.lower(again));
      assert BindsAt(u, line, key, i, j, m, n, Trim(line[i + 1..j]), again);
    }
    if Binds(u, line, key) {
      var i: nat, j: nat, m: nat, n: nat, name, again :| BindsAt(u, line, key, i, j, m, n, name, again);
      MatchBinds(line, i, j, m, n);
      TrimMeans(line[i + 1..j], name);
      LooksMeans(u, key);
    }
  }

  /** The lines that the loop reads are the lines of the text; only an empty one may be left out. */
  lemma {:induction false} ListedLine(text: string, i: nat, line: string) returns (p: nat, q: nat)
    requires i < |SplitLines(text)| && line == SplitLines(text)[i]
    ensures IsLine(text, p, q) && line == text[p..q]
    decreases |text|
  {
    if i == 0 {
      p, q := FirstListed(text, line);
    } else {
      var d, later := ListedLater(text, i, line);
      var a, b := ListedLine(later, i - 1, line);
      p, q := LineForth(text, later, d, a, b, line);
    }
  }

  lemma FirstListed(text: string, line: string) returns (p: nat, q: nat)
    requires SplitLines(text) != [] && line == SplitLines(text)[0]
    ensures IsLine(text, p, q) && line == text[p..q]
  {
    p, q := 0, LineEnd(text, 0);
    assert text[0..q] == text[..q];
  }

  lemma ListedLater(text: string, i: nat, line: string) returns (d: nat, later: string)
    requires 0 < i < |SplitLines(text)| && line == SplitLines(text)[i]
    ensures 0 < d <= |text| && IsBreak(text[d - 1]) && later == text[d..]
    ensures i - 1 < |SplitLines(later)| && line == SplitLines(later)[i - 1]
  {
    d := LineEnd(text, 0) + 1;
    later := text[d..];
  }

  lemma {:induction false} LineListed(text: string, p: nat, q: nat, line: string)
    requires IsLine(text, p, q) && line == text[p..q] && line != []
    ensures line in SplitLines(text)
    decreases |text|
  {
    var e := LineEnd(text, 0);
    if p <= e {
      OnlyFirst(text, e, p, q);
    } else {
      LineBack(text, text[e + 1..], e + 1, p, q, line);
      LineListed(text[e + 1..], p - e - 1, q - e - 1, line);
    }
  }

  lemma {:induction false} KeysOfLines(u: Unicode, lines: seq<string>, key: string)
    ensures key in KeysOf(u, lines) <==> exists i :: 0 <= i < |lines| && key in KeysOn(u, lines[i])
  {
    if lines != [] {
      KeysOfLines(u, lines[1..], key);
      if key in KeysOf(u, lines[1..]) {
        var i :| 0 <= i < |lines[1..]| && key in KeysOn(u, lines[1..][i]);
        assert lines[i + 1] == lines[1..][i];
      }
      if i :| 0 < i < |lines| && key in KeysOn(u, lines[i]) {
        assert lines[1..][i - 1] == lines[i];
      }
    }
  }

  lemma OnlyFirst(text: string, e: nat, p: nat, q: nat)
    requires e == LineEnd(text, 0) && IsLine(text, p, q) && p <= e
    ensures p == 0 && q == e
  {
  }

  /** Exactly which keys a keymap text uses: those that one of its lines binds. */
  lemma UsedKeysIff(u: Unicode, text: string, key: string)
    ensures key in UsedKeys(u, text) <==> exists p: nat, q: nat :: BindsIn(u, text, key, p, q)
  {
    var lines := SplitLines(text);
    KeysOfLines(u, lines, key);
    if key in UsedKeys(u, text) {
      var i: nat :| i < |lines| && key in KeysOn(u, lines[i]);
      var p, q := ListedLine(text, i, lines[i]);
      KeysOnMeans(u, lines[i], key);
      assert BindsIn(u, text, key, p, q);
    }
    if p: nat, q: nat :| BindsIn(u, text, key, p, q) {
      KeysOnMeans(u, text[p..q], key);
      assert BoundKey([]) == None;
      LineListed(text, p, q, text[p..q]);
      var i :| 0 <= i < |lines| && lines[i] == text[p..q];
    }
  }

  /** A line behind a break is a line of what comes after the break, and the other way round. */
  lemma LineForth(text: string, later: string, d: nat, a: nat, b: nat, line: string) returns (p: nat, q: nat)
    requires 0 < d <= |text| && later == text[d..] && IsBreak(text[d - 1])
    requires IsLine(later, a, b) && line == later[a..b]
    ensures IsLine(text, p, q) && line == text[p..q]
  {
    Shifted(text, later, d);
    p, q := a + d, b + d;
    forall k | p <= k < q
      ensures !IsBreak(text[k])
    {
      assert text[k] == later[k - d];
    }
  }

  lemma LineBack(text: string, later: string, d: nat, p: nat, q: nat, line: string)
    requires 0 < d <= p <= q <= |text| && later == text[d..] && IsBreak(text[d - 1])
    requires IsLine(text, p, q) && line == text[p..q]
    ensures IsLine(later, p - d, q - d) && line == later[p - d..q - d]
  {
    Shifted(text, later, d);
  }

  lemma Shifted(text: string, later: string, d: nat)
    requires d <= |text| && later == text[d..]
    ensures |later| == |text| - d && forall k | 0 <= k < |later| :: later[k] == text[k + d]
  {
  }

  // ---------------------------------------------------------------------------------------------
  // Choosing keys
  // ---------------------------------------------------------------------------------------------

  const LIMIT := 2

  /** The first candidates that are neither used nor reserved nor repeated, at most two. */
  function Chosen(candidates: seq<string>, used: set<string>, reserved: set<string>): seq<string> {
    if candidates == [] then []
    else
      var before, key := Chosen(candidates[..|candidates| - 1], used, reserved), candidates[|candidates| - 1];
      if |before| >= LIMIT || key in used || key in reserved || key in before then before else before + [key]
  }

  method ChooseKeys(candidates: seq<string>, used: set<string>, reserved: set<string>) returns (chosen: seq<string>)
    ensures chosen == Chosen(candidates, used, reserved)
  {
    chosen := [];
    for i := 0 to |candidates|
      invariant chosen == Chosen(candidates[..i], used, reserved) && |chosen| < LIMIT
    {
      var key := candidates[i];
      assert candidates[..i + 1][..i] == candidates[..i];
      if key in used || key in reserved || key in chosen {
        continue;
      }
      chosen := chosen + [key];
      if |chosen| >= LIMIT {
        FullStays(candidates, i + 1, used, reserved);
        return;
      }
    }
    assert candidates[..|candidates|] == candidates;
  }

  lemma {:induction false} FullStays(candidates: seq<string>, i: nat, used: set<string>, reserved: set<string>)
    requires i <= |candidates| && |Chosen(candidates[..i], used, reserved)| >= LIMIT
    ensures Chosen(candidates, used, reserved) == Chosen(candidates[..i], used, reserved)
  {
    if i < |candidates| {
      var front := candidates[..|candidates| - 1];
      assert front[..i] == candidates[..i];
      FullStays(front, i, used, reserved);
    } else {
      assert candidates[..i] == candidates;
    }
  }

  /** Chosen keys are candidates in candidate order, at most two, pairwise different, neither used nor
      reserved; and a free candidate is passed over only when two others were chosen. */
  lemma {:induction false} ChosenAreFree(candidates: seq<string>, used: set<string>, reserved: set<string>)
    ensures
      var chosen := Chosen(candidates, used, reserved);
      && |chosen| <= LIMIT
      && (forall k | k in chosen :: k in candidates && k !in used && k !in reserved)
      && (forall i, j | 0 <= i < j < |chosen| :: chosen[i] != chosen[j])
      && (forall k | k in candidates && k !in used && k !in reserved :: k in chosen || |chosen| == LIMIT)
  {
    if candidates != [] {
      var front := candidates[..|candidates| - 1];
      assert candidates == front + [candidates[|candidates| - 1]];
      ChosenAreFree(front, used, reserved);
    }
  }

  /** Earlier candidates come first: the chosen keys are in candidate order, and a free candidate that is
      not chosen comes after all that are. */
  lemma {:induction false} ChosenComeFirst(candidates: seq<string>, used: set<string>, reserved: set<string>)
    ensures
      var chosen := Chosen(candidates, used, reserved);
      && (forall a | 0 <= a < |candidates| && candidates[a] !in used && candidates[a] !in reserved ::
            candidates[a] in chosen || forall k | k in chosen :: k in candidates[..a])
      && (|chosen| == 2 ==>
            exists a :: 0 <= a < |candidates| && candidates[a] == chosen[1]
                        && chosen[0] in candidates[..a] && chosen[1] !in candidates[..a])
  {
    if candidates != [] {
      var n := |candidates| - 1;
      var front, key := candidates[..n], candidates[n];
      var before, chosen := Chosen(front, used, reserved), Chosen(candidates, used, reserved);
      ChosenComeFirst(front, used, reserved);
      ChosenAreFree(front, used, reserved);
      forall a | 0 <= a < n
        ensures candidates[..a] == front[..a] && candidates[a] == front[a]
      {
      }
      assert candidates[..n] == front;
      forall a | 0 <= a <= n && candidates[a] !in used && candidates[a] !in reserved && candidates[a] !in chosen
        ensures forall k | k in chosen :: k in candidates[..a]
      {
        if a < n {
          assert front[a] !in before;
          assert |before| == LIMIT && chosen == before;
        }
      }
      if |chosen| == 2 {
        if |before| == 2 {
          var a :| 0 <= a < |front| && front[a] == before[1] && before[0] in front[..a] && before[1] !in front[..a];
          assert candidates[a] == chosen[1] && candidates[..a] == front[..a];
        } else {
          assert chosen == before + [key] && chosen[0] == before[0] && before[0] in before;
          assert candidates[n] == chosen[1];
        }
      }
    }
  }

  /** Only the used keys among the candidates matter. */
  lemma {:induction false} ChosenAgree(candidates: seq<string>, a: set<string>, b: set<string>, reserved: set<string>)
    requires forall k | k in candidates :: k in a <==> k in b
    ensures Chosen(candidates, a, reserved) == Chosen(candidates, b, reserved)
  {
    if candidates != [] {
      var front := candidates[..|candidates| - 1];
      assert candidates == front + [candidates[|candidates| - 1]];
      ChosenAgree(front, a, b, reserved);
    }
  }

  // ---------------------------------------------------------------------------------------------
  // Texts cut in two
  // ---------------------------------------------------------------------------------------------

  type LineKeys = string -> set<string>

  /** What the lines of a text contribute, whatever a line contributes. */
  function Collected(f: LineKeys, text: string): set<string>
    decreases |text|
  {
    if text == [] then {} else f(FirstOf(text)) + Collected(f, LaterOf(text))
  }

  function FirstOf(text: string): string {
    text[..LineEnd(text, 0)]
  }

  function LaterOf(text: string): (later: string)
    ensures text != [] ==> |later| < |text|
  {
    if LineEnd(text, 0) < |text| then text[LineEnd(text, 0) + 1..] else []
  }

  function KeysOnLine(u: Unicode): LineKeys {
    (line: string) => KeysOn(u, line)
  }

  lemma {:induction false} UsedAreCollected(u: Unicode, text: string)
    ensures UsedKeys(u, text) == Collected(KeysOnLine(u), text)
    decreases |text|
  {
    if text != [] {
      var rest := SplitLines(LaterOf(text));
      UsedAreCollected(u, LaterOf(text));
      assert SplitLines(text) == [FirstOf(text)] + rest;
      assert ([FirstOf(text)] + rest)[1..] == rest;
    }
  }

  predicate NoBreak(text: string) {
    forall k | 0 <= k < |text| :: !IsBreak(text[k])
  }

  lemma LineEndIs(text: string, i: nat, r: nat)
    requires i <= r <= |text| && (r < |text| ==> IsBreak(text[r])) && forall k | i <= k < r :: !IsBreak(text[k])
    ensures LineEnd(text, i) == r
  {
  }

  lemma SplitsAt(line: string, c: char, later: string)
    requires NoBreak(line) && IsBreak(c)
    ensures FirstOf(line + ([c] + later)) == line && LaterOf(line + ([c] + later)) == later
  {
    var text := line + ([c] + later);
    LineEndIs(text, 0, |line|);
  }

  lemma PeelLine(f: LineKeys, text: string, line: string, c: char, later: string)
    requires NoBreak(line) && IsBreak(c) && text == line + ([c] + later)
    ensures Collected(f, text) == f(line) + Collected(f, later)
  {
    SplitsAt(line, c, later);
  }

  lemma OneLine(f: LineKeys, text: string)
    requires NoBreak(text) && f([]) == {}
    ensures Collected(f, text) == f(text)
  {
    LineEndIs(text, 0, |text|);
    assert FirstOf(text) == text && LaterOf(text) == [];
  }

  lemma BreakIn(text: string) returns (line: string, c: char, later: string)
    requires !NoBreak(text)
    ensures NoBreak(line) && IsBreak(c) && text == line + ([c] + later)
  {
    var e := LineEnd(text, 0);
    line, c, later := text[..e], text[e], text[e + 1..];
  }

  lemma Assoc(a: string, b: string, c: string)
    ensures a + (b + c) == (a + b) + c
  {
  }

  lemma Regroup(line: string, c: char, later: string, more: string)
    ensures (line + ([c] + later)) + more == line + ([c] + (later + more))
  {
  }

  lemma {:induction false} SplitAtBreak(f: LineKeys, a: string, c: char, b: string)
    requires IsBreak(c) && f([]) == {}
    ensures Collected(f, a + ([c] + b)) == Collected(f, a) + Collected(f, b)
    decreases |a|
  {
    if NoBreak(a) {
      PeelLine(f, a + ([c] + b), a, c, b);
      OneLine(f, a);
    } else {
      var line, d, later := BreakIn(a);
      Regroup(line, d, later, [c] + b);
      PeelLine(f, a, line, d, later);
      PeelLine(f, a + ([c] + b), line, d, later + ([c] + b));
      SplitAtBreak(f, later, c, b);
    }
  }

  lemma NoBreakJoin(a: string, b: string)
    requires NoBreak(a) && NoBreak(b)
    ensures NoBreak(a + b)
  {
  }

  lemma FirstLater(tail: string) returns (c: char)
    ensures NoBreak(FirstOf(tail))
    ensures if NoBreak(tail) then FirstOf(tail) == tail && LaterOf(tail) == []
            else IsBreak(c) && tail == FirstOf(tail) + ([c] + LaterOf(tail))
  {
    var e := LineEnd(tail, 0);
    if e < |tail| {
      c := tail[e];
    } else {
      c := ' ';
    }
  }

  /** The first line of `a + tail` when `a` has no break: `a` and the first line of `tail`. */
  lemma HeadLine(f: LineKeys, a: string, tail: string)
    requires NoBreak(a) && f([]) == {}
    ensures Collected(f, a + tail) == f(a + FirstOf(tail)) + Collected(f, LaterOf(tail))
  {
    var first, later := FirstOf(tail), LaterOf(tail);
    var c := FirstLater(tail);
    NoBreakJoin(a, first);
    if NoBreak(tail) {
      OneLine(f, a + tail);
    } else {
      Assoc(a, first, [c] + later);
      PeelLine(f, a + tail, a + first, c, later);
    }
  }

  /** Lines of whitespace contribute nothing, alone or before the first line of `tail`. */
  ghost predicate Ignores(f: LineKeys, tail: string) {
    forall gap | AllSpace(gap) :: f(gap) == {} && f(gap + FirstOf(tail)) == {}
  }

  lemma TailLine(f: LineKeys, tail: string)
    requires Ignores(f, tail)
    ensures f([]) == {} && Collected(f, tail) == Collected(f, LaterOf(tail))
  {
    assert AllSpace([]);
    HeadLine(f, [], tail);
    assert [] + tail == tail;
  }

  lemma AllSpaceParts(line: string, c: char, later: string)
    requires AllSpace(line + ([c] + later))
    ensures AllSpace(line) && AllSpace(later)
  {
    var gap := line + ([c] + later);
    assert line == gap[..|line|] && later == gap[|line| + 1..];
  }

  lemma {:induction false} SpaceTail(f: LineKeys, gap: string, tail: string)
    requires AllSpace(gap) && Ignores(f, tail)
    ensures Collected(f, gap + tail) == Collected(f, tail)
    decreases |gap|
  {
    TailLine(f, tail);
    if NoBreak(gap) {
      HeadLine(f, gap, tail);
    } else {
      var line, c, later := BreakIn(gap);
      AllSpaceParts(line, c, later);
      Regroup(line, c, later, tail);
      PeelLine(f, gap + tail, line, c, later + tail);
      SpaceTail(f, later, tail);
    }
  }

  // ----- one line -----

  /** Where the pattern's parts lie in a line it matches. */
  ghost predicate Match(line: string, i: nat, j: nat, m: nat, n: nat) {
    && i + 1 < j < m < n < |line|
    && line[i] == '"' && line[j] == '"' && line[m] == ':' && (line[n] == '[' || line[n] == '"')
    && (forall k | 0 <= k < i :: IsSpace(line[k])) && (forall k | i < k < j :: line[k] != '"')
    && (forall k | j < k < m :: IsSpace(line[k])) && (forall k | m < k < n :: IsSpace(line[k]))
  }

  lemma SpaceEndIs(s: string, i: nat, r: nat)
    requires i <= r <= |s| && (forall k | i <= k < r :: IsSpace(s[k])) && (r < |s| ==> !IsSpace(s[r]))
    ensures SpaceEnd(s, i) == r
    decreases r - i
  {
    if i < r {
      SpaceEndIs(s, i + 1, r);
    }
  }

  lemma SpaceEndSkips(s: string, i: nat)
    requires i <= |s|
    ensures forall k | i <= k < SpaceEnd(s, i) :: IsSpace(s[k])
    decreases |s| - i
  {
    if i < |s| && IsSpace(s[i]) {
      SpaceEndSkips(s, i + 1);
    }
  }

  lemma MatchBinds(line: string, i: nat, j: nat, m: nat, n: nat)
    requires Match(line, i, j, m, n)
    ensures BoundKey(line) == Some(line[i + 1..j])
  {
    SpaceEndIs(line, 0, i);
    assert IndexFrom(line, '\"', i + 1) == j;
    SpaceEndIs(line, j + 1, m);
    SpaceEndIs(line, m + 1, n);
  }

  lemma BindsMatch(line: string) returns (i: nat, j: nat, m: nat, n: nat)
    requires BoundKey(line).Some?
    ensures Match(line, i, j, m, n)
  {
    i := SpaceEnd(line, 0);
    j := IndexFrom(line, '\"', i + 1);
    m := SpaceEnd(line, j + 1);
    n := SpaceEnd(line, m + 1);
    SpaceEndSkips(line, 0);
    SpaceEndSkips(line, j + 1);
    SpaceEndSkips(line, m + 1);
  }

  /** A character that the pattern can meet only inside the quoted name. */
  predicate OnlyInName(c: char) {
    !IsSpace(c) && c != '"' && c != ':' && c != '['
  }

  lemma MatchExtends(line: string, more: string, i: nat, j: nat, m: nat, n: nat)
    requires Match(line, i, j, m, n)
    ensures BoundKey(line + more) == BoundKey(line) == Some(line[i + 1..j])
  {
    MatchBinds(line, i, j, m, n);
    assert Match(line + more, i, j, m, n);
    MatchBinds(line + more, i, j, m, n);
    assert (line + more)[i + 1..j] == line[i + 1..j];
  }

  /** Cutting a line before whitespace and such a character loses only names that contain it. */
  lemma CutLine(line: string, gap: string, tail: string)
    requires AllSpace(gap) && tail != [] && OnlyInName(tail[0])
    ensures BoundKey(line).Some? ==> BoundKey(line + gap + tail) == BoundKey(line)
    ensures BoundKey(line + gap + tail).Some? && BoundKey(line).None?
        ==> tail[0] in BoundKey(line + gap + tail).value && |tail| > 1
  {
    var whole := line + gap + tail;
    assert whole == line + (gap + tail);
    if BoundKey(line).Some? {
      var i, j, m, n := BindsMatch(line);
      MatchExtends(line, gap + tail, i, j, m, n);
    } else if BoundKey(whole).Some? {
      var i, j, m, n := BindsMatch(whole);
      MatchBinds(whole, i, j, m, n);
      CutMatch(line, gap, tail, i, j, m, n);
      var p := |line| + |gap|;
      assert whole[i + 1..j][p - i - 1] == whole[p] == tail[0];
    }
  }

  lemma MatchPrefix(line: string, more: string, i: nat, j: nat, m: nat, n: nat)
    requires Match(line + more, i, j, m, n) && n < |line|
    ensures BoundKey(line).Some?
  {
    assert forall k | 0 <= k < |line| :: line[k] == (line + more)[k];
    assert Match(line, i, j, m, n);
    MatchBinds(line, i, j, m, n);
  }

  lemma CutMatch(line: string, gap: string, tail: string, i: nat, j: nat, m: nat, n: nat)
    requires AllSpace(gap) && tail != [] && OnlyInName(tail[0])
    requires Match(line + gap + tail, i, j, m, n) && BoundKey(line).None?
    ensures i < |line| + |gap| < j
  {
    var whole := line + gap + tail;
    var p := |line| + |gap|;
    assert whole[p] == tail[0];
    assert forall k | |line| <= k < p :: whole[k] == gap[k - |line|];
    if n < |line| {
      assert whole == line + (gap + tail);
      MatchPrefix(line, gap + tail, i, j, m, n);
    }
  }

  lemma SpaceLine(line: string, tail: string)
    requires AllSpace(line) && (tail == [] || OnlyInName(tail[0]))
    ensures BoundKey(line + tail) == None
  {
    var whole := line + tail;
    SpaceEndIs(whole, 0, |line|);
  }

  // ----- the whole text -----

  /** A key `c` cannot come from a line that was cut before `tail`: either nothing follows the
      character cut at, or the key would contain it. */
  ghost predicate CutOff(tail: string, c: string) {
    tail == "," || (tail != [] && tail[0] == ']' && ']' !in c)
  }

  lemma CutOffKey(u: Unicode, line: string, gap: string, tail: string, c: string)
    requires KeepsBracket(u) && AllSpace(gap) && CutOff(tail, c)
    ensures c in KeysOn(u, line + gap + tail) <==> c in KeysOn(u, line)
  {
    CutLine(line, gap, tail);
    var whole := line + gap + tail;
    if BoundKey(whole).Some? && BoundKey(line).None? {
      TrimKeeps(BoundKey(whole).value, ']');
    }
  }

  lemma {:induction false} TrimKeeps(s: string, c: char)
    requires c in s && !IsSpace(c)
    ensures c in Trim(s)
  {
    TrimStartKeeps(s, c);
    var t := TrimStart(s);
    var r := TrimEnd(t);
    assert t == r + t[|r|..];
  }

  lemma {:induction false} TrimStartKeeps(s: string, c: char)
    requires c in s && !IsSpace(c)
    ensures c in TrimStart(s)
  {
    if IsSpace(s[0]) {
      assert s == [s[0]] + s[1..];
      TrimStartKeeps(s[1..], c);
    }
  }

  lemma CutOffIgnored(u: Unicode, tail: string, c: string)
    requires CutOff(tail, c)
    ensures Ignores(KeysOnLine(u), tail) && CutOff(FirstOf(tail), c)
  {
    assert !IsBreak(tail[0]);
    assert FirstOf(tail)[0] == tail[0];
    assert tail == "," ==> FirstOf(tail) == ",";
    forall gap | AllSpace(gap)
      ensures KeysOnLine(u)(gap) == {} && KeysOnLine(u)(gap + FirstOf(tail)) == {}
    {
      SpaceLine(gap, FirstOf(tail));
      SpaceLine(gap, []);
      assert gap + [] == gap;
    }
  }

  lemma CutLastLine(u: Unicode, f: LineKeys, a: string, gap: string, tail: string, c: string)
    requires KeepsBracket(u) && AllSpace(gap) && CutOff(tail, c) && NoBreak(a) && f == KeysOnLine(u)
    ensures c in Collected(f, a + gap + tail) <==> c in Collected(f, a) || c in Collected(f, tail)
  {
    CutOffIgnored(u, tail, c);
    TailLine(f, tail);
    OneLine(f, a);
    if NoBreak(gap) {
      NoBreakJoin(a, gap);
      HeadLine(f, a + gap, tail);
      CutOffKey(u, a, gap, FirstOf(tail), c);
    } else {
      GapBreaks(u, f, a, gap, tail, c);
    }
  }

  lemma GapBreaks(u: Unicode, f: LineKeys, a: string, gap: string, tail: string, c: string)
    requires AllSpace(gap) && Ignores(f, tail) && NoBreak(a) && !NoBreak(gap) && f == KeysOnLine(u)
    ensures Collected(f, a + gap + tail) == f(a) + Collected(f, tail)
  {
    var first, d, later := BreakIn(gap);
    AllSpaceParts(first, d, later);
    Regroup(first, d, later, tail);
    Assoc(a, gap, tail);
    Assoc(a, first, [d] + (later + tail));
    NoBreakJoin(a, first);
    PeelLine(f, a + gap + tail, a + first, d, later + tail);
    TrailingSpace(a, first);
    SpaceTail(f, later, tail);
  }

  lemma TrailingSpace(line: string, gap: string)
    requires AllSpace(gap)
    ensures BoundKey(line + gap) == BoundKey(line)
  {
    if BoundKey(line).Some? {
      var i, j, m, n := BindsMatch(line);
      MatchExtends(line, gap, i, j, m, n);
    } else if BoundKey(line + gap).Some? {
      var i, j, m, n := BindsMatch(line + gap);
      assert forall k | |line| <= k < |line + gap| :: (line + gap)[k] == gap[k - |line|];
      MatchPrefix(line, gap, i, j, m, n);
    }
  }

  lemma {:induction false} CutLines(u: Unicode, f: LineKeys, a: string, gap: string, tail: string, c: string)
    requires KeepsBracket(u) && AllSpace(gap) && CutOff(tail, c) && f == KeysOnLine(u)
    ensures c in Collected(f, a + gap + tail) <==> c in Collected(f, a) || c in Collected(f, tail)
    decreases |a|
  {
    if NoBreak(a) {
      CutLastLine(u, f, a, gap, tail, c);
    } else {
      var line, d, later := BreakIn(a);
      Regroup(line, d, later, gap);
      Regroup(line, d, later + gap, tail);
      PeelLine(f, a, line, d, later);
      PeelLine(f, a + gap + tail, line, d, later + gap + tail);
      CutLines(u, f, later, gap, tail, c);
    }
  }

  /** Cutting a text before whitespace and a tail changes no used key that the cut cannot touch. */
  lemma CutText(u: Unicode, a: string, gap: string, tail: string, c: string)
    requires KeepsBracket(u) && AllSpace(gap) && CutOff(tail, c)
    ensures c in UsedKeys(u, a + gap + tail) <==> c in UsedKeys(u, a) || c in UsedKeys(u, tail)
  {
    UsedAreCollected(u, a + gap + tail);
    UsedAreCollected(u, a);
    UsedAreCollected(u, tail);
    CutLines(u, KeysOnLine(u), a, gap, tail, c);
  }

  /** A line break separates what comes before it from what comes after. */
  lemma UsedAcrossBreak(u: Unicode, a: string, c: char, b: string)
    requires IsBreak(c)
    ensures UsedKeys(u, a + ([c] + b)) == UsedKeys(u, a) + UsedKeys(u, b)
  {
    UsedAreCollected(u, a + ([c] + b));
    UsedAreCollected(u, a);
    UsedAreCollected(u, b);
    assert BoundKey([]) == None;
    SplitAtBreak(KeysOnLine(u), a, c, b);
  }
}

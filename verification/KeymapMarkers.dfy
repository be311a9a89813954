/** scripts/install_zed_shortcuts.sh, the embedded Python: the marked block in a keymap text, and
    `strip_existing_block`, which removes it. */
module KeymapMarkers {

  /** Two comment markers that differ in their fourth character. */
  datatype MarkerPair = MarkerPair(startText: string, endText: string)
  {
    const start: string := "//" + startText
    const end: string := "//" + endText
  }

  predicate Plain(text: string) {
    && |text| == 27 && text[0] == ' ' && !IsSpace(text[26])
    && forall i | 0 <= i < 27 :: ' ' <= text[i] <= '~' && text[i] != '/' && text[i] != ','
  }

  lemma StartPlain()
    ensures Plain(" >>> isabelle shortcuts >>>")
  {
  }

  lemma EndPlain()
    ensures Plain(" <<< isabelle shortcuts <<<")
  {
  }

  type Markers = m: MarkerPair | Plain(m.startText) && Plain(m.endText) && m.startText[1] == '>' && m.endText[1] == '<'
    witness (StartPlain(); EndPlain(); MarkerPair(" >>> isabelle shortcuts >>>", " <<< isabelle shortcuts <<<"))

  const MARKERS: Markers :=
    (StartPlain(); EndPlain(); MarkerPair(" >>> isabelle shortcuts >>>", " <<< isabelle shortcuts <<<"))

  /** Python's str.isspace, which is also what `\s` matches. */
  predicate IsSpace(c: char) {
    var n := c as int;
    || 9 <= n <= 13 || 28 <= n <= 32 || n == 0x85 || n == 0xA0 || n == 0x1680
    || 0x2000 <= n <= 0x200A || n == 0x2028 || n == 0x2029 || n == 0x202F || n == 0x205F || n == 0x3000
  }

  predicate AllSpace(s: string) {
    forall i | 0 <= i < |s| :: IsSpace(s[i])
  }

  function TrimStart(s: string): string {
    if s != [] && IsSpace(s[0]) then TrimStart(s[1..]) else s
  }

  function TrimEnd(s: string): (r: string)
    ensures r <= s && AllSpace(s[|r|..]) && (r == [] || !IsSpace(r[|r| - 1]))
  {
    if s != [] && IsSpace(s[|s| - 1]) then TrimEnd(s[..|s| - 1]) else s
  }

  predicate At(text: string, k: int, pat: string) {
    0 <= k && k + |pat| <= |text| && text[k..k + |pat|] == pat
  }

  /** The first occurrence of `pat` from `start` on, or -1. */
  function Find(text: string, pat: string, start: nat): (r: int)
    requires start <= |text|
    ensures r == -1 || (start <= r && r + |pat| <= |text|)
    decreases |text| - start
  {
    if At(text, start, pat) then start
    else if start == |text| then -1
    else Find(text, pat, start + 1)
  }

  function SpaceEnd(text: string, i: nat): (r: nat)
    requires i <= |text|
    ensures i <= r <= |text| && (r < |text| ==> !IsSpace(text[r]))
    decreases |text| - i
  {
    if i < |text| && IsSpace(text[i]) then SpaceEnd(text, i + 1) else i
  }

  /** Where the block whose end marker stops at `i` ends: after whitespace, one comma, one newline. */
  function BlockEnd(text: string, i: nat): (r: nat)
    requires i <= |text|
    ensures i <= r <= |text|
  {
    var w := SpaceEnd(text, i);
    var c := if w < |text| && text[w] == ',' then w + 1 else w;
    if c < |text| && text[c] == '\n' then c + 1 else c
  }

  datatype Span = NoSpan | Span(start: nat, end: nat)

  /** The first start marker, and where the block that begins there ends. */
  function FirstBlock(m: Markers, text: string): (span: Span)
    ensures span.Span? ==> span.start < span.end <= |text|
  {
    var q := Find(text, m.start, 0);
    if q == -1 then NoSpan
    else
      var r := Find(text, m.end, q + |m.start|);
      if r == -1 then NoSpan else Span(q, BlockEnd(text, r + |m.end|))
  }

  /** Every block, from the whitespace before its start marker on, becomes one newline. */
  function Stripped(m: Markers, text: string): string
    decreases |text|
  {
    match FirstBlock(m, text)
    case NoSpan => text
    case Span(q, e) => TrimEnd(text[..q]) + "\n" + Stripped(m, text[e..])
  }

  // ---------------------------------------------------------------------------------------------
  // Occurrences
  // ---------------------------------------------------------------------------------------------

  ghost predicate NoneWithin(text: string, pat: string, low: int, high: int) {
    forall k | low <= k < high :: !At(text, k, pat)
  }

  /** Find returns the first occurrence, and -1 exactly when there is none. */
  lemma {:induction false} FindFirst(text: string, pat: string, start: nat)
    requires start <= |text| && pat != []
    ensures
      var r := Find(text, pat, start);
      if r == -1 then NoneWithin(text, pat, start, |text| + 1) else At(text, r, pat) && NoneWithin(text, pat, start, r)
    decreases |text| - start
  {
    if !At(text, start, pat) && start < |text| {
      FindFirst(text, pat, start + 1);
    }
  }

  lemma FindIs(text: string, pat: string, start: nat, r: nat)
    requires pat != [] && start <= r && At(text, r, pat) && NoneWithin(text, pat, start, r)
    ensures start <= |text| && Find(text, pat, start) == r
  {
    FindFirst(text, pat, start);
    var f := Find(text, pat, start);
    assert f != -1;
    assert At(text, f, pat);
  }

  lemma AtChar(text: string, k: int, pat: string, p: int)
    requires At(text, k, pat) && k <= p < k + |pat|
    ensures text[p] == pat[p - k] && text[p] in pat
  {
    assert text[k..k + |pat|][p - k] == pat[p - k];
  }

  lemma AtLeft(a: string, b: string, k: int, pat: string)
    requires 0 <= k && k + |pat| <= |a|
    ensures At(a + b, k, pat) <==> At(a, k, pat)
  {
    assert (a + b)[k..k + |pat|] == a[k..k + |pat|];
  }

  lemma AtRight(a: string, b: string, k: int, pat: string)
    requires |a| <= k
    ensures At(a + b, k, pat) <==> At(b, k - |a|, pat)
  {
    if k + |pat| <= |a + b| {
      assert (a + b)[k..k + |pat|] == b[k - |a|..k - |a| + |pat|];
    }
  }

  /** A pattern without the character `c` does not reach across it. */
  lemma AtBeside(a: string, c: char, b: string, k: int, pat: string)
    requires At(a + ([c] + b), k, pat) && c !in pat && pat != []
    ensures (k + |pat| <= |a| && At(a, k, pat)) || (|a| < k && At(b, k - |a| - 1, pat))
  {
    var text := a + ([c] + b);
    if k + |pat| <= |a| {
      AtLeft(a, [c] + b, k, pat);
    } else if |a| < k {
      AtRight(a, [c] + b, k, pat);
      AtRight([c], b, k - |a|, pat);
    } else {
      assert (a + ([c] + b))[|a|] == c;
      AtChar(text, k, pat, |a|);
    }
  }

  // ---------------------------------------------------------------------------------------------
  // Stripping leaves no block
  // ---------------------------------------------------------------------------------------------

  /** No start marker with an end marker after it. */
  ghost predicate NoBlock(m: Markers, text: string) {
    forall k, r :: At(text, k, m.start) && At(text, r, m.end) ==> r < k + |m.start|
  }

  lemma StripNothing(m: Markers, text: string)
    requires NoBlock(m, text)
    ensures FirstBlock(m, text) == NoSpan && Stripped(m, text) == text
  {
    FindFirst(text, m.start, 0);
    var q := Find(text, m.start, 0);
    if q != -1 {
      FindFirst(text, m.end, q + |m.start|);
    }
  }

  lemma NoBlockBefore(m: Markers, text: string)
    ensures
      match FirstBlock(m, text)
      case NoSpan => NoBlock(m, text)
      case Span(q, e) => NoneWithin(text, m.start, 0, q)
  {
    FindFirst(text, m.start, 0);
    var q := Find(text, m.start, 0);
    if q != -1 {
      FindFirst(text, m.end, q + |m.start|);
    }
  }

  lemma {:induction false} StripLeavesNoBlock(m: Markers, text: string)
    ensures NoBlock(m, Stripped(m, text))
    decreases |text|
  {
    NoBlockBefore(m, text);
    match FirstBlock(m, text)
    case NoSpan =>
    case Span(q, e) =>
      var a, b := TrimEnd(text[..q]), Stripped(m, text[e..]);
      StripLeavesNoBlock(m, text[e..]);
      NoStartBefore(m, text, q, a);
      NoBlockAfter(m, a, b);
  }

  lemma NoStartBefore(m: Markers, text: string, q: nat, a: string)
    requires q <= |text| && a <= text[..q] && NoneWithin(text, m.start, 0, q)
    ensures forall k :: !At(a, k, m.start)
  {
    var b := text[|a|..];
    assert a + b == text;
    forall k
      ensures !At(a, k, m.start)
    {
      if At(a, k, m.start) {
        AtLeft(a, b, k, m.start);
      }
    }
  }

  lemma NoBlockAfter(m: Markers, a: string, b: string)
    requires NoBlock(m, b) && forall k :: !At(a, k, m.start)
    ensures NoBlock(m, a + "\n" + b)
  {
    var text := a + (['\n'] + b);
    assert text == a + "\n" + b;
    forall k, r | At(text, k, m.start) && At(text, r, m.end)
      ensures r < k + |m.start|
    {
      AtBeside(a, '\n', b, k, m.start);
      AtBeside(a, '\n', b, r, m.end);
    }
  }

  lemma NoBlockSuffix(m: Markers, a: string, b: string)
    requires NoBlock(m, a + b)
    ensures NoBlock(m, b)
  {
    forall k, r | At(b, k, m.start) && At(b, r, m.end)
      ensures r < k + |m.start|
    {
      AtRight(a, b, k + |a|, m.start);
      AtRight(a, b, r + |a|, m.end);
    }
  }

  lemma NoBlockNewline(m: Markers, a: string)
    requires NoBlock(m, a)
    ensures NoBlock(m, a + "\n")
  {
    forall k, r | At(a + "\n", k, m.start) && At(a + "\n", r, m.end)
      ensures r < k + |m.start|
    {
      assert a + "\n" == a + (['\n'] + []);
      AtBeside(a, '\n', [], k, m.start);
      AtBeside(a, '\n', [], r, m.end);
    }
  }

  lemma {:induction false} TrimEndIs(a: string, w: string)
    requires AllSpace(w) && (a == [] || !IsSpace(a[|a| - 1]))
    ensures TrimEnd(a + w) == a
  {
    if w == [] {
      assert a + w == a;
    } else {
      var s := a + w;
      assert s[..|s| - 1] == a + w[..|w| - 1];
      TrimEndIs(a, w[..|w| - 1]);
    }
  }

  // ---------------------------------------------------------------------------------------------
  // A text with a freshly written block
  // ---------------------------------------------------------------------------------------------

  function BlockText(m: Markers, inner: string): string {
    "  " + m.start + inner + m.end
  }

  /** The text before the block, a newline, the block, a newline, the rest. */
  function Assembled(m: Markers, b: string, inner: string, rest: string): string {
    b + (['\n'] + (BlockText(m, inner) + (['\n'] + rest)))
  }

  /** Inside a block written around slash-free text the markers occur only where they were put. */
  lemma BlockMarkers(m: Markers, inner: string, k: int)
    requires '/' !in inner
    ensures At(BlockText(m, inner), k, m.start) <==> k == 2
    ensures At(BlockText(m, inner), k, m.end) <==> k == 31 + |inner|
  {
    var block := BlockText(m, inner);
    BlockChars(m, inner);
    assert block[2..31] == m.start && block[31 + |inner|..60 + |inner|] == m.end;
    if At(block, k, m.start) {
      AtChar(block, k, m.start, k);
      AtChar(block, k, m.start, k + 1);
      AtChar(block, k, m.start, k + 3);
    }
    if At(block, k, m.end) {
      AtChar(block, k, m.end, k);
      AtChar(block, k, m.end, k + 1);
      AtChar(block, k, m.end, k + 3);
    }
  }

  lemma BlockChars(m: Markers, inner: string)
    requires '/' !in inner
    ensures
      var block := BlockText(m, inner);
      && |block| == 60 + |inner| && block[5] == '>' && block[34 + |inner|] == '<'
      && forall i | 0 <= i < |block| :: block[i] == '/' <==> i in {2, 3, 31 + |inner|, 32 + |inner|}
  {
    var block := BlockText(m, inner);
    forall i | 0 <= i < |block|
      ensures block[i] == '/' <==> i in {2, 3, 31 + |inner|, 32 + |inner|}
    {
      if i < 2 {
        assert block[i] == ' ';
      } else if i < 31 {
        assert block[i] == m.start[i - 2];
      } else if i < 31 + |inner| {
        assert block[i] == inner[i - 31];
      } else {
        assert block[i] == m.end[i - 31 - |inner|];
      }
    }
  }

  lemma AssembledForward(m: Markers, b: string, inner: string, rest: string, k: int, pat: string)
    requires '\n' !in pat && pat != [] && At(Assembled(m, b, inner, rest), k, pat)
    ensures At(b, k, pat) || At(BlockText(m, inner), k - |b| - 1, pat)
        || At(rest, k - |b| - |BlockText(m, inner)| - 2, pat)
  {
    var block := BlockText(m, inner);
    var tail := block + (['\n'] + rest);
    AtBeside(b, '\n', tail, k, pat);
    if |b| < k && At(tail, k - |b| - 1, pat) {
      AtBeside(block, '\n', rest, k - |b| - 1, pat);
    }
  }

  lemma AssembledBackward(m: Markers, b: string, inner: string, rest: string, k: int, pat: string)
    requires pat != []
    ensures At(b, k, pat) ==> At(Assembled(m, b, inner, rest), k, pat)
    ensures At(BlockText(m, inner), k - |b| - 1, pat) ==> At(Assembled(m, b, inner, rest), k, pat)
  {
    var block := BlockText(m, inner);
    var tail := block + (['\n'] + rest);
    if At(b, k, pat) {
      AtLeft(b, ['\n'] + tail, k, pat);
    }
    if At(block, k - |b| - 1, pat) {
      AtLeft(block, ['\n'] + rest, k - |b| - 1, pat);
      AtRight(['\n'], tail, k - |b|, pat);
      AtRight(b, ['\n'] + tail, k, pat);
    }
  }

  /** The first end marker after a start marker at or before the block is the block's own. */
  lemma FirstEnd(m: Markers, b: string, inner: string, rest: string, start: nat)
    requires '/' !in inner && start <= |b| + 32 && start <= |Assembled(m, b, inner, rest)|
    requires NoneWithin(b, m.end, start, |b|)
    ensures |b| + 61 + |inner| <= |Assembled(m, b, inner, rest)|
    ensures Find(Assembled(m, b, inner, rest), m.end, start) == |b| + 32 + |inner|
  {
    var e := |b| + 32 + |inner|;
    BlockMarkers(m, inner, e - |b| - 1);
    AssembledBackward(m, b, inner, rest, e, m.end);
    BlockLength(m, inner);
    forall r | start <= r < e
      ensures !At(Assembled(m, b, inner, rest), r, m.end)
    {
      if At(Assembled(m, b, inner, rest), r, m.end) {
        AssembledForward(m, b, inner, rest, r, m.end);
        BlockMarkers(m, inner, r - |b| - 1);
      }
    }
    FindIs(Assembled(m, b, inner, rest), m.end, start, e);
  }

  lemma BlockLength(m: Markers, inner: string)
    ensures |BlockText(m, inner)| == 60 + |inner|
  {
  }

  /** The first start marker is the first in `b`, or else the block's own. */
  lemma FirstStart(m: Markers, b: string, inner: string, rest: string, q: nat)
    requires '/' !in inner && NoneWithin(b, m.start, 0, q) && (q == |b| + 3 || At(b, q, m.start))
    ensures q + 29 <= |Assembled(m, b, inner, rest)| && q <= |b| + 3
    ensures Find(Assembled(m, b, inner, rest), m.start, 0) == q
  {
    BlockMarkers(m, inner, q - |b| - 1);
    AssembledBackward(m, b, inner, rest, q, m.start);
    BlockLength(m, inner);
    forall k | 0 <= k < q
      ensures !At(Assembled(m, b, inner, rest), k, m.start)
    {
      if At(Assembled(m, b, inner, rest), k, m.start) {
        AssembledForward(m, b, inner, rest, k, m.start);
        BlockMarkers(m, inner, k - |b| - 1);
      }
    }
    FindIs(Assembled(m, b, inner, rest), m.start, 0, q);
  }

  lemma AfterBlock(m: Markers, b: string, inner: string, rest: string)
    requires rest != [] && !IsSpace(rest[0]) && rest[0] != ','
    ensures
      var text := Assembled(m, b, inner, rest);
      var i := |b| + 32 + |inner| + 29;
      i <= |text| && text[BlockEnd(text, i)..] == rest
  {
    var text := Assembled(m, b, inner, rest);
    var i := |b| + 61 + |inner|;
    BlockLength(m, inner);
    var front := b + (['\n'] + BlockText(m, inner));
    assert |front| == i;
    assert text == front + (['\n'] + rest);
    assert text[i + 1..] == rest && text[i] == '\n';
    assert text[i + 1] == rest[0];
    assert SpaceEnd(text, i + 1) == i + 1;
    assert SpaceEnd(text, i) == i + 1;
  }

  lemma FirstBlockIs(m: Markers, text: string, q: nat, r: nat, rest: string) returns (e: nat)
    requires q + 29 <= |text| && Find(text, m.start, 0) == q
    requires r + 29 <= |text| && Find(text, m.end, q + 29) == r
    requires text[BlockEnd(text, r + 29)..] == rest
    ensures q < e <= |text| && text[e..] == rest && FirstBlock(m, text) == Span(q, e)
  {
    e := BlockEnd(text, r + 29);
  }

  lemma AssembledSpan(m: Markers, text: string, b: string, inner: string, rest: string, q: nat)
    requires text == Assembled(m, b, inner, rest)
    requires '/' !in inner && rest != [] && !IsSpace(rest[0]) && rest[0] != ','
    requires NoneWithin(b, m.start, 0, q) && (q == |b| + 3 || At(b, q, m.start))
    requires NoneWithin(b, m.end, q + 29, |b|)
    ensures
      var r := |b| + 32 + |inner|;
      && q + 29 <= |text| && Find(text, m.start, 0) == q
      && r + 29 <= |text| && Find(text, m.end, q + 29) == r
      && text[BlockEnd(text, r + 29)..] == rest
  {
    FirstStart(m, b, inner, rest, q);
    FirstEnd(m, b, inner, rest, q + 29);
    AfterBlock(m, b, inner, rest);
  }

  /** Stripping a text with a fresh block: everything from the first start marker up to the end of
      the block goes, provided no end marker comes in between. */
  lemma StripAssembled(m: Markers, text: string, b: string, inner: string, rest: string, q: nat)
    requires text == Assembled(m, b, inner, rest)
    requires '/' !in inner && rest != [] && !IsSpace(rest[0]) && rest[0] != ',' && NoBlock(m, rest)
    requires NoneWithin(b, m.start, 0, q) && (q == |b| + 3 || At(b, q, m.start))
    requires NoneWithin(b, m.end, q + 29, |b|)
    ensures q <= |text| && Stripped(m, text) == TrimEnd(text[..q]) + "\n" + rest
  {
    AssembledSpan(m, text, b, inner, rest, q);
    StripFound(m, text, q, |b| + 32 + |inner|, rest);
  }

  lemma StripFound(m: Markers, text: string, q: nat, r: nat, rest: string)
    requires q + 29 <= |text| && Find(text, m.start, 0) == q
    requires r + 29 <= |text| && Find(text, m.end, q + 29) == r
    requires text[BlockEnd(text, r + 29)..] == rest && NoBlock(m, rest)
    ensures Stripped(m, text) == TrimEnd(text[..q]) + "\n" + rest
  {
    var e := FirstBlockIs(m, text, q, r, rest);
    StripNothing(m, rest);
  }

  // ---------------------------------------------------------------------------------------------
  // Stripping is a regular-expression substitution
  // ---------------------------------------------------------------------------------------------

  /** From `i` on whitespace, as much as there is, up to `w`, a comma if one is there, and a newline if one
      follows the comma. */
  ghost predicate IsTail(text: string, i: nat, w: nat, e: nat) {
    && i <= w <= e <= |text|
    && (forall k | i <= k < w :: IsSpace(text[k])) && (w < |text| ==> !IsSpace(text[w]))
    && (e > w <==> w < |text| && text[w] == ',')
    && (e > w ==> e == if w + 1 < |text| && text[w + 1] == '\n' then w + 2 else w + 1)
  }

  /** The first start marker is at `q`, and the first end marker behind it at `r`. */
  ghost predicate IsPair(m: Markers, text: string, q: nat, r: nat) {
    && At(text, q, m.start) && NoneWithin(text, m.start, 0, q)
    && q + 29 <= r && At(text, r, m.end) && NoneWithin(text, m.end, q + 29, r)
  }

  /** Where `\n?\s*START.*?END\s*,?\n?` matches first: from `s` on whitespace, as much as there is, then
      the first pair of markers, and what may follow the end marker up to `e`. */
  ghost predicate IsBlock(m: Markers, text: string, s: nat, q: nat, r: nat, w: nat, e: nat) {
    && s <= q && IsPair(m, text, q, r) && r + 29 <= |text| && IsTail(text, r + 29, w, e)
    && (forall k | s <= k < q :: IsSpace(text[k])) && (s > 0 ==> !IsSpace(text[s - 1]))
  }

  lemma TailIs(text: string, i: nat, w: nat, e: nat)
    requires i <= |text|
    ensures IsTail(text, i, w, e) ==> BlockEnd(text, i) == e
    ensures IsTail(text, i, SpaceEnd(text, i), BlockEnd(text, i))
  {
    SpaceRun(text, i);
    if IsTail(text, i, w, e) {
      SpaceEndAt(text, i, w);
    }
  }

  lemma PairIs(m: Markers, text: string, q: nat, r: nat)
    requires IsPair(m, text, q, r) && r + 29 <= |text|
    ensures FirstBlock(m, text) == Span(q, BlockEnd(text, r + 29))
  {
    FindIs(text, m.start, 0, q);
    FindIs(text, m.end, q + 29, r);
  }

  /** Stripping replaces the first match by one newline and goes on behind it; where nothing matches, by
      `StripNothing` and `FirstBlockExists`, it changes nothing. */
  lemma StripsBlocks(m: Markers, text: string, s: nat, q: nat, r: nat, w: nat, e: nat)
    requires IsBlock(m, text, s, q, r, w, e)
    ensures s <= e <= |text| && Stripped(m, text) == text[..s] + "\n" + Stripped(m, text[e..])
  {
    StripPair(m, text, q, r, w, e);
    SpaceCut(text, s, q);
  }

  lemma StripPair(m: Markers, text: string, q: nat, r: nat, w: nat, e: nat)
    requires IsPair(m, text, q, r) && r + 29 <= |text| && IsTail(text, r + 29, w, e)
    ensures q <= e <= |text| && Stripped(m, text) == TrimEnd(text[..q]) + "\n" + Stripped(m, text[e..])
  {
    PairIs(m, text, q, r);
    TailIs(text, r + 29, w, e);
    StripOne(m, text, q, e);
  }

  lemma SpaceCut(text: string, s: nat, q: nat)
    requires s <= q <= |text| && (forall k | s <= k < q :: IsSpace(text[k])) && (s > 0 ==> !IsSpace(text[s - 1]))
    ensures TrimEnd(text[..q]) == text[..s]
  {
    assert text[..q] == text[..s] + text[s..q];
    TrimEndIs(text[..s], text[s..q]);
  }

  lemma StripOne(m: Markers, text: string, q: nat, e: nat)
    requires FirstBlock(m, text) == Span(q, e)
    ensures q <= e <= |text| && Stripped(m, text) == TrimEnd(text[..q]) + "\n" + Stripped(m, text[e..])
  {
  }

  /** A text that is not free of blocks has a first one. */
  lemma FirstBlockExists(m: Markers, text: string) returns (s: nat, q: nat, r: nat, w: nat, e: nat)
    requires !NoBlock(m, text)
    ensures IsBlock(m, text, s, q, r, w, e)
  {
    q, r := FirstPair(m, text);
    w, e := SpaceEnd(text, r + 29), BlockEnd(text, r + 29);
    TailIs(text, r + 29, w, e);
    s := SpaceBefore(text, q);
  }

  lemma FirstPair(m: Markers, text: string) returns (q: nat, r: nat)
    requires !NoBlock(m, text)
    ensures IsPair(m, text, q, r) && r + 29 <= |text|
  {
    var k, l :| At(text, k, m.start) && At(text, l, m.end) && l >= k + |m.start|;
    FindFirst(text, m.start, 0);
    q := Find(text, m.start, 0);
    assert q <= k;
    FindFirst(text, m.end, q + 29);
    r := Find(text, m.end, q + 29);
  }

  lemma SpaceBefore(text: string, q: nat) returns (s: nat)
    requires q <= |text|
    ensures s <= q && (forall k | s <= k < q :: IsSpace(text[k])) && (s > 0 ==> !IsSpace(text[s - 1]))
  {
    s := q;
    while s > 0 && IsSpace(text[s - 1])
      invariant s <= q && forall k | s <= k < q :: IsSpace(text[k])
    {
      s := s - 1;
    }
  }

  lemma SpaceEndAt(text: string, i: nat, r: nat)
    requires i <= r <= |text| && (forall k | i <= k < r :: IsSpace(text[k])) && (r < |text| ==> !IsSpace(text[r]))
    ensures SpaceEnd(text, i) == r
    decreases r - i
  {
    if i < r {
      SpaceEndAt(text, i + 1, r);
    }
  }

  lemma SpaceRun(text: string, i: nat)
    requires i <= |text|
    ensures forall k | i <= k < SpaceEnd(text, i) :: IsSpace(text[k])
    decreases |text| - i
  {
    if i < |text| && IsSpace(text[i]) {
      SpaceRun(text, i + 1);
    }
  }

  /** The whitespace characters, one by one. */
  const SPACES: string := "\t\n\U{000B}\U{000C}\r\U{001C}\U{001D}\U{001E}\U{001F} \U{0085}\U{00A0}\U{1680}"
    + "\U{2000}\U{2001}\U{2002}\U{2003}\U{2004}\U{2005}\U{2006}\U{2007}\U{2008}\U{2009}\U{200A}"
    + "\U{2028}\U{2029}\U{202F}\U{205F}\U{3000}"

  lemma SpaceTable(c: char)
    ensures IsSpace(c) <==> c in SPACES
  {
  }
}

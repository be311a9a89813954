/** zed-extension/src/lib.rs: reading session declarations from the lines of an Isabelle ROOT file.
    The two scanning loops are methods proved against recursive specifications; a printer of
    declarations is the partner that the parser inverts. */
module RootFile {
  import opened Protocol
  import opened Text

  /** Rust's char::is_whitespace: the Unicode White_Space property. */
  predicate IsSpace(c: char) {
    var n := c as int;
    || 9 <= n <= 13 || n == 0x20 || n == 0x85 || n == 0xA0 || n == 0x1680
    || 0x2000 <= n <= 0x200A || n == 0x2028 || n == 0x2029 || n == 0x202F || n == 0x205F || n == 0x3000
  }

  /** The whitespace characters, one by one. */
  const SPACES: string := "\t\n\U{000B}\U{000C}\r \U{0085}\U{00A0}\U{1680}"
    + "\U{2000}\U{2001}\U{2002}\U{2003}\U{2004}\U{2005}\U{2006}\U{2007}\U{2008}\U{2009}\U{200A}"
    + "\U{2028}\U{2029}\U{202F}\U{205F}\U{3000}"

  lemma SpaceTable(c: char)
    ensures IsSpace(c) <==> c in SPACES
  {
  }

  predicate AllSpace(s: string) {
    forall i | 0 <= i < |s| :: IsSpace(s[i])
  }

  function TrimStart(s: string): string {
    if s != [] && IsSpace(s[0]) then TrimStart(s[1..]) else s
  }

  // ---------------------------------------------------------------------------------------------
  // Comment stripping
  // ---------------------------------------------------------------------------------------------

  lemma MoveOne<T>(all: seq<T>, done: seq<T>, rest: seq<T>, x: T, rest': seq<T>)
    requires all == done + rest && rest == [x] + rest'
    ensures all == (done + [x]) + rest'
  {
  }

  function Stripped(line: string, quoted: bool): string {
    if line == [] then []
    else if line[0] == '"' then [line[0]] + Stripped(line[1..], !quoted)
    else if line[0] == '#' && !quoted then []
    else [line[0]] + Stripped(line[1..], quoted)
  }

  method StripUnquotedHashComment(line: string) returns (out: string)
    ensures out == Stripped(line, false)
  {
    out := "";
    var inQuotes := false;
    var i := 0;
    while i < |line|
      invariant 0 <= i <= |line|
      invariant Stripped(line, false) == out + Stripped(line[i..], inQuotes)
    {
      var ch := line[i];
      ghost var rest := line[i..];
      assert rest[1..] == line[i + 1..] && rest[0] == ch;
      ghost var next := Stripped(line[i + 1..], if ch == '"' then !inQuotes else inQuotes);
      if !(ch == '#' && !inQuotes) {
        MoveOne(Stripped(line, false), out, Stripped(rest, inQuotes), ch, next);
      }
      if ch == '"' {
        inQuotes := !inQuotes;
        out := out + [ch];
        i := i + 1;
        continue;
      }
      if ch == '#' && !inQuotes {
        break;
      }
      out := out + [ch];
      i := i + 1;
    }
  }

  /** Whether reading `s` from the given state ends inside quotes. */
  function QuotedAfter(s: string, quoted: bool): bool {
    if s == [] then quoted else QuotedAfter(s[1..], if s[0] == '"' then !quoted else quoted)
  }

  /** A `#` outside quotes at position `k`. */
  ghost predicate CommentAt(line: string, quoted: bool, k: nat) {
    k < |line| && line[k] == '#' && !QuotedAfter(line[..k], quoted)
  }

  /** Stripping cuts the line exactly at its first `#` outside quotes, and nowhere else. */
  lemma {:induction false} StripCuts(line: string, quoted: bool)
    ensures Stripped(line, quoted) <= line
    ensures forall k: nat | k < |Stripped(line, quoted)| :: !CommentAt(line, quoted, k)
    ensures Stripped(line, quoted) == line || CommentAt(line, quoted, |Stripped(line, quoted)|)
  {
    if line != [] && !(line[0] == '#' && !quoted) {
      var next := if line[0] == '"' then !quoted else quoted;
      var rest := line[1..];
      StripCuts(rest, next);
      forall k: nat | 0 < k < |line|
        ensures CommentAt(line, quoted, k) <==> CommentAt(rest, next, k - 1)
      {
        assert line[..k][1..] == rest[..k - 1];
      }
      assert Stripped(line, quoted) == [line[0]] + Stripped(rest, next);
      forall k: nat | k < |Stripped(line, quoted)|
        ensures !CommentAt(line, quoted, k)
      {
        if k > 0 {
          assert !CommentAt(rest, next, k - 1);
        }
      }
    }
  }

  /** Stripping a second time changes nothing. */
  lemma {:induction false} StripIdempotent(line: string, quoted: bool)
    ensures Stripped(Stripped(line, quoted), quoted) == Stripped(line, quoted)
  {
    if line != [] && !(line[0] == '#' && !quoted) {
      StripIdempotent(line[1..], if line[0] == '"' then !quoted else quoted);
    }
  }

  lemma StripTail(a: string, quoted: bool)
    requires a != [] && Stripped(a, quoted) == a
    ensures !(a[0] == '#' && !quoted)
    ensures Stripped(a[1..], if a[0] == '"' then !quoted else quoted) == a[1..]
  {
    var rest := Stripped(a[1..], if a[0] == '"' then !quoted else quoted);
    assert Stripped(a, quoted)[1..] == rest;
  }

  lemma ConsAppend(a: string, b: string)
    requires a != []
    ensures [a[0]] + (a[1..] + b) == a + b
  {
  }

  lemma {:induction false} StripAppend(a: string, b: string, quoted: bool)
    requires Stripped(a, quoted) == a
    ensures Stripped(a + b, quoted) == a + Stripped(b, QuotedAfter(a, quoted))
  {
    if a == [] {
      assert a + b == b;
    } else {
      var next, c := if a[0] == '"' then !quoted else quoted, a + b;
      assert c[1..] == a[1..] + b && c[0] == a[0];
      StripTail(a, quoted);
      StripAppend(a[1..], b, next);
      assert Stripped(c, quoted) == [a[0]] + Stripped(c[1..], next);
      ConsAppend(a, Stripped(b, QuotedAfter(a, quoted)));
    }
  }

  // ---------------------------------------------------------------------------------------------
  // Tokens
  // ---------------------------------------------------------------------------------------------

  /** The first position from `i` on that holds whitespace, or the end. */
  function SpaceFrom(s: string, i: nat): (r: nat)
    requires i <= |s|
    ensures i <= r <= |s| && (forall k | i <= k < r :: !IsSpace(s[k])) && (r < |s| ==> IsSpace(s[r]))
    decreases |s| - i
  {
    if i < |s| && !IsSpace(s[i]) then SpaceFrom(s, i + 1) else i
  }

  function Tokens(s: string): seq<string>
    decreases |s|
  {
    if s == [] then []
    else if IsSpace(s[0]) then Tokens(s[1..])
    else if s[0] == '"' then
      var q := IndexFrom(s, '\"', 1);
      [s[1..q]] + Tokens(if q < |s| then s[q + 1..] else [])
    else
      var e := SpaceFrom(s, 1);
      [s[..e]] + Tokens(s[e..])
  }

  /** The characters up to the closing quote, which is consumed too when there is one. */
  method TakeQuoted(line: string, i: nat) returns (token: string, j: nat)
    requires i <= |line|
    ensures i <= j <= |line| && token == line[i..IndexFrom(line, '\"', i)]
    ensures j == if IndexFrom(line, '\"', i) < |line| then IndexFrom(line, '\"', i) + 1 else |line|
  {
    token, j := "", i;
    while j < |line|
      invariant i <= j <= |line| && token == line[i..j] && IndexFrom(line, '\"', i) == IndexFrom(line, '\"', j)
    {
      var next := line[j];
      j := j + 1;
      if next == '"' {
        return;
      }
      token := token + [next];
    }
  }

  method TakeBare(line: string, i: nat) returns (token: string, j: nat)
    requires i < |line|
    ensures i < j <= |line| && j == SpaceFrom(line, i + 1) && token == line[i..j]
  {
    token, j := [line[i]], i + 1;
    while j < |line|
      invariant i < j <= |line| && token == line[i..j] && SpaceFrom(line, i + 1) == SpaceFrom(line, j)
    {
      if IsSpace(line[j]) {
        break;
      }
      token := token + [line[j]];
      j := j + 1;
    }
  }

  /** What is still to be scanned from `i` on, after `tokens`, gives `all`. */
  ghost predicate Scanned(line: string, all: seq<string>, tokens: seq<string>, i: nat) {
    i <= |line| && all == tokens + Tokens(line[i..])
  }

  method TokenizeRootLine(line: string) returns (tokens: seq<string>)
    ensures tokens == Tokens(line)
  {
    ghost var all := Tokens(line);
    tokens := [];
    var i := 0;
    NoneScanned(line, all);
    while i < |line|
      invariant 0 <= i <= |line| && Scanned(line, all, tokens, i)
    {
      if IsSpace(line[i]) {
        SpaceScanned(line, all, tokens, i);
        i := i + 1;
        continue;
      }
      var token;
      if line[i] == '"' {
        ghost var open := i;
        token, i := TakeQuoted(line, i + 1);
        QuotedScanned(line, all, tokens, open, i);
      } else {
        BareScanned(line, all, tokens, i);
        token, i := TakeBare(line, i);
      }
      tokens := tokens + [token];
    }
    AllScanned(line, all, tokens);
  }

  lemma NoneScanned(line: string, all: seq<string>)
    requires all == Tokens(line)
    ensures Scanned(line, all, [], 0)
  {
    assert line[0..] == line;
  }

  lemma AllScanned(line: string, all: seq<string>, tokens: seq<string>)
    requires Scanned(line, all, tokens, |line|)
    ensures tokens == all
  {
    assert line[|line|..] == [];
  }

  lemma SpaceScanned(line: string, all: seq<string>, tokens: seq<string>, i: nat)
    requires i < |line| && IsSpace(line[i]) && Scanned(line, all, tokens, i)
    ensures Scanned(line, all, tokens, i + 1)
  {
    assert line[i..][1..] == line[i + 1..];
  }

  lemma TokenScanned(line: string, all: seq<string>, tokens: seq<string>, i: nat, token: string, j: nat)
    requires Scanned(line, all, tokens, i) && j <= |line|
    requires Tokens(line[i..]) == [token] + Tokens(line[j..])
    ensures Scanned(line, all, tokens + [token], j)
  {
    MoveOne(all, tokens, Tokens(line[i..]), token, Tokens(line[j..]));
  }

  lemma QuotedScanned(line: string, all: seq<string>, tokens: seq<string>, i: nat, j: nat)
    requires i < |line| && line[i] == '"' && Scanned(line, all, tokens, i)
    requires j == if IndexFrom(line, '\"', i + 1) < |line| then IndexFrom(line, '\"', i + 1) + 1 else |line|
    ensures Scanned(line, all, tokens + [line[i + 1..IndexFrom(line, '\"', i + 1)]], j)
  {
    var q := IndexFrom(line, '\"', i + 1);
    QuotedStep(line, i, q, j);
    TokenScanned(line, all, tokens, i, line[i + 1..q], j);
  }

  lemma BareScanned(line: string, all: seq<string>, tokens: seq<string>, i: nat)
    requires i < |line| && line[i] != '"' && !IsSpace(line[i]) && Scanned(line, all, tokens, i)
    ensures
      var e := SpaceFrom(line, i + 1);
      Scanned(line, all, tokens + [line[i..e]], e)
  {
    var e := SpaceFrom(line, i + 1);
    BareStep(line, i, e);
    TokenScanned(line, all, tokens, i, line[i..e], e);
  }

  lemma QuoteIs(s: string, i: nat, r: nat)
    requires i <= r <= |s| && (forall k | i <= k < r :: s[k] != '"') && (r < |s| ==> s[r] == '"')
    ensures IndexFrom(s, '\"', i) == r
  {
  }

  lemma SpaceFromIs(s: string, i: nat, r: nat)
    requires i <= r <= |s| && (forall k | i <= k < r :: !IsSpace(s[k])) && (r < |s| ==> IsSpace(s[r]))
    ensures SpaceFrom(s, i) == r
  {
  }

  lemma QuotedStep(line: string, i: nat, q: nat, j: nat)
    requires i < q <= |line| && line[i] == '"' && j == if q < |line| then q + 1 else q
    requires (forall k | i < k < q :: line[k] != '"') && (q < |line| ==> line[q] == '"')
    ensures Tokens(line[i..]) == [line[i + 1..q]] + Tokens(line[j..])
  {
    var rest := line[i..];
    assert rest[0] == '"' && !IsSpace(rest[0]);
    QuoteIs(rest, 1, q - i);
    assert rest[1..q - i] == line[i + 1..q];
    if q < |line| {
      assert rest[q - i + 1..] == line[j..];
    } else {
      assert line[j..] == [];
    }
  }

  lemma BareStep(line: string, i: nat, e: nat)
    requires i < e <= |line| && line[i] != '"' && !IsSpace(line[i])
    requires (forall k | i < k < e :: !IsSpace(line[k])) && (e < |line| ==> IsSpace(line[e]))
    ensures Tokens(line[i..]) == [line[i..e]] + Tokens(line[e..])
  {
    var rest := line[i..];
    SpaceFromIs(rest, 1, e - i);
    assert rest[..e - i] == line[i..e] && rest[e - i..] == line[e..];
  }

  // ---------------------------------------------------------------------------------------------
  // Session declarations
  // ---------------------------------------------------------------------------------------------

  datatype Declaration = Declaration(name: string, parent: Option<string>)

  /** The token after the first `=` that has one. */
  function ParentIn(tokens: seq<string>): Option<string> {
    if |tokens| < 2 then None
    else if tokens[0] == "=" then if tokens[1] == "" then None else Some(tokens[1])
    else ParentIn(tokens[1..])
  }

  function Declared(tokens: seq<string>): Option<Declaration> {
    if |tokens| < 2 || tokens[0] != "session" || tokens[1] == "" then None
    else Some(Declaration(tokens[1], ParentIn(tokens)))
  }

  predicate Ignored(trimmed: string) {
    trimmed == "" || trimmed[0] == '#' || "(*" <= trimmed
  }

  function ParsedSession(line: string): Option<Declaration> {
    var trimmed := TrimStart(line);
    if Ignored(trimmed) then None else Declared(Tokens(TrimStart(Stripped(trimmed, false))))
  }

  method ParseSessionFromLine(line: string) returns (session: Option<Declaration>)
    ensures session == ParsedSession(line)
  {
    var trimmed := TrimStart(line);
    if trimmed == "" || trimmed[0] == '#' || "(*" <= trimmed {
      return None;
    }
    trimmed := StripUnquotedHashComment(trimmed);
    trimmed := TrimStart(trimmed);
    if trimmed == "" {
      return None;
    }
    var tokens := TokenizeRootLine(trimmed);
    if |tokens| == 0 || tokens[0] != "session" {
      return None;
    }
    if |tokens| < 2 || tokens[1] == "" {
      return None;
    }
    var parent := None;
    var k := 0;
    while k + 1 < |tokens|
      invariant 0 <= k < |tokens| && parent == None
      invariant ParentIn(tokens) == ParentIn(tokens[k..])
    {
      assert tokens[k..][1..] == tokens[k + 1..];
      if tokens[k] == "=" {
        if tokens[k + 1] != "" {
          parent := Some(tokens[k + 1]);
        }
        break;
      }
      k := k + 1;
    }
    return Some(Declaration(tokens[1], parent));
  }

  // ---------------------------------------------------------------------------------------------
  // The printer that the parser inverts
  // ---------------------------------------------------------------------------------------------

  datatype Piece = Quoted(text: string) | Bare(text: string)

  /** A token and the whitespace printed after it. */
  datatype Item = Item(piece: Piece, gap: string)

  predicate Printable(piece: Piece) {
    match piece
    case Quoted(text) => '"' !in text
    case Bare(text) => text != "" && forall i | 0 <= i < |text| :: !IsSpace(text[i]) && text[i] != '"' && text[i] != '#'
  }

  /** Whitespace may be left out after a quoted token and at the end of the line. */
  predicate PrintableAll(items: seq<Item>) {
    items == [] ||
    (&& Printable(items[0].piece) && AllSpace(items[0].gap)
     && (items[0].gap == "" ==> items[0].piece.Quoted? || |items| == 1)
     && PrintableAll(items[1..]))
  }

  predicate IsComment(s: string) {
    s == "" || s[0] == '#'
  }

  function Printed(piece: Piece): string {
    match piece
    case Quoted(text) => "\"" + text + "\""
    case Bare(text) => text
  }

  function PrintedAll(items: seq<Item>): string {
    if items == [] then "" else Printed(items[0].piece) + (items[0].gap + PrintedAll(items[1..]))
  }

  function Texts(items: seq<Item>): seq<string> {
    if items == [] then [] else [items[0].piece.text] + Texts(items[1..])
  }

  // ----- stripping leaves printed tokens alone -----

  lemma {:induction false} PlainUnstripped(s: string)
    requires '"' !in s && '#' !in s
    ensures Stripped(s, false) == s && !QuotedAfter(s, false)
  {
    if s != [] {
      PlainUnstripped(s[1..]);
    }
  }

  lemma {:induction false} QuotedUnstripped(s: string)
    requires '"' !in s
    ensures Stripped(s + "\"", true) == s + "\"" && !QuotedAfter(s + "\"", true)
  {
    var t := s + "\"";
    if s == [] {
      assert t == "\"";
      assert t[1..] == [];
    } else {
      QuotedUnstripped(s[1..]);
      assert t[1..] == s[1..] + "\"";
    }
  }

  lemma PieceUnstripped(piece: Piece)
    requires Printable(piece)
    ensures Stripped(Printed(piece), false) == Printed(piece) && !QuotedAfter(Printed(piece), false)
  {
    match piece
    case Bare(text) => PlainUnstripped(text);
    case Quoted(text) =>
      QuotedUnstripped(text);
      var p := Printed(piece);
      assert p[1..] == text + "\"";
      assert p[0] == '"';
  }

  lemma StripTwo(a: string, b: string, c: string)
    requires Stripped(a, false) == a && !QuotedAfter(a, false)
    requires Stripped(b, false) == b && !QuotedAfter(b, false)
    ensures Stripped(a + (b + c), false) == a + (b + Stripped(c, false))
  {
    StripAppend(b, c, false);
    StripAppend(a, b + c, false);
  }

  lemma Regroup(a: string, b: string, c: string, d: string)
    ensures (a + (b + c)) + d == a + (b + (c + d))
  {
  }

  lemma {:induction false} StripPrinted(items: seq<Item>, comment: string)
    requires PrintableAll(items) && IsComment(comment)
    ensures Stripped(PrintedAll(items) + comment, false) == PrintedAll(items)
  {
    var all := PrintedAll(items);
    if items == [] {
      assert all + comment == comment;
    } else {
      var p, gap, rest := Printed(items[0].piece), items[0].gap, PrintedAll(items[1..]);
      StripPrinted(items[1..], comment);
      PieceUnstripped(items[0].piece);
      PlainUnstripped(gap);
      StripTwo(p, gap, rest + comment);
      Regroup(p, gap, rest, comment);
    }
  }

  // ----- tokenizing printed tokens -----

  lemma {:induction false} TokensSkipSpace(gap: string, rest: string)
    requires AllSpace(gap)
    ensures Tokens(gap + rest) == Tokens(rest)
  {
    if gap == [] {
      assert gap + rest == rest;
    } else {
      assert (gap + rest)[1..] == gap[1..] + rest;
      TokensSkipSpace(gap[1..], rest);
    }
  }

  lemma TokensPiece(piece: Piece, rest: string)
    requires Printable(piece)
    requires piece.Bare? ==> rest == "" || IsSpace(rest[0])
    ensures Tokens(Printed(piece) + rest) == [piece.text] + Tokens(rest)
  {
    match piece
    case Bare(text) => TokensBare(text, rest);
    case Quoted(text) => TokensQuoted(text, rest);
  }

  lemma TokensBare(text: string, rest: string)
    requires Printable(Bare(text)) && (rest == "" || IsSpace(rest[0]))
    ensures Tokens(text + rest) == [text] + Tokens(rest)
  {
    var s := text + rest;
    assert s[0..] == s && s[|text|..] == rest && s[0..|text|] == text;
    assert text[0] == s[0];
    BareStep(s, 0, |text|);
  }

  lemma TokensQuoted(text: string, rest: string)
    requires '"' !in text
    ensures Tokens("\"" + text + "\"" + rest) == [text] + Tokens(rest)
  {
    var s := "\"" + text + "\"" + rest;
    var q := |text| + 1;
    assert s[0..] == s && s[q + 1..] == rest && s[1..q] == text;
    forall k | 0 < k < q
      ensures s[k] != '"'
    {
      assert s[k] == text[k - 1];
    }
    QuotedStep(s, 0, q, q + 1);
  }

  lemma {:induction false} TokensPrinted(items: seq<Item>)
    requires PrintableAll(items)
    ensures Tokens(PrintedAll(items)) == Texts(items)
  {
    if items != [] {
      var gap, rest := items[0].gap, PrintedAll(items[1..]);
      TokensPrinted(items[1..]);
      TokensSkipSpace(gap, rest);
      assert gap == "" && items[0].piece.Bare? ==> rest == "";
      TokensPiece(items[0].piece, gap + rest);
    }
  }

  /** Stripping and tokenizing a printed line give back exactly its tokens, whatever the comment. */
  lemma TokenizeInvertsPrint(items: seq<Item>, comment: string)
    requires PrintableAll(items) && IsComment(comment)
    ensures Tokens(Stripped(PrintedAll(items) + comment, false)) == Texts(items)
  {
    StripPrinted(items, comment);
    TokensPrinted(items);
  }

  // ----- parsing printed declarations -----

  lemma {:induction false} TrimStartSkips(lead: string, rest: string)
    requires AllSpace(lead) && rest != "" && !IsSpace(rest[0])
    ensures TrimStart(lead + rest) == rest
  {
    if lead == [] {
      assert lead + rest == rest;
    } else {
      assert (lead + rest)[1..] == lead[1..] + rest;
      TrimStartSkips(lead[1..], rest);
    }
  }

  lemma SessionNotIgnored(items: seq<Item>, comment: string)
    requires PrintableAll(items) && items != [] && items[0].piece.text == "session"
    ensures
      var s := PrintedAll(items) + comment;
      s != "" && !IsSpace(s[0]) && !Ignored(s) && PrintedAll(items) != "" && !IsSpace(PrintedAll(items)[0])
  {
    var p := Printed(items[0].piece);
    var s := PrintedAll(items) + comment;
    assert |p| >= 7 && p <= PrintedAll(items) <= s;
    assert p[0] == '"' || p[0] == 's';
    assert s[0] == p[0] && "(*"[0] == '(';
  }

  /** The parser inverts the printer: a printed line whose first token is `session` parses to what
      its tokens declare, with any leading whitespace and any trailing comment. */
  lemma ParseInvertsPrint(line: string, lead: string, items: seq<Item>, comment: string)
    requires AllSpace(lead) && PrintableAll(items) && IsComment(comment)
    requires line == lead + (PrintedAll(items) + comment)
    requires items != [] && items[0].piece.text == "session"
    ensures ParsedSession(line) == Declared(Texts(items))
  {
    var s := PrintedAll(items) + comment;
    SessionNotIgnored(items, comment);
    TrimStartSkips(lead, s);
    TokenizeInvertsPrint(items, comment);
    StripPrinted(items, comment);
  }

  lemma {:induction false} TextsAt(items: seq<Item>)
    ensures |Texts(items)| == |items| && forall i | 0 <= i < |items| :: Texts(items)[i] == items[i].piece.text
  {
    if items != [] {
      TextsAt(items[1..]);
    }
  }

  /** A printed line is a session declaration exactly if its first token is `session` and a second
      token that is not empty follows. */
  lemma SessionIff(lead: string, items: seq<Item>, comment: string)
    requires AllSpace(lead) && PrintableAll(items) && IsComment(comment)
    ensures ParsedSession(lead + (PrintedAll(items) + comment)).Some?
       <==> |items| >= 2 && items[0].piece.text == "session" && items[1].piece.text != ""
  {
    var s := PrintedAll(items) + comment;
    TextsAt(items);
    if items == [] {
      BlankIgnored(lead, s);
    } else if items[0].piece.text == "session" {
      ParseInvertsPrint(lead + s, lead, items, comment);
    } else {
      PrintedStart(items, comment);
      TrimStartSkips(lead, s);
      TokenizeInvertsPrint(items, comment);
      StripPrinted(items, comment);
    }
  }

  lemma PrintedStart(items: seq<Item>, comment: string)
    requires PrintableAll(items) && items != []
    ensures
      var all, s := PrintedAll(items), PrintedAll(items) + comment;
      s != "" && !IsSpace(s[0]) && all != "" && !IsSpace(all[0])
  {
    var p := Printed(items[0].piece);
    assert p <= PrintedAll(items) && p[0] == PrintedAll(items)[0];
  }

  /** A line of whitespace, or of whitespace and a comment, declares nothing. */
  lemma BlankIgnored(lead: string, comment: string)
    requires AllSpace(lead) && IsComment(comment)
    ensures ParsedSession(lead + comment) == None
  {
    if comment == "" {
      BlankTrims(lead);
      assert lead + comment == lead;
    } else {
      TrimStartSkips(lead, comment);
    }
  }

  lemma {:induction false} BlankTrims(lead: string)
    requires AllSpace(lead)
    ensures TrimStart(lead) == ""
  {
    if lead != [] {
      BlankTrims(lead[1..]);
    }
  }

  /** The first `=` that another token follows is at position `k`. */
  ghost predicate FirstEquals(tokens: seq<string>, k: nat) {
    k + 1 < |tokens| && tokens[k] == "=" && forall j | 0 <= j < k :: tokens[j] != "="
  }

  lemma {:induction false} ParentAt(tokens: seq<string>, k: nat)
    requires FirstEquals(tokens, k)
    ensures ParentIn(tokens) == if tokens[k + 1] == "" then None else Some(tokens[k + 1])
  {
    if k > 0 {
      assert tokens[0] != "=";
      assert FirstEquals(tokens[1..], k - 1);
      ParentAt(tokens[1..], k - 1);
    }
  }

  /** What a session line declares, whatever its tokens: its second token is the name; a parent is
      declared exactly if some `=` has a token behind it, and the one behind the first such `=` is not
      empty; that token is the parent. */
  lemma DeclaredExactly(lead: string, items: seq<Item>, comment: string, parent: string)
    requires AllSpace(lead) && PrintableAll(items) && IsComment(comment)
    requires |items| >= 2 && items[0].piece.text == "session" && items[1].piece.text != ""
    ensures
      var parsed := ParsedSession(lead + (PrintedAll(items) + comment));
      && parsed.Some? && parsed.value.name == items[1].piece.text
      && (parsed.value.parent == Some(parent) <==>
            parent != "" && exists k: nat :: FirstEquals(Texts(items), k) && Texts(items)[k + 1] == parent)
  {
    var tokens := Texts(items);
    TextsAt(items);
    ParseInvertsPrint(lead + (PrintedAll(items) + comment), lead, items, comment);
    if forall i | 0 <= i < |tokens| - 1 :: tokens[i] != "=" {
      NoParent(tokens);
    } else {
      var i: nat :| i < |tokens| - 1 && tokens[i] == "=";
      var k := FirstEqualsUpTo(tokens, i);
      ParentAt(tokens, k);
    }
  }

  lemma {:induction false} FirstEqualsUpTo(tokens: seq<string>, i: nat) returns (k: nat)
    requires i + 1 < |tokens| && tokens[i] == "="
    ensures FirstEquals(tokens, k)
  {
    if j: nat :| j < i && tokens[j] == "=" {
      k := FirstEqualsUpTo(tokens, j);
    } else {
      k := i;
    }
  }

  lemma {:induction false} ParentAfter(before: seq<string>, parent: string, after: seq<string>)
    requires "=" !in before && parent != ""
    ensures ParentIn(before + (["=", parent] + after)) == Some(parent)
  {
    var tokens := before + (["=", parent] + after);
    if before == [] {
      assert tokens[0] == "=" && tokens[1] == parent;
    } else {
      assert tokens[0] == before[0] && before[0] in before;
      assert tokens[1..] == before[1..] + (["=", parent] + after);
      ParentAfter(before[1..], parent, after);
    }
  }

  lemma {:induction false} NoParent(tokens: seq<string>)
    requires forall i | 0 <= i < |tokens| - 1 :: tokens[i] != "="
    ensures ParentIn(tokens) == None
  {
    if |tokens| >= 2 {
      assert tokens[0] != "=";
      NoParent(tokens[1..]);
    }
  }

  /** A printed declaration `session NAME ... = PARENT ...` parses to that name and that parent,
      provided no token before the intended `=` is itself `=`. */
  lemma DeclarationRecovered(lead: string, items: seq<Item>, comment: string,
                             name: string, before: seq<string>, parent: string, after: seq<string>)
    requires AllSpace(lead) && PrintableAll(items) && IsComment(comment)
    requires name != "" && parent != "" && name != "=" && "=" !in before
    requires Texts(items) == ["session", name] + before + (["=", parent] + after)
    ensures ParsedSession(lead + (PrintedAll(items) + comment)) == Some(Declaration(name, Some(parent)))
  {
    var head := ["session", name] + before;
    assert "=" !in head;
    ParentAfter(head, parent, after);
    assert Texts(items)[0] == "session" && Texts(items)[1] == name;
    ParseInvertsPrint(lead + (PrintedAll(items) + comment), lead, items, comment);
  }

  /** Without such an `=` the session has no parent; a last token `=` does not count. */
  lemma OrphanRecovered(lead: string, items: seq<Item>, comment: string, name: string, others: seq<string>)
    requires AllSpace(lead) && PrintableAll(items) && IsComment(comment)
    requires name != "" && Texts(items) == ["session", name] + others
    requires name != "=" || others == []
    requires forall i | 0 <= i < |others| - 1 :: others[i] != "="
    ensures ParsedSession(lead + (PrintedAll(items) + comment)) == Some(Declaration(name, None))
  {
    var tokens := Texts(items);
    assert tokens[0] == "session" && tokens[1] == name;
    forall i | 0 <= i < |tokens| - 1
      ensures tokens[i] != "="
    {
      assert i >= 2 ==> tokens[i] == others[i - 2];
    }
    NoParent(tokens);
    ParseInvertsPrint(lead + (PrintedAll(items) + comment), lead, items, comment);
  }
}

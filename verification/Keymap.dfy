/** scripts/install_zed_shortcuts.sh, the embedded Python: writing the shortcut block into a keymap,
    and what a second installation does. */
module Keymap {
  import opened Protocol
  import opened KeymapMarkers
  import opened KeymapKeys

  datatype Task = CheckTheory | BuildSession | RerunLast

  datatype Binding = Binding(key: string, task: Task)

  datatype Outcome = Installed(text: string) | NoFreeKeys | NotAnArray

  const CHECK_CANDIDATES: seq<string> := ["f8", "alt-shift-i", "f6"]
  const BUILD_CANDIDATES: seq<string> := ["f9", "alt-shift-b", "f10"]
  const RERUN_CANDIDATES: seq<string> := ["f7", "alt-i", "f11"]
  const EMPTY_KEYMAP := "[\n]\n"

  // ---------------------------------------------------------------------------------------------
  // The bindings and their block
  // ---------------------------------------------------------------------------------------------

  function Elements(s: seq<string>): set<string> {
    set x | x in s
  }

  function Bound(keys: seq<string>, task: Task): seq<Binding> {
    if keys == [] then [] else [Binding(keys[0], task)] + Bound(keys[1..], task)
  }

  function Bindings(used: set<string>, reserved: set<string>): seq<Binding> {
    var check := Chosen(CHECK_CANDIDATES, used, reserved);
    var build := Chosen(BUILD_CANDIDATES, used + Elements(check), reserved);
    var rerun := Chosen(RERUN_CANDIDATES, used + Elements(check) + Elements(build), reserved);
    Bound(check, CheckTheory) + Bound(build, BuildSession) + Bound(rerun, RerunLast)
  }

  function SpawnBinding(taskName: string): string {
    "[\n        \"task::Spawn\",\n        {\n" + "          \"task_name\": \"" + taskName + "\",\n"
    + "          \"reveal_target\": \"dock\"\n" + "        }\n      ]"
  }

  const TASK_CHECK: string := "isabelle: check current theory " + "(process_theories)"
  const TASK_BUILD: string := "isabelle: build worktree " + "session (build -D)"
  const RERUN_BODY: string := "[\"task::Rerun\", { " + "\"reevaluate_context\": true }]"

  function Body(task: Task): string {
    match task
    case CheckTheory => SpawnBinding(TASK_CHECK)
    case BuildSession => SpawnBinding(TASK_BUILD)
    case RerunLast => RERUN_BODY
  }

  function BindingLine(binding: Binding, last: bool): string {
    "      \"" + binding.key + "\": " + Body(binding.task) + if last then "" else ","
  }

  function BindingLines(bindings: seq<Binding>): seq<string> {
    if bindings == [] then []
    else [BindingLine(bindings[0], |bindings| == 1)] + BindingLines(bindings[1..])
  }

  /** The lines between the two marker lines. */
  function InnerLines(bindings: seq<Binding>): seq<string> {
    ["  {", "    \"context\": \"Workspace\",", "    \"bindings\": {"] + BindingLines(bindings) + ["    }", "  }"]
  }

  function Join(lines: seq<string>): string {
    if lines == [] then ""
    else if |lines| == 1 then lines[0]
    else lines[0] + "\n" + Join(lines[1..])
  }

  function Block(bindings: seq<Binding>): string {
    Join(["  " + MARKERS.start] + InnerLines(bindings) + ["  " + MARKERS.end])
  }

  method BuildBlock(bindings: seq<Binding>) returns (block: string)
    ensures block == Block(bindings)
  {
    var lines := ["  " + MARKERS.start, "  {", "    \"context\": \"Workspace\",", "    \"bindings\": {"];
    ghost var head := lines;
    ghost var all := head + BindingLines(bindings);
    for index := 0 to |bindings|
      invariant all == lines + BindingLines(bindings[index..])
    {
      ghost var rest := bindings[index..];
      assert rest[0] == bindings[index] && rest[1..] == bindings[index + 1..];
      var line := BindingLine(bindings[index], index == |bindings| - 1);
      MoveLine(all, lines, BindingLines(rest), line, BindingLines(bindings[index + 1..]));
      lines := lines + [line];
    }
    assert bindings[|bindings|..] == [] && lines == all;
    BlockLines("  " + MARKERS.start, bindings, "  " + MARKERS.end);
    lines := lines + ["    }", "  }", "  " + MARKERS.end];
    return Join(lines);
  }

  lemma MoveLine(all: seq<string>, done: seq<string>, rest: seq<string>, x: string, rest': seq<string>)
    requires all == done + rest && rest == [x] + rest'
    ensures all == (done + [x]) + rest'
  {
  }

  lemma BlockLines(first: string, bindings: seq<Binding>, last: string)
    ensures [first, "  {", "    \"context\": \"Workspace\",", "    \"bindings\": {"] + BindingLines(bindings)
            + ["    }", "  }", last]
         == [first] + InnerLines(bindings) + [last]
  {
    FrameLines(first, "  {", "    \"context\": \"Workspace\",", "    \"bindings\": {", BindingLines(bindings),
               "    }", "  }", last);
  }

  lemma FrameLines(first: string, a: string, b: string, c: string, body: seq<string>, d: string, e: string,
                   last: string)
    ensures [first, a, b, c] + body + [d, e, last] == [first] + ([a, b, c] + body + [d, e]) + [last]
  {
  }

  // ---------------------------------------------------------------------------------------------
  // The insertion
  // ---------------------------------------------------------------------------------------------

  /** The position of the last closing bracket, or -1. */
  function LastBracket(text: string): (r: int)
    ensures -1 <= r < |text| && (r >= 0 ==> text[r] == ']') && forall k | r < k < |text| :: text[k] != ']'
  {
    if text == [] then -1
    else if text[|text| - 1] == ']' then |text| - 1
    else LastBracket(text[..|text| - 1])
  }

  predicate EndsWith(text: string, c: char) {
    text != [] && text[|text| - 1] == c
  }

  function WithComma(before: string): string {
    if EndsWith(before, '[') || EndsWith(before, ',') then before else before + ","
  }

  function WithNewline(text: string): string {
    if EndsWith(text, '\n') then text else text + "\n"
  }

  function Inserted(text: string, block: string): string
    requires LastBracket(text) >= 0
  {
    var c := LastBracket(text);
    WithNewline(WithComma(TrimEnd(text[..c])) + "\n" + block + "\n" + TrimStart(text[c..]))
  }

  function Install(u: Unicode, reserved: set<string>, file: Option<string>): Outcome {
    var text := Stripped(MARKERS, if file.Some? then file.value else EMPTY_KEYMAP);
    var bindings := Bindings(UsedKeys(u, text), reserved);
    if bindings == [] then NoFreeKeys
    else if LastBracket(text) == -1 then NotAnArray
    else Installed(Inserted(text, Block(bindings)))
  }

  method InstallShortcuts(u: Unicode, reserved: set<string>, file: Option<string>) returns (outcome: Outcome)
    ensures outcome == Install(u, reserved, file)
  {
    var text := if file.Some? then file.value else EMPTY_KEYMAP;
    text := Stripped(MARKERS, text);
    var usedKeys := ExtractUsedBindingKeys(u, text);
    var checkKeys := ChooseKeys(CHECK_CANDIDATES, usedKeys, reserved);
    usedKeys := usedKeys + Elements(checkKeys);
    var buildKeys := ChooseKeys(BUILD_CANDIDATES, usedKeys, reserved);
    usedKeys := usedKeys + Elements(buildKeys);
    var rerunKeys := ChooseKeys(RERUN_CANDIDATES, usedKeys, reserved);
    var bindings := Bound(checkKeys, CheckTheory) + Bound(buildKeys, BuildSession) + Bound(rerunKeys, RerunLast);
    if bindings == [] {
      return NoFreeKeys;
    }
    var block := BuildBlock(bindings);
    var closing := LastBracket(text);
    if closing == -1 {
      return NotAnArray;
    }
    var before := TrimEnd(text[..closing]);
    var after := text[closing..];
    if !EndsWith(before, '[') && !EndsWith(before, ',') {
      before := before + ",";
    }
    var newText := before + "\n" + block + "\n" + TrimStart(after);
    if !EndsWith(newText, '\n') {
      newText := newText + "\n";
    }
    return Installed(newText);
  }

  // ---------------------------------------------------------------------------------------------
  // The chosen keys conflict with nothing
  // ---------------------------------------------------------------------------------------------

  lemma {:induction false} BoundKeys(keys: seq<string>, task: Task)
    ensures |Bound(keys, task)| == |keys|
    ensures forall i | 0 <= i < |keys| :: Bound(keys, task)[i] == Binding(keys[i], task)
  {
    if keys != [] {
      BoundKeys(keys[1..], task);
    }
  }

  lemma DisjointJoin(a: seq<string>, b: seq<string>)
    requires Distinct(a) && Distinct(b) && forall k | k in b :: k !in a
    ensures Distinct(a + b)
  {
    var s := a + b;
    forall i, j | 0 <= i < j < |s|
      ensures s[i] != s[j]
    {
      assert j >= |a| ==> s[j] in b;
      assert i < |a| ==> s[i] in a;
    }
  }

  predicate Distinct(s: seq<string>) {
    forall i, j | 0 <= i < j < |s| :: s[i] != s[j]
  }

  /** The chosen keys, in the order of the bindings. */
  lemma ChosenKeys(used: set<string>, reserved: set<string>) returns (keys: seq<string>)
    ensures |keys| == |Bindings(used, reserved)| && Distinct(keys)
    ensures forall i | 0 <= i < |keys| :: Bindings(used, reserved)[i].key == keys[i]
    ensures forall k | k in keys :: PlainKey(k) && k !in used && k !in reserved
  {
    var check := Chosen(CHECK_CANDIDATES, used, reserved);
    var used1 := used + Elements(check);
    var build := Chosen(BUILD_CANDIDATES, used1, reserved);
    var used2 := used1 + Elements(build);
    var rerun := Chosen(RERUN_CANDIDATES, used2, reserved);
    ChosenAreFree(CHECK_CANDIDATES, used, reserved);
    ChosenAreFree(BUILD_CANDIDATES, used1, reserved);
    ChosenAreFree(RERUN_CANDIDATES, used2, reserved);
    BoundKeys(check, CheckTheory);
    BoundKeys(build, BuildSession);
    BoundKeys(rerun, RerunLast);
    DisjointJoin(check, build);
    DisjointJoin(check + build, rerun);
    keys := check + build + rerun;
    forall k | k in keys
      ensures PlainKey(k) && k !in used && k !in reserved
    {
      assert k in check || k in build || k in rerun;
      CandidatesPlain(k);
    }
  }

  /** No two bindings share a key, and none takes a key that is in use or reserved. */
  lemma BindingsConflictFree(used: set<string>, reserved: set<string>)
    ensures
      var bindings := Bindings(used, reserved);
      && (forall i | 0 <= i < |bindings| :: bindings[i].key !in used && bindings[i].key !in reserved)
      && (forall i, j | 0 <= i < j < |bindings| :: bindings[i].key != bindings[j].key)
  {
    var keys := ChosenKeys(used, reserved);
    assert forall i | 0 <= i < |keys| :: keys[i] in keys;
  }

  /** Each binding's key is one of the keys meant for its task, and there are at most two for a task. */
  lemma BindingsMeant(used: set<string>, reserved: set<string>, i: nat)
    requires i < |Bindings(used, reserved)|
    ensures
      var b := Bindings(used, reserved)[i];
      match b.task
      case CheckTheory => b.key == "f8" || b.key == "alt-shift-i" || b.key == "f6"
      case BuildSession => b.key == "f9" || b.key == "alt-shift-b" || b.key == "f10"
      case RerunLast => b.key == "f7" || b.key == "alt-i" || b.key == "f11"
    ensures |Bindings(used, reserved)| <= 6
  {
    var check := Chosen(CHECK_CANDIDATES, used, reserved);
    var build := Chosen(BUILD_CANDIDATES, used + Elements(check), reserved);
    var rerun := Chosen(RERUN_CANDIDATES, used + Elements(check) + Elements(build), reserved);
    BoundMeant(CHECK_CANDIDATES, used, reserved, CheckTheory);
    BoundMeant(BUILD_CANDIDATES, used + Elements(check), reserved, BuildSession);
    BoundMeant(RERUN_CANDIDATES, used + Elements(check) + Elements(build), reserved, RerunLast);
    InOneOfThree(Bound(check, CheckTheory), Bound(build, BuildSession), Bound(rerun, RerunLast), i);
  }

  lemma BoundMeant(candidates: seq<string>, used: set<string>, reserved: set<string>, task: Task)
    requires |candidates| == 3
    ensures
      var bound := Bound(Chosen(candidates, used, reserved), task);
      && |bound| <= 2
      && forall b | b in bound ::
           b.task == task && (b.key == candidates[0] || b.key == candidates[1] || b.key == candidates[2])
  {
    var chosen := Chosen(candidates, used, reserved);
    ChosenAreFree(candidates, used, reserved);
    BoundKeys(chosen, task);
    assert forall k | 0 <= k < |chosen| :: chosen[k] in chosen;
  }

  lemma InOneOfThree<A>(a: seq<A>, b: seq<A>, c: seq<A>, i: nat)
    requires i < |a + b + c|
    ensures (a + b + c)[i] in a || (a + b + c)[i] in b || (a + b + c)[i] in c
  {
  }

  /** Some key that the installer may bind is neither used nor reserved. */
  ghost predicate HasFreeKey(used: set<string>, reserved: set<string>) {
    exists k :: k in ["f8", "alt-shift-i", "f6", "f9", "alt-shift-b", "f10", "f7", "alt-i", "f11"]
                && k !in used && k !in reserved
  }

  lemma BindingsEmptyIff(used: set<string>, reserved: set<string>)
    ensures Bindings(used, reserved) == [] <==> !HasFreeKey(used, reserved)
  {
    var check := Chosen(CHECK_CANDIDATES, used, reserved);
    var build := Chosen(BUILD_CANDIDATES, used + Elements(check), reserved);
    var rerun := Chosen(RERUN_CANDIDATES, used + Elements(check) + Elements(build), reserved);
    BoundKeys(check, CheckTheory);
    BoundKeys(build, BuildSession);
    BoundKeys(rerun, RerunLast);
    ChosenEmptyIff(CHECK_CANDIDATES, used, reserved);
    ChosenEmptyIff(BUILD_CANDIDATES, used + Elements(check), reserved);
    ChosenEmptyIff(RERUN_CANDIDATES, used + Elements(check) + Elements(build), reserved);
    AllCandidates(used, reserved);
  }

  lemma ChosenEmptyIff(candidates: seq<string>, used: set<string>, reserved: set<string>)
    ensures Chosen(candidates, used, reserved) == [] <==> forall k | k in candidates :: k in used || k in reserved
  {
    var chosen := Chosen(candidates, used, reserved);
    ChosenAreFree(candidates, used, reserved);
    if chosen != [] {
      assert chosen[0] in chosen;
    }
  }

  lemma AllCandidates(used: set<string>, reserved: set<string>)
    ensures HasFreeKey(used, reserved) <==>
            exists k :: (k in CHECK_CANDIDATES || k in BUILD_CANDIDATES || k in RERUN_CANDIDATES)
                        && k !in used && k !in reserved
  {
    var all := ["f8", "alt-shift-i", "f6", "f9", "alt-shift-b", "f10", "f7", "alt-i", "f11"];
    assert all == CHECK_CANDIDATES + BUILD_CANDIDATES + RERUN_CANDIDATES;
  }

  /** Exactly how an installation ends: without a free key it gives up, without a closing bracket it
      refuses the file, and in this order; otherwise it installs. */
  lemma InstallEndsIff(u: Unicode, reserved: set<string>, file: Option<string>, text: string)
    requires text == Stripped(MARKERS, if file.Some? then file.value else "[\n]\n")
    ensures Install(u, reserved, file).NoFreeKeys? <==> !HasFreeKey(UsedKeys(u, text), reserved)
    ensures Install(u, reserved, file).NotAnArray? <==> HasFreeKey(UsedKeys(u, text), reserved) && ']' !in text
    ensures Install(u, reserved, file).Installed? <==> HasFreeKey(UsedKeys(u, text), reserved) && ']' in text
  {
    BindingsEmptyIff(UsedKeys(u, text), reserved);
    BracketIff(text);
    InstallCases(u, reserved, file, text);
  }

  lemma BracketIff(text: string)
    ensures ']' in text <==> LastBracket(text) != -1
  {
    var c := LastBracket(text);
    assert c >= 0 ==> text[c] == ']';
  }

  lemma InstallCases(u: Unicode, reserved: set<string>, file: Option<string>, text: string)
    requires text == Stripped(MARKERS, if file.Some? then file.value else "[\n]\n")
    ensures
      var outcome, bindings := Install(u, reserved, file), Bindings(UsedKeys(u, text), reserved);
      && (outcome.NoFreeKeys? <==> bindings == [])
      && (outcome.NotAnArray? <==> bindings != [] && LastBracket(text) == -1)
      && (outcome.Installed? <==> bindings != [] && LastBracket(text) != -1)
  {
  }

  /** No binding that is written takes a key that a line of the keymap binds, as it stands once an
      earlier block is removed. */
  lemma InstalledKeysFree(u: Unicode, reserved: set<string>, file: Option<string>, text: string, p: nat, q: nat,
                          i: nat)
    requires text == Stripped(MARKERS, if file.Some? then file.value else "[\n]\n")
    requires i < |Bindings(UsedKeys(u, text), reserved)|
    ensures !BindsIn(u, text, Bindings(UsedKeys(u, text), reserved)[i].key, p, q)
    ensures Install(u, reserved, file).Installed? ==>
              LastBracket(text) >= 0 &&
              Install(u, reserved, file) == Installed(Inserted(text, Block(Bindings(UsedKeys(u, text), reserved))))
  {
    var key := Bindings(UsedKeys(u, text), reserved)[i].key;
    BindingsConflictFree(UsedKeys(u, text), reserved);
    UsedKeysIff(u, text, key);
  }

  predicate PlainKey(key: string) {
    '/' !in key && ']' !in key
  }

  lemma CandidatesPlain(key: string)
    requires key in CHECK_CANDIDATES || key in BUILD_CANDIDATES || key in RERUN_CANDIDATES
    ensures PlainKey(key)
  {
  }

  lemma BindingsPlain(used: set<string>, reserved: set<string>)
    ensures forall i | 0 <= i < |Bindings(used, reserved)| :: PlainKey(Bindings(used, reserved)[i].key)
  {
    var keys := ChosenKeys(used, reserved);
    assert forall i | 0 <= i < |keys| :: keys[i] in keys;
  }

  lemma BindingsAgree(a: set<string>, b: set<string>, reserved: set<string>)
    requires forall k | PlainKey(k) :: k in a <==> k in b
    ensures Bindings(a, reserved) == Bindings(b, reserved)
  {
    var check := Chosen(CHECK_CANDIDATES, a, reserved);
    var build := Chosen(BUILD_CANDIDATES, a + Elements(check), reserved);
    forall k | k in CHECK_CANDIDATES || k in BUILD_CANDIDATES || k in RERUN_CANDIDATES
      ensures k in a <==> k in b
    {
      CandidatesPlain(k);
    }
    ChosenAgree(CHECK_CANDIDATES, a, b, reserved);
    ChosenAgree(BUILD_CANDIDATES, a + Elements(check), b + Elements(check), reserved);
    ChosenAgree(RERUN_CANDIDATES, a + Elements(check) + Elements(build), b + Elements(check) + Elements(build),
        reserved);
  }

  // ---------------------------------------------------------------------------------------------
  // What the block says
  // ---------------------------------------------------------------------------------------------

  /** The action the editor runs: spawning the named task in the dock, or running the last one again. */
  function Action(task: Task): string {
    match task
    case CheckTheory => Spawning("isabelle: check current theory " + "(process_theories)")
    case BuildSession => Spawning("isabelle: build worktree " + "session (build -D)")
    case RerunLast => "[\"task::Rerun\", { " + "\"reevaluate_context\": true }]"
  }

  function Spawning(name: string): string {
    "[\n        \"task::Spawn\",\n        {\n" + "          \"task_name\": \"" + name + "\",\n"
    + "          \"reveal_target\": \"dock\"\n" + "        }\n      ]"
  }

  lemma BodyIsAction(task: Task)
    ensures Body(task) == Action(task)
  {
  }

  lemma {:induction false} LineCount(bindings: seq<Binding>)
    ensures |BindingLines(bindings)| == |bindings|
  {
    if bindings != [] {
      LineCount(bindings[1..]);
    }
  }

  lemma {:induction false} LineOfBinding(bindings: seq<Binding>, i: nat, line: string)
    requires i < |bindings| && line == BindingLine(bindings[i], i == |bindings| - 1)
    ensures |BindingLines(bindings)| == |bindings| && BindingLines(bindings)[i] == line
  {
    LineCount(bindings);
    if i > 0 {
      var rest := bindings[1..];
      assert rest[i - 1] == bindings[i];
      LineOfBinding(rest, i - 1, line);
      LineShift(bindings, i);
    }
  }

  lemma LineShift(bindings: seq<Binding>, i: nat)
    requires 0 < i < |BindingLines(bindings)|
    ensures bindings != [] && i <= |BindingLines(bindings[1..])|
    ensures BindingLines(bindings)[i] == BindingLines(bindings[1..])[i - 1]
  {
  }

  /** Line `i` of a joined text lies between newlines. */
  lemma {:induction false} JoinAt(lines: seq<string>, i: nat) returns (p: nat)
    requires i < |lines|
    ensures At(Join(lines), p, lines[i])
    ensures if i == 0 then p == 0 else p > 0 && Join(lines)[p - 1] == '\n'
    ensures i + 1 < |lines| ==> p + |lines[i]| < |Join(lines)| && Join(lines)[p + |lines[i]|] == '\n'
  {
    var text := Join(lines);
    if |lines| == 1 {
      p := 0;
      assert text[0..|text|] == text;
    } else {
      var rest := Join(lines[1..]);
      assert text == lines[0] + "\n" + rest;
      if i == 0 {
        p := 0;
      } else {
        var r := JoinAt(lines[1..], i - 1);
        p := |lines[0]| + 1 + r;
        assert text[p..p + |lines[i]|] == rest[r..r + |lines[i]|];
        assert r > 0 ==> text[p - 1] == rest[r - 1];
        assert i + 1 < |lines| ==> text[p + |lines[i]|] == rest[r + |lines[i]|];
      }
    }
  }

  /** The block binds each key, on lines of its own, to its task's action, with a comma after each binding
      but the last. */
  lemma BindingWritten(bindings: seq<Binding>, i: nat) returns (p: nat, written: string)
    requires i < |bindings|
    ensures written == "      \"" + bindings[i].key + "\": " + Action(bindings[i].task) +
                       (if i == |bindings| - 1 then "" else ",")
    ensures At(Block(bindings), p, written) && p > 0 && Block(bindings)[p - 1] == '\n'
    ensures p + |written| < |Block(bindings)| && Block(bindings)[p + |written|] == '\n'
  {
    var lines := ["  " + MARKERS.start] + InnerLines(bindings) + ["  " + MARKERS.end];
    BodyIsAction(bindings[i].task);
    written := BindingLine(bindings[i], i == |bindings| - 1);
    LineOfBinding(bindings, i, written);
    assert lines[4 + i] == written;
    p := JoinAt(lines, 4 + i);
  }

  /** The lines of the block: an object for the whole workspace between the two marker comments. */
  lemma BlockFramed(bindings: seq<Binding>)
    ensures
      Block(bindings)
      == Join(["  " + ("//" + " >>> isabelle shortcuts >>>"), "  {", "    \"context\": \"Workspace\",",
               "    \"bindings\": {"] + BindingLines(bindings)
              + ["    }", "  }", "  " + ("//" + " <<< isabelle shortcuts <<<")])
  {
    MarkerTexts();
    BlockLines("  " + MARKERS.start, bindings, "  " + MARKERS.end);
  }

  lemma MarkerTexts()
    ensures MARKERS.start == "//" + " >>> isabelle shortcuts >>>" && MARKERS.end == "//" + " <<< isabelle shortcuts <<<"
  {
  }

  // ---------------------------------------------------------------------------------------------
  // The block is a marked block around slash-free text
  // ---------------------------------------------------------------------------------------------

  predicate NoSlash(s: string) {
    '/' !in s
  }

  lemma NoSlashJoined(a: string, b: string)
    requires NoSlash(a) && NoSlash(b)
    ensures NoSlash(a + b)
  {
  }

  lemma BodyNoSlash(task: Task)
    ensures NoSlash(Body(task))
  {
    match task
    case CheckTheory => CheckNoSlash();
    case BuildSession => BuildNoSlash();
    case RerunLast => RerunNoSlash();
  }

  lemma CheckNoSlash()
    ensures NoSlash(SpawnBinding(TASK_CHECK))
  {
    assert NoSlash("isabelle: check current theory ");
    NoSlashJoined("isabelle: check current theory ", "(process_theories)");
    SpawnNoSlash(TASK_CHECK);
  }

  lemma BuildNoSlash()
    ensures NoSlash(SpawnBinding(TASK_BUILD))
  {
    assert NoSlash("isabelle: build worktree ");
    NoSlashJoined("isabelle: build worktree ", "session (build -D)");
    SpawnNoSlash(TASK_BUILD);
  }

  lemma RerunNoSlash()
    ensures NoSlash(RERUN_BODY)
  {
    assert NoSlash("[\"task::Rerun\", { ");
    NoSlashJoined("[\"task::Rerun\", { ", "\"reevaluate_context\": true }]");
  }

  lemma OpeningNoSlash()
    ensures NoSlash("[\n        \"task::Spawn\",\n        {\n") && NoSlash("          \"task_name\": \"")
  {
  }

  lemma ClosingNoSlash()
    ensures NoSlash("\",\n") && NoSlash("          \"reveal_target\": \"dock\"\n") && NoSlash("        }\n      ]")
  {
  }

  lemma SixNoSlash(a: string, b: string, c: string, d: string, e: string, f: string)
    requires NoSlash(a) && NoSlash(b) && NoSlash(c) && NoSlash(d) && NoSlash(e) && NoSlash(f)
    ensures NoSlash(a + b + c + d + e + f)
  {
    NoSlashJoined(a, b);
    NoSlashJoined(a + b, c);
    NoSlashJoined(a + b + c, d);
    NoSlashJoined(a + b + c + d, e);
    NoSlashJoined(a + b + c + d + e, f);
  }

  lemma SpawnNoSlash(taskName: string)
    requires NoSlash(taskName)
    ensures NoSlash(SpawnBinding(taskName))
  {
    OpeningNoSlash();
    ClosingNoSlash();
    SixNoSlash("[\n        \"task::Spawn\",\n        {\n", "          \"task_name\": \"", taskName,
               "\",\n", "          \"reveal_target\": \"dock\"\n", "        }\n      ]");
  }

  lemma {:induction false} BindingLinesNoSlash(bindings: seq<Binding>)
    requires forall i | 0 <= i < |bindings| :: PlainKey(bindings[i].key)
    ensures forall i | 0 <= i < |BindingLines(bindings)| :: NoSlash(BindingLines(bindings)[i])
  {
    if bindings != [] {
      BodyNoSlash(bindings[0].task);
      assert NoSlash(BindingLine(bindings[0], |bindings| == 1));
      BindingLinesNoSlash(bindings[1..]);
    }
  }

  lemma {:induction false} JoinNoSlash(lines: seq<string>)
    requires forall i | 0 <= i < |lines| :: NoSlash(lines[i])
    ensures NoSlash(Join(lines))
  {
    if |lines| > 1 {
      JoinNoSlash(lines[1..]);
      assert NoSlash(lines[0]);
    } else if |lines| == 1 {
      assert NoSlash(lines[0]);
    }
  }

  lemma {:induction false} JoinLast(lines: seq<string>, last: string)
    requires lines != []
    ensures Join(lines + [last]) == Join(lines) + ("\n" + last)
  {
    var all := lines + [last];
    if |lines| == 1 {
      assert all[1..] == [last];
    } else {
      assert all[1..] == lines[1..] + [last];
      JoinLast(lines[1..], last);
      assert Join(all) == lines[0] + "\n" + (Join(lines[1..]) + ("\n" + last));
    }
  }

  function Inner(bindings: seq<Binding>): string {
    "\n" + Join(InnerLines(bindings)) + "\n  "
  }

  lemma BlockShape(bindings: seq<Binding>)
    ensures Block(bindings) == BlockText(MARKERS, Inner(bindings))
  {
    var first, lines, last := "  " + MARKERS.start, InnerLines(bindings), "  " + MARKERS.end;
    assert ([first] + lines)[1..] == lines;
    assert Join([first] + lines) == first + "\n" + Join(lines);
    JoinLast([first] + lines, last);
    Pieces(MARKERS.start, Join(lines), MARKERS.end);
  }

  lemma Pieces(start: string, middle: string, end: string)
    ensures ("  " + start) + "\n" + middle + ("\n" + ("  " + end)) == "  " + start + ("\n" + middle + "\n  ") + end
  {
  }

  lemma FrameNoSlash()
    ensures NoSlash("  {") && NoSlash("    \"context\": \"Workspace\",") && NoSlash("    \"bindings\": {")
    ensures NoSlash("    }") && NoSlash("  }")
  {
  }

  lemma LinesNoSlash(a: seq<string>, b: seq<string>)
    requires forall i | 0 <= i < |a| :: NoSlash(a[i])
    requires forall i | 0 <= i < |b| :: NoSlash(b[i])
    ensures forall i | 0 <= i < |a + b| :: NoSlash((a + b)[i])
  {
  }

  lemma InnerNoSlash(bindings: seq<Binding>)
    requires forall i | 0 <= i < |bindings| :: PlainKey(bindings[i].key)
    ensures NoSlash(Inner(bindings))
  {
    FrameNoSlash();
    BindingLinesNoSlash(bindings);
    var head, body, tail := ["  {", "    \"context\": \"Workspace\",", "    \"bindings\": {"],
                            BindingLines(bindings), ["    }", "  }"];
    LinesNoSlash(head, body);
    LinesNoSlash(head + body, tail);
    JoinNoSlash(InnerLines(bindings));
  }

  // ---------------------------------------------------------------------------------------------
  // Installing twice
  // ---------------------------------------------------------------------------------------------

  /** How a stripped text is taken apart: what stays before the block, what stays after it. */
  function Before(text: string): string
    requires LastBracket(text) >= 0
  {
    WithComma(TrimEnd(text[..LastBracket(text)]))
  }

  function After(text: string): string
    requires LastBracket(text) >= 0
  {
    WithNewline(text[LastBracket(text)..])
  }

  lemma LastBracketIs(text: string, c: nat)
    requires c < |text| && text[c] == ']' && forall k | c < k < |text| :: text[k] != ']'
    ensures LastBracket(text) == c
  {
  }

  lemma AfterFacts(text: string)
    requires LastBracket(text) >= 0
    ensures
      var rest := After(text);
      && rest != [] && rest[0] == ']' && EndsWith(rest, '\n') && forall k | 0 < k < |rest| :: rest[k] != ']'
  {
  }

  lemma BeforeFacts(text: string)
    requires LastBracket(text) >= 0
    ensures
      var b := Before(text);
      && b != [] && !IsSpace(b[|b| - 1]) && (EndsWith(b, '[') || EndsWith(b, ','))
      && TrimEnd(text[..LastBracket(text)]) <= b
  {
  }

  /** The inserted text: the block between the two parts. */
  lemma InsertedIs(text: string, bindings: seq<Binding>)
    requires LastBracket(text) >= 0
    ensures Inserted(text, Block(bindings)) == Assembled(MARKERS, Before(text), Inner(bindings), After(text))
  {
    var b, after, block := Before(text), text[LastBracket(text)..], Block(bindings);
    BlockShape(bindings);
    assert TrimStart(after) == after;
    var start := b + "\n" + block + "\n";
    NewlineLast(start, after);
    FivePieces(b, block, After(text));
  }

  lemma NewlineLast(start: string, after: string)
    requires after != []
    ensures WithNewline(start + after) == start + WithNewline(after)
  {
  }

  lemma FivePieces(b: string, block: string, rest: string)
    ensures b + "\n" + block + "\n" + rest == b + (['\n'] + (block + (['\n'] + rest)))
  {
  }

  /** A text that is already `b`, a newline and `rest` is taken apart into just these. */
  lemma RejoinedParts(b: string, rest: string)
    requires b == [] || !IsSpace(b[|b| - 1])
    requires rest != [] && rest[0] == ']' && EndsWith(rest, '\n') && forall k | 0 < k < |rest| :: rest[k] != ']'
    ensures
      var text := b + "\n" + rest;
      LastBracket(text) == |b| + 1 && Before(text) == WithComma(b) && After(text) == rest
  {
    var text := b + "\n" + rest;
    LastBracketIs(text, |b| + 1);
    assert text[..|b| + 1] == b + "\n" && text[|b| + 1..] == rest;
    TrimEndIs(b, "\n");
  }

  /** No start marker before the last closing bracket. */
  ghost predicate NoStartInside(m: Markers, text: string)
    requires LastBracket(text) >= 0
  {
    NoneWithin(text[..LastBracket(text)], m.start, 0, |text|)
  }

  lemma AfterNoBlock(m: Markers, text: string)
    requires LastBracket(text) >= 0 && NoBlock(m, text)
    ensures NoBlock(m, After(text))
  {
    var c := LastBracket(text);
    assert text == text[..c] + text[c..];
    NoBlockSuffix(m, text[..c], text[c..]);
    NoBlockNewline(m, text[c..]);
  }

  /** Occurrences in the part before the block are occurrences in the text, and end before the gap. */
  lemma BeforeOccurrence(text: string, k: int, pat: string)
    requires LastBracket(text) >= 0 && pat != [] && ',' !in pat && At(Before(text), k, pat)
    ensures At(text[..LastBracket(text)], k, pat) && At(text, k, pat)
    ensures k + |pat| <= |TrimEnd(text[..LastBracket(text)])|
  {
    var x := text[..LastBracket(text)];
    var t := TrimEnd(x);
    if Before(text) != t {
      assert Before(text) == t + ([','] + []);
      AtBeside(t, ',', [], k, pat);
    }
    assert x == t + x[|t|..];
    AtLeft(t, x[|t|..], k, pat);
    assert text == x + text[|x|..];
    AtLeft(x, text[|x|..], k, pat);
  }

  lemma InsideOccurrence(m: Markers, text: string, k: int)
    requires LastBracket(text) >= 0 && At(text[..LastBracket(text)], k, m.start)
    ensures At(Before(text), k, m.start)
  {
    var x := text[..LastBracket(text)];
    var t := TrimEnd(x);
    var last := k + 28;
    AtChar(x, k, m.start, last);
    forall p | |t| <= p < |x|
      ensures IsSpace(x[p])
    {
      assert x[|t|..][p - |t|] == x[p];
    }
    assert !IsSpace(x[last]);
    assert x == t + x[|t|..];
    AtLeft(t, x[|t|..], k, m.start);
    BeforeFacts(text);
    assert Before(text) == t + Before(text)[|t|..];
    AtLeft(t, Before(text)[|t|..], k, m.start);
  }

  /** Stripping the text with its block gives back the two parts. */
  lemma StripWritten(m: Markers, text: string, inner: string, written: string)
    requires LastBracket(text) >= 0 && NoBlock(m, text) && NoStartInside(m, text) && NoSlash(inner)
    requires written == Assembled(m, Before(text), inner, After(text))
    ensures Stripped(m, written) == Before(text) + "\n" + After(text)
  {
    var b, rest := Before(text), After(text);
    AfterFacts(text);
    AfterNoBlock(m, text);
    BeforeFacts(text);
    NoStartBeforeBlock(m, text);
    StripParts(m, b, inner, rest, written);
  }

  lemma StripParts(m: Markers, b: string, inner: string, rest: string, written: string)
    requires written == Assembled(m, b, inner, rest) && NoSlash(inner)
    requires b != [] && !IsSpace(b[|b| - 1]) && NoneWithin(b, m.start, 0, |b| + 3)
    requires rest != [] && rest[0] == ']' && NoBlock(m, rest)
    ensures Stripped(m, written) == b + "\n" + rest
  {
    CutBeforeBlock(m, written, b, inner, rest);
    StripAssembled(m, written, b, inner, rest, |b| + 3);
  }

  lemma NoStartBeforeBlock(m: Markers, text: string)
    requires LastBracket(text) >= 0 && NoStartInside(m, text)
    ensures NoneWithin(Before(text), m.start, 0, |Before(text)| + 3)
  {
    forall k | 0 <= k < |Before(text)| + 3
      ensures !At(Before(text), k, m.start)
    {
      if At(Before(text), k, m.start) {
        BeforeOccurrence(text, k, m.start);
      }
    }
  }

  lemma CutBeforeBlock(m: Markers, text: string, b: string, inner: string, rest: string)
    requires text == Assembled(m, b, inner, rest) && b != [] && !IsSpace(b[|b| - 1])
    ensures |b| + 3 <= |text| && TrimEnd(text[..|b| + 3]) == b
  {
    var block := BlockText(m, inner);
    BlockLength(m, inner);
    assert block[0] == ' ' && block[1] == ' ';
    var tail := block + (['\n'] + rest);
    assert text == b + (['\n'] + tail) && tail[0] == ' ' && tail[1] == ' ';
    assert text[..|b| + 3] == b + "\n  ";
    TrimEndIs(b, "\n  ");
  }

  // ----- the used keys are the same -----

  lemma SameKeys(u: Unicode, text: string, c: string)
    requires KeepsBracket(u) && LastBracket(text) >= 0 && PlainKey(c)
    ensures c in UsedKeys(u, Before(text) + "\n" + After(text)) <==> c in UsedKeys(u, text)
  {
    var x, after := text[..LastBracket(text)], text[LastBracket(text)..];
    var t := TrimEnd(x);
    assert text == x + after && x == t + x[|t|..];
    KeysApart(u, t, x[|t|..], after, c);
    KeysRejoined(u, t, after, c);
  }

  lemma KeysApart(u: Unicode, t: string, gap: string, after: string, c: string)
    requires KeepsBracket(u) && AllSpace(gap) && after != [] && after[0] == ']' && PlainKey(c)
    ensures c in UsedKeys(u, t + gap + after) <==> c in UsedKeys(u, t) || c in UsedKeys(u, after)
  {
    CutText(u, t, gap, after, c);
  }

  lemma KeysRejoined(u: Unicode, t: string, after: string, c: string)
    requires KeepsBracket(u) && after != []
    ensures c in UsedKeys(u, WithComma(t) + "\n" + WithNewline(after))
        <==> c in UsedKeys(u, t) || c in UsedKeys(u, after)
  {
    var b, rest := WithComma(t), WithNewline(after);
    BeforeKeys(u, t, c);
    AfterKeys(u, after);
    UsedAcrossBreak(u, b, '\n', rest);
    assert b + (['\n'] + rest) == b + "\n" + rest;
  }

  lemma BeforeKeys(u: Unicode, t: string, c: string)
    requires KeepsBracket(u)
    ensures c in UsedKeys(u, WithComma(t)) <==> c in UsedKeys(u, t)
  {
    if WithComma(t) != t {
      CutText(u, t, [], ",", c);
      assert t + [] + "," == t + ",";
      CommaKeys(u);
    }
  }

  lemma CommaKeys(u: Unicode)
    ensures UsedKeys(u, ",") == {}
  {
    SpaceLine([], ",");
    assert [] + "," == ",";
    UsedAreCollected(u, ",");
    SpaceLine([], []);
    OneLine(KeysOnLine(u), ",");
  }

  lemma AfterKeys(u: Unicode, after: string)
    requires after != []
    ensures UsedKeys(u, WithNewline(after)) == UsedKeys(u, after)
  {
    if WithNewline(after) != after {
      UsedAcrossBreak(u, after, '\n', []);
      assert after + (['\n'] + []) == after + "\n";
      assert UsedKeys(u, []) == {};
    }
  }

  // ----- the two cases -----

  /** Stripping undoes the insertion, up to the comma, the whitespace before the bracket and the final
      newline. */
  lemma StripUndoesInsert(text: string, bindings: seq<Binding>)
    requires LastBracket(text) >= 0 && NoBlock(MARKERS, text) && NoStartInside(MARKERS, text)
    requires forall i | 0 <= i < |bindings| :: PlainKey(bindings[i].key)
    ensures Stripped(MARKERS, Inserted(text, Block(bindings))) == Before(text) + "\n" + After(text)
  {
    InsertedIs(text, bindings);
    InnerNoSlash(bindings);
    StripWritten(MARKERS, text, Inner(bindings), Inserted(text, Block(bindings)));
  }

  lemma InstallStripped(u: Unicode, reserved: set<string>, written: string, again: string)
    requires Stripped(MARKERS, written) == again && LastBracket(again) >= 0
    ensures
      var bindings := Bindings(UsedKeys(u, again), reserved);
      Install(u, reserved, Some(written))
          == if bindings == [] then NoFreeKeys else Installed(Inserted(again, Block(bindings)))
  {
  }

  lemma SecondInstallSame(u: Unicode, reserved: set<string>, text: string)
    requires KeepsBracket(u) && LastBracket(text) >= 0 && NoBlock(MARKERS, text) && NoStartInside(MARKERS, text)
    requires Bindings(UsedKeys(u, text), reserved) != []
    ensures
      var written := Inserted(text, Block(Bindings(UsedKeys(u, text), reserved)));
      Install(u, reserved, Some(written)) == Installed(written)
  {
    var bindings := Bindings(UsedKeys(u, text), reserved);
    var written, again := Inserted(text, Block(bindings)), Before(text) + "\n" + After(text);
    BindingsPlain(UsedKeys(u, text), reserved);
    StripUndoesInsert(text, bindings);
    SameBindings(u, reserved, text);
    SameInserted(text, bindings);
    InstallStripped(u, reserved, written, again);
  }

  lemma SameBindings(u: Unicode, reserved: set<string>, text: string)
    requires KeepsBracket(u) && LastBracket(text) >= 0
    ensures Bindings(UsedKeys(u, Before(text) + "\n" + After(text)), reserved) == Bindings(UsedKeys(u, text), reserved)
  {
    var again := Before(text) + "\n" + After(text);
    forall c | PlainKey(c)
      ensures c in UsedKeys(u, again) <==> c in UsedKeys(u, text)
    {
      SameKeys(u, text, c);
    }
    BindingsAgree(UsedKeys(u, again), UsedKeys(u, text), reserved);
  }

  lemma SameInserted(text: string, bindings: seq<Binding>)
    requires LastBracket(text) >= 0
    ensures LastBracket(Before(text) + "\n" + After(text)) >= 0
    ensures Inserted(Before(text) + "\n" + After(text), Block(bindings)) == Inserted(text, Block(bindings))
  {
    AfterFacts(text);
    BeforeFacts(text);
    RejoinedParts(Before(text), After(text));
    InsertedIs(text, bindings);
    InsertedIs(Before(text) + "\n" + After(text), bindings);
  }

  /** An unclosed start marker before the bracket: the second stripping takes everything from there
      to the end of the first block. */
  lemma StripTakesMore(m: Markers, text: string, inner: string, written: string) returns (s: nat)
    requires LastBracket(text) >= 0 && NoBlock(m, text) && !NoStartInside(m, text) && NoSlash(inner)
    requires written == Assembled(m, Before(text), inner, After(text))
    ensures At(Before(text), s, m.start) && NoneWithin(Before(text), m.start, 0, s)
    ensures Stripped(m, written) == TrimEnd(Before(text)[..s]) + "\n" + After(text)
  {
    var b, rest := Before(text), After(text);
    var x := text[..LastBracket(text)];
    var first :| 0 <= first < |text| && At(x, first, m.start);
    InsideOccurrence(m, text, first);
    FindFirst(b, m.start, 0);
    s := Find(b, m.start, 0);
    NoEndLater(m, text, s);
    AfterFacts(text);
    AfterNoBlock(m, text);
    StripFromMarker(m, b, inner, rest, written, s);
  }

  lemma StripFromMarker(m: Markers, b: string, inner: string, rest: string, written: string, s: nat)
    requires written == Assembled(m, b, inner, rest) && NoSlash(inner)
    requires At(b, s, m.start) && NoneWithin(b, m.start, 0, s) && NoneWithin(b, m.end, s + 29, |b|)
    requires rest != [] && rest[0] == ']' && NoBlock(m, rest)
    ensures Stripped(m, written) == TrimEnd(b[..s]) + "\n" + rest
  {
    StripAssembled(m, written, b, inner, rest, s);
    assert b <= written;
    assert written[..s] == b[..s];
  }

  lemma NoEndLater(m: Markers, text: string, s: nat)
    requires LastBracket(text) >= 0 && NoBlock(m, text) && At(Before(text), s, m.start)
    ensures NoneWithin(Before(text), m.end, s + 29, |Before(text)|)
  {
    BeforeOccurrence(text, s, m.start);
    forall r | s + 29 <= r < |Before(text)|
      ensures !At(Before(text), r, m.end)
    {
      if At(Before(text), r, m.end) {
        BeforeOccurrence(text, r, m.end);
      }
    }
  }

  lemma NoStartInCut(m: Markers, b: string, s: nat, d: string)
    requires s <= |b| && NoneWithin(b, m.start, 0, s) && d <= b[..s]
    ensures NoneWithin(WithComma(d), m.start, 0, |WithComma(d)| + 3)
  {
    forall k | 0 <= k < |WithComma(d)| + 3
      ensures !At(WithComma(d), k, m.start)
    {
      if At(WithComma(d), k, m.start) {
        if WithComma(d) != d {
          assert WithComma(d) == d + ([','] + []);
          AtBeside(d, ',', [], k, m.start);
        }
        assert b == d + b[|d|..];
        AtLeft(d, b[|d|..], k, m.start);
      }
    }
  }

  /** Two assembled texts with the same rest differ when one has a start marker before its block and
      the other does not. */
  lemma AssembledDiffer(m: Markers, b: string, inner: string, b2: string, inner2: string, rest: string, s: nat)
    requires NoSlash(inner) && NoSlash(inner2)
    requires At(b, s, m.start) && NoneWithin(b, m.start, 0, s)
    requires NoneWithin(b2, m.start, 0, |b2| + 3)
    ensures Assembled(m, b, inner, rest) != Assembled(m, b2, inner2, rest)
  {
    if Assembled(m, b, inner, rest) == Assembled(m, b2, inner2, rest) {
      FirstStart(m, b, inner, rest, s);
      FirstStart(m, b2, inner2, rest, |b2| + 3);
      var k := |b| + 3;
      BlockMarkers(m, inner, 2);
      AssembledBackward(m, b, inner, rest, k, m.start);
      LateStart(m, b2, inner2, rest, k);
      AssembledLength(m, b, inner, rest);
      AssembledLength(m, b2, inner2, rest);
    }
  }

  /** A start marker after the block's own lies in the rest. */
  lemma LateStart(m: Markers, b: string, inner: string, rest: string, k: nat)
    requires NoSlash(inner) && |b| + 3 < k && At(Assembled(m, b, inner, rest), k, m.start)
    requires NoneWithin(b, m.start, 0, |b| + 3)
    ensures |b| + |inner| + 62 <= k
  {
    AssembledForward(m, b, inner, rest, k, m.start);
    BlockMarkers(m, inner, k - |b| - 1);
    BlockLength(m, inner);
  }

  lemma AssembledLength(m: Markers, b: string, inner: string, rest: string)
    ensures |Assembled(m, b, inner, rest)| == |b| + 62 + |inner| + |rest|
  {
    BlockLength(m, inner);
  }

  /** What a second installation would write, if it writes anything: a text without the first. */
  lemma SecondInstallDiffers(u: Unicode, reserved: set<string>, text: string)
    requires LastBracket(text) >= 0 && NoBlock(MARKERS, text) && !NoStartInside(MARKERS, text)
    ensures
      var written := Inserted(text, Block(Bindings(UsedKeys(u, text), reserved)));
      Install(u, reserved, Some(written)) != Installed(written)
  {
    var bindings := Bindings(UsedKeys(u, text), reserved);
    var written := Inserted(text, Block(bindings));
    BindingsPlain(UsedKeys(u, text), reserved);
    InsertedIs(text, bindings);
    InnerNoSlash(bindings);
    var s := StripTakesMore(MARKERS, text, Inner(bindings), written);
    var d := TrimEnd(Before(text)[..s]);
    NoStartInCut(MARKERS, Before(text), s, d);
    var again := d + "\n" + After(text);
    RewrittenDiffers(text, bindings, d, Bindings(UsedKeys(u, again), reserved), s, u, reserved);
    InstallStripped(u, reserved, written, again);
  }

  lemma RewrittenDiffers(text: string, bindings: seq<Binding>, d: string, bindings2: seq<Binding>, s: nat,
                         u: Unicode, reserved: set<string>)
    requires LastBracket(text) >= 0 && (d == [] || !IsSpace(d[|d| - 1]))
    requires bindings2 == Bindings(UsedKeys(u, d + "\n" + After(text)), reserved)
    requires NoSlash(Inner(bindings))
    requires At(Before(text), s, MARKERS.start) && NoneWithin(Before(text), MARKERS.start, 0, s)
    requires NoneWithin(WithComma(d), MARKERS.start, 0, |WithComma(d)| + 3)
    ensures LastBracket(d + "\n" + After(text)) >= 0
    ensures Inserted(d + "\n" + After(text), Block(bindings2)) != Inserted(text, Block(bindings))
  {
    var again := d + "\n" + After(text);
    AfterFacts(text);
    RejoinedParts(d, After(text));
    BindingsPlain(UsedKeys(u, again), reserved);
    InnerNoSlash(bindings2);
    InsertedIs(text, bindings);
    InsertedIs(again, bindings2);
    AssembledDiffer(MARKERS, Before(text), Inner(bindings), WithComma(d), Inner(bindings2), After(text), s);
  }

  /** Installing a second time gives exactly the same text if and only if the stripped keymap has no
      start marker left before its last closing bracket. */
  lemma InstallTwiceIff(u: Unicode, reserved: set<string>, file: Option<string>, written: string)
    requires KeepsBracket(u) && Install(u, reserved, file) == Installed(written)
    ensures Install(u, reserved, Some(written)) == Installed(written)
       <==> NoStartInside(MARKERS, Stripped(MARKERS, if file.Some? then file.value else EMPTY_KEYMAP))
  {
    var start := if file.Some? then file.value else EMPTY_KEYMAP;
    var text := Stripped(MARKERS, start);
    StripLeavesNoBlock(MARKERS, start);
    if NoStartInside(MARKERS, text) {
      SecondInstallSame(u, reserved, text);
    } else {
      SecondInstallDiffers(u, reserved, text);
    }
  }

  // ----- where it is not the same -----

  lemma FirstCharKeys(u: Unicode, line: string)
    requires line == [] || line[0] == '[' || OnlyInName(line[0])
    ensures KeysOn(u, line) == {}
  {
    if line != [] {
      assert !IsSpace(line[0]) && SpaceEnd(line, 0) == 0;
    }
  }

  lemma MarkerNoBreak(m: Markers)
    ensures NoBreak(m.start) && |m.start| == 29 && m.start[0] == '/'
  {
    forall k | 0 <= k < |m.start|
      ensures !IsBreak(m.start[k])
    {
      assert k >= 2 ==> m.start[k] == m.startText[k - 2];
    }
  }

  lemma LineKeys(u: Unicode, line: string)
    requires NoBreak(line) && line != [] && (line[0] == '[' || OnlyInName(line[0]))
    ensures UsedKeys(u, line) == {}
  {
    FirstCharKeys(u, []);
    FirstCharKeys(u, line);
    UsedAreCollected(u, line);
    OneLine(KeysOnLine(u), line);
  }

  lemma OneLineKeys(u: Unicode, line: string)
    requires NoBreak(line) && line != [] && (line[0] == '[' || OnlyInName(line[0]))
    ensures UsedKeys(u, line + (['\n'] + [])) == {}
  {
    LineKeys(u, line);
    UsedAcrossBreak(u, line, '\n', []);
    assert UsedKeys(u, []) == {};
  }

  lemma BracketKeys(u: Unicode)
    ensures UsedKeys(u, "[\n]\n") == {}
  {
    LineKeys(u, "[");
    OneLineKeys(u, "]");
    var later := "]" + (['\n'] + []);
    UsedAcrossBreak(u, "[", '\n', later);
    assert "[" + (['\n'] + later) == "[\n]\n";
  }

  lemma StartAlone(m: Markers, text: string)
    requires text == m.start + (['\n'] + "[\n]\n")
    ensures NoBlock(m, text) && LastBracket(text) == 32 && !NoStartInside(m, text)
  {
    forall k, r | At(text, k, m.start) && At(text, r, m.end)
      ensures r < k + |m.start|
    {
      AtBeside(m.start, '\n', "[\n]\n", r, m.end);
    }
    assert |text| == 34 && text[32] == ']' && text[33] == '\n';
    LastBracketIs(text, 32);
    assert At(text[..32], 0, m.start);
  }

  lemma FreeKeyBinds(used: set<string>, reserved: set<string>)
    requires "f8" !in used && "f8" !in reserved
    ensures Bindings(used, reserved) != []
  {
    var check := Chosen(CHECK_CANDIDATES, used, reserved);
    ChosenAreFree(CHECK_CANDIDATES, used, reserved);
    assert CHECK_CANDIDATES[0] == "f8";
    BoundKeys(check, CheckTheory);
  }

  /** A keymap whose only marker is a start marker above the array: the first installation succeeds,
      the second does not reproduce its text. */
  lemma UnclosedMarkerExample(u: Unicode, reserved: set<string>) returns (file: string, written: string)
    requires KeepsBracket(u) && "f8" !in reserved
    ensures Install(u, reserved, Some(file)) == Installed(written)
    ensures Install(u, reserved, Some(written)) != Installed(written)
  {
    file := MARKERS.start + (['\n'] + "[\n]\n");
    StartAlone(MARKERS, file);
    StripNothing(MARKERS, file);
    MarkerNoBreak(MARKERS);
    LineKeys(u, MARKERS.start);
    BracketKeys(u);
    UsedAcrossBreak(u, MARKERS.start, '\n', "[\n]\n");
    var bindings := Bindings(UsedKeys(u, file), reserved);
    FreeKeyBinds(UsedKeys(u, file), reserved);
    written := Inserted(file, Block(bindings));
    InstallStripped(u, reserved, file, file);
    SecondInstallDiffers(u, reserved, file);
  }
}

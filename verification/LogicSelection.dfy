/** zed-extension/src/lib.rs, `unique_session_names` and `pick_auto_logic`: choosing the logic from the
    sessions of a worktree. */
module LogicSelection {
  import opened Protocol

  datatype Origin = WorktreeRoot | OtherRoot

  datatype SessionInfo = SessionInfo(name: string, parent: Option<string>, origin: Origin)

  type Filter = SessionInfo -> bool

  function InWorktreeRoot(): Filter {
    (s: SessionInfo) => s.origin.WorktreeRoot?
  }

  function ParentIsHol(): Filter {
    (s: SessionInfo) => s.parent == Some("HOL")
  }

  /** The names of the sessions that pass, each once, in order of first appearance. */
  function UniqueNames(sessions: seq<SessionInfo>, keep: Filter): seq<string> {
    if sessions == [] then []
    else
      var before, last := UniqueNames(sessions[..|sessions| - 1], keep), sessions[|sessions| - 1];
      if !keep(last) || last.name in before then before else before + [last.name]
  }

  function PickedLogic(sessions: seq<SessionInfo>): Option<string> {
    var roots := UniqueNames(sessions, InWorktreeRoot());
    var hols := UniqueNames(sessions, ParentIsHol());
    if |roots| == 1 then Some(roots[0]) else if |hols| == 1 then Some(hols[0]) else None
  }

  method UniqueSessionNames(sessions: seq<SessionInfo>, keep: Filter) returns (unique: seq<string>)
    ensures unique == UniqueNames(sessions, keep)
  {
    unique := [];
    for i := 0 to |sessions|
      invariant unique == UniqueNames(sessions[..i], keep)
    {
      assert sessions[..i + 1][..i] == sessions[..i];
      if keep(sessions[i]) && sessions[i].name !in unique {
        unique := unique + [sessions[i].name];
      }
    }
    assert sessions[..|sessions|] == sessions;
  }

  method PickAutoLogic(sessions: seq<SessionInfo>) returns (logic: Option<string>)
    ensures logic == PickedLogic(sessions)
  {
    var rootNames := UniqueSessionNames(sessions, InWorktreeRoot());
    if |rootNames| == 1 {
      return Some(rootNames[0]);
    }
    var holNames := UniqueSessionNames(sessions, ParentIsHol());
    if |holNames| == 1 {
      return Some(holNames[0]);
    }
    return None;
  }

  // ---------------------------------------------------------------------------------------------
  // What the choice depends on
  // ---------------------------------------------------------------------------------------------

  ghost function Members(sessions: seq<SessionInfo>): set<SessionInfo> {
    set s | s in sessions
  }

  ghost function Names(sessions: set<SessionInfo>, keep: Filter): set<string> {
    set s | s in sessions && keep(s) :: s.name
  }

  /** The specification by cardinality: the only name among the worktree root's sessions, or else the
      only name among the sessions whose parent is HOL, or else nothing. */
  ghost predicate Picks(sessions: set<SessionInfo>, logic: Option<string>) {
    var roots := set s | s in sessions && s.origin == WorktreeRoot :: s.name;
    var hols := set s | s in sessions && s.parent == Some("HOL") :: s.name;
    if |roots| == 1 then logic.Some? && roots == {logic.value}
    else if |hols| == 1 then logic.Some? && hols == {logic.value}
    else logic.None?
  }

  ghost predicate Distinct<T>(s: seq<T>) {
    forall i, j | 0 <= i < j < |s| :: s[i] != s[j]
  }

  lemma {:induction false} UniqueNamesExact(sessions: seq<SessionInfo>, keep: Filter)
    ensures Distinct(UniqueNames(sessions, keep))
    ensures forall n :: n in UniqueNames(sessions, keep) <==> n in Names(Members(sessions), keep)
  {
    if sessions != [] {
      var front, last := sessions[..|sessions| - 1], sessions[|sessions| - 1];
      UniqueNamesExact(front, keep);
      assert sessions == front + [last];
      assert Members(sessions) == Members(front) + {last};
      assert Names(Members(sessions), keep) == Names(Members(front), keep) + (if keep(last) then {last.name} else {});
    }
  }

  lemma {:induction false} DistinctCount<T>(s: seq<T>, elements: set<T>)
    requires Distinct(s) && forall x :: x in s <==> x in elements
    ensures |s| == |elements|
  {
    if s == [] {
      assert elements == {};
    } else {
      var front, last := s[..|s| - 1], s[|s| - 1];
      forall x
        ensures x in front <==> x in elements - {last}
      {
        assert s == front + [last];
      }
      DistinctCount(front, elements - {last});
    }
  }

  lemma OnlyName(sessions: seq<SessionInfo>, keep: Filter)
    ensures |UniqueNames(sessions, keep)| == |Names(Members(sessions), keep)|
    ensures |UniqueNames(sessions, keep)| == 1 ==> Names(Members(sessions), keep) == {UniqueNames(sessions, keep)[0]}
  {
    UniqueNamesExact(sessions, keep);
    DistinctCount(UniqueNames(sessions, keep), Names(Members(sessions), keep));
    SameElements(UniqueNames(sessions, keep), Names(Members(sessions), keep));
  }

  lemma SameElements(unique: seq<string>, names: set<string>)
    requires forall n :: n in unique <==> n in names
    ensures |unique| == 1 ==> names == {unique[0]}
  {
    if |unique| == 1 {
      assert unique == [unique[0]];
    }
  }

  /** The loops compute the cardinality specification, and nothing else meets it. */
  lemma PickMeetsSpec(sessions: seq<SessionInfo>)
    ensures forall logic :: Picks(Members(sessions), logic) <==> logic == PickedLogic(sessions)
  {
    OnlyName(sessions, InWorktreeRoot());
    OnlyName(sessions, ParentIsHol());
    var members := Members(sessions);
    assert Names(members, InWorktreeRoot()) == set s | s in members && s.origin == WorktreeRoot :: s.name;
    assert Names(members, ParentIsHol()) == set s | s in members && s.parent == Some("HOL") :: s.name;
    var picked := PickedLogic(sessions);
    assert Picks(Members(sessions), picked);
    forall logic | Picks(Members(sessions), logic)
      ensures logic == picked
    {
      assert logic.Some? && picked.Some? ==> logic.value in {picked.value};
    }
  }

  /** Neither the order of the sessions nor how often each is listed matters. */
  lemma PickIgnoresOrder(a: seq<SessionInfo>, b: seq<SessionInfo>)
    requires forall s :: s in a <==> s in b
    ensures PickedLogic(a) == PickedLogic(b)
  {
    assert Members(a) == Members(b);
    PickMeetsSpec(a);
    PickMeetsSpec(b);
    assert Picks(Members(b), PickedLogic(a));
  }
}

/**
 * The goal list as a value: the Goal record, JavaScript's String.prototype.trim
 * (used only to reject blank input), and the two list transforms behind the
 * "Add Goal" button and the per-goal completion toggle.
 *
 * The list is newest-first: an added goal is prepended. Toggling never
 * reorders the list. Goal ids are not assumed to be unique; the lemmas that
 * need uniqueness say so in their requires.
 */
module Goals {

  /** One goal as the app stores it: `date` is the day it was created, in the display format. */
  datatype Goal = Goal(id: string, text: string, completed: bool, date: string)

  /**
   * The characters JavaScript's trim removes: the WhiteSpace code points
   * (tab, vertical tab, form feed, space, no-break space, byte order mark and
   * the other space separators) and the LineTerminator code points.
   */
  predicate IsWhitespace(c: char)
  {
    c == '\t' || c == '\U{000B}' || c == '\U{000C}' || c == ' ' || c == '\U{00A0}' || c == '\U{FEFF}'
    || c == '\U{1680}' || ('\U{2000}' <= c <= '\U{200A}') || c == '\U{202F}' || c == '\U{205F}' || c == '\U{3000}'
    || c == '\n' || c == '\r' || c == '\U{2028}' || c == '\U{2029}'
  }

  /** Input that holds nothing but whitespace (the empty string included). */
  predicate IsBlank(s: string)
  {
    forall i :: 0 <= i < |s| ==> IsWhitespace(s[i])
  }

  /** Removes leading whitespace: the result is the suffix starting at the first non-whitespace character. */
  function TrimStart(s: string): (r: string)
    ensures |r| <= |s| && r == s[|s| - |r|..]
    ensures forall i :: 0 <= i < |s| - |r| ==> IsWhitespace(s[i])
    ensures r != [] ==> !IsWhitespace(r[0])
  {
    if s != [] && IsWhitespace(s[0]) then TrimStart(s[1..]) else s
  }

  /** Removes trailing whitespace: the result is the prefix ending at the last non-whitespace character. */
  function TrimEnd(s: string): (r: string)
    ensures |r| <= |s| && r == s[..|r|]
    ensures forall i :: |r| <= i < |s| ==> IsWhitespace(s[i])
    ensures r != [] ==> !IsWhitespace(r[|r| - 1])
  {
    if s != [] && IsWhitespace(s[|s| - 1]) then TrimEnd(s[..|s| - 1]) else s
  }

  /** JavaScript's `s.trim()`: empty exactly for blank input, otherwise bounded by non-whitespace. */
  function Trim(s: string): (r: string)
    ensures r == [] <==> IsBlank(s)
    ensures r != [] ==> !IsWhitespace(r[0]) && !IsWhitespace(r[|r| - 1])
    ensures |r| <= |s|
  {
    var t := TrimStart(s);
    var r := TrimEnd(t);
    assert r == [] ==> IsBlank(s) by {
      if r == [] {
        assert t == [];
      }
    }
    assert r != [] ==> !IsWhitespace(t[0]);
    r
  }

  /** The goal an add creates: the raw input as text, not yet completed. */
  function NewGoal(id: string, input: string, date: string): Goal
  {
    Goal(id, input, false, date)
  }

  /**
   * The list after pressing "Add Goal" with `input` in the field. Blank input
   * leaves the list as it is; otherwise a goal holding the untrimmed input is
   * put in front of the existing goals.
   */
  function Added(goals: seq<Goal>, input: string, id: string, date: string): (r: seq<Goal>)
    ensures |r| == |goals| + (if IsBlank(input) then 0 else 1)
    ensures IsBlank(input) ==> r == goals
    ensures !IsBlank(input) ==>
      r[0].id == id && r[0].text == input && !r[0].completed && r[0].date == date &&
      forall i :: 0 <= i < |goals| ==> r[i + 1] == goals[i]
  {
    if Trim(input) != "" then [NewGoal(id, input, date)] + goals else goals
  }

  /** One element of the map in the toggle: flip `completed` when the id matches. */
  function Flip(g: Goal, id: string): Goal
  {
    if g.id == id then g.(completed := !g.completed) else g
  }

  /**
   * The list after toggling `id`: every goal with that id has its `completed`
   * flag negated, and nothing else about any goal, nor the order, changes.
   */
  function Toggled(goals: seq<Goal>, id: string): (r: seq<Goal>)
    ensures |r| == |goals|
    ensures forall i :: 0 <= i < |goals| ==>
      r[i].id == goals[i].id && r[i].text == goals[i].text && r[i].date == goals[i].date &&
      r[i].completed == (if goals[i].id == id then !goals[i].completed else goals[i].completed)
  {
    if goals == [] then [] else [Flip(goals[0], id)] + Toggled(goals[1..], id)
  }

  /** The ids of the goals, in list order. */
  function Ids(goals: seq<Goal>): (ids: seq<string>)
    ensures |ids| == |goals|
    ensures forall i :: 0 <= i < |goals| ==> ids[i] == goals[i].id
  {
    if goals == [] then [] else [goals[0].id] + Ids(goals[1..])
  }

  /** No two goals share an id: the intended invariant, which the source does not enforce. */
  predicate UniqueIds(goals: seq<Goal>)
  {
    forall i, j :: 0 <= i < j < |goals| ==> goals[i].id != goals[j].id
  }

  /** Toggling an id that no goal carries gives back the same list. */
  lemma ToggledAbsent(goals: seq<Goal>, id: string)
    requires id !in Ids(goals)
    ensures Toggled(goals, id) == goals
  {
    var r := Toggled(goals, id);
    forall i | 0 <= i < |goals| ensures r[i] == goals[i] {
      assert Ids(goals)[i] == goals[i].id;
    }
  }

  /** Toggling the same id twice restores the list: toggle is an involution. */
  lemma {:induction false} ToggledTwice(goals: seq<Goal>, id: string)
    ensures Toggled(Toggled(goals, id), id) == goals
  {
    if goals != [] {
      ToggledTwice(goals[1..], id);
      assert Toggled(goals, id)[1..] == Toggled(goals[1..], id);
    }
  }

  /** Toggles of two ids can be done in either order. */
  lemma ToggledCommute(goals: seq<Goal>, a: string, b: string)
    ensures Toggled(Toggled(goals, a), b) == Toggled(Toggled(goals, b), a)
  {
    var x, y := Toggled(Toggled(goals, a), b), Toggled(Toggled(goals, b), a);
    forall i | 0 <= i < |goals| ensures x[i] == y[i] {
    }
  }

  /** Toggling keeps every id where it was, so it keeps ids unique. */
  lemma ToggledKeepsIds(goals: seq<Goal>, id: string)
    ensures Ids(Toggled(goals, id)) == Ids(goals)
    ensures UniqueIds(goals) ==> UniqueIds(Toggled(goals, id))
  {
    var r := Toggled(goals, id);
    assert forall i :: 0 <= i < |goals| ==> Ids(r)[i] == Ids(goals)[i];
  }

  /** With unique ids, toggling the id found at index k changes that one goal and no other. */
  lemma ToggledUnique(goals: seq<Goal>, k: nat)
    requires UniqueIds(goals) && k < |goals|
    ensures Toggled(goals, goals[k].id) == goals[k := goals[k].(completed := !goals[k].completed)]
  {
    var r, s := Toggled(goals, goals[k].id), goals[k := goals[k].(completed := !goals[k].completed)];
    forall i | 0 <= i < |goals| ensures r[i] == s[i] {
      if i != k {
        assert goals[i].id != goals[k].id;
      }
    }
  }

  /** Adding with an id that no goal has keeps ids unique. */
  lemma AddedFreshKeepsUnique(goals: seq<Goal>, input: string, id: string, date: string)
    requires UniqueIds(goals) && id !in Ids(goals)
    ensures UniqueIds(Added(goals, input, id, date))
  {
    var r := Added(goals, input, id, date);
    if !IsBlank(input) {
      forall i, j | 0 <= i < j < |r| ensures r[i].id != r[j].id {
        if i == 0 {
          assert r[j] == goals[j - 1];
          assert Ids(goals)[j - 1] == goals[j - 1].id;
        } else {
          assert r[i] == goals[i - 1] && r[j] == goals[j - 1];
        }
      }
    }
  }

  /** Adding never touches the existing goals: the old list is what follows the new goal. */
  lemma AddedExtends(goals: seq<Goal>, input: string, id: string, date: string)
    ensures Added(goals, input, id, date)[|Added(goals, input, id, date)| - |goals|..] == goals
  {
    var r := Added(goals, input, id, date);
    if !IsBlank(input) {
      assert r[1..] == goals;
    }
  }

  /** Toggling a different id commutes with an add: the new goal is left alone. */
  lemma ToggledAfterAddedOther(goals: seq<Goal>, input: string, id: string, date: string, other: string)
    requires other != id
    ensures Toggled(Added(goals, input, id, date), other) == Added(Toggled(goals, other), input, id, date)
  {
    var x, y := Toggled(Added(goals, input, id, date), other), Added(Toggled(goals, other), input, id, date);
    if !IsBlank(input) {
      forall i | 0 <= i < |x| ensures x[i] == y[i] {
        if i > 0 {
          assert Added(goals, input, id, date)[i] == goals[i - 1];
        }
      }
    }
  }

  /** Toggling a freshly added goal's id completes just that goal, when the id is new. */
  lemma ToggledJustAdded(goals: seq<Goal>, input: string, id: string, date: string)
    requires !IsBlank(input) && id !in Ids(goals)
    ensures Toggled(Added(goals, input, id, date), id) == [Goal(id, input, true, date)] + goals
  {
    var x, y := Toggled(Added(goals, input, id, date), id), [Goal(id, input, true, date)] + goals;
    forall i | 0 <= i < |x| ensures x[i] == y[i] {
      if i > 0 {
        assert Added(goals, input, id, date)[i] == goals[i - 1];
        assert Ids(goals)[i - 1] == goals[i - 1].id;
      }
    }
  }
}

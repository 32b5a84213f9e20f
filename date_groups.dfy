/**
 * Date grouping in the rendered list. The list renders each goal in canonical
 * order, and a header with the goal's date comes before it when the goal is the
 * first one or its date differs from the date of the goal just before it.
 * A run of goals that share a date therefore gets one header.
 */
module DateGroups {
  import opened Goals

  /** The condition in the item renderer: does the goal at `index` get a date header above it? */
  predicate ShowsSeparator(goals: seq<Goal>, index: nat)
    requires index < |goals|
  {
    index == 0 || goals[index - 1].date != goals[index].date
  }

  /** One row of the rendered list: a date header, or a goal. */
  datatype Row = DateHeader(date: string) | GoalRow(goal: Goal)

  /** The rows the renderer produces for the goal at `index`. */
  function RowsAt(goals: seq<Goal>, index: nat): seq<Row>
    requires index < |goals|
  {
    (if ShowsSeparator(goals, index) then [DateHeader(goals[index].date)] else []) + [GoalRow(goals[index])]
  }

  /** The rows for the first `n` goals. */
  function RenderedPrefix(goals: seq<Goal>, n: nat): seq<Row>
    requires n <= |goals|
  {
    if n == 0 then [] else RenderedPrefix(goals, n - 1) + RowsAt(goals, n - 1)
  }

  /** The whole rendered list. */
  function Rendered(goals: seq<Goal>): seq<Row>
  {
    RenderedPrefix(goals, |goals|)
  }

  /** The goals among some rows, in order, with the headers dropped. */
  function Items(rows: seq<Row>): seq<Goal>
  {
    if rows == [] then [] else (if rows[0].GoalRow? then [rows[0].goal] else []) + Items(rows[1..])
  }

  /** The number of date headers among some rows. */
  function HeaderCount(rows: seq<Row>): nat
  {
    if rows == [] then 0 else (if rows[0].DateHeader? then 1 else 0) + HeaderCount(rows[1..])
  }

  /** The number of adjacent pairs of goals whose dates differ, counted from the front. */
  function DateChanges(goals: seq<Goal>): nat
  {
    if |goals| < 2 then 0 else (if goals[0].date != goals[1].date then 1 else 0) + DateChanges(goals[1..])
  }

  lemma {:induction false} ItemsAppend(a: seq<Row>, b: seq<Row>)
    ensures Items(a + b) == Items(a) + Items(b)
  {
    if a == [] {
      assert a + b == b;
    } else {
      var ab := a + b;
      assert ab[0] == a[0] && ab[1..] == a[1..] + b;
      ItemsAppend(a[1..], b);
    }
  }

  lemma {:induction false} HeaderCountAppend(a: seq<Row>, b: seq<Row>)
    ensures HeaderCount(a + b) == HeaderCount(a) + HeaderCount(b)
  {
    if a == [] {
      assert a + b == b;
    } else {
      var ab := a + b;
      assert ab[0] == a[0] && ab[1..] == a[1..] + b;
      HeaderCountAppend(a[1..], b);
    }
  }

  /** The rows for one goal hold that goal and, when it shows a separator, one header. */
  lemma RowsAtContents(goals: seq<Goal>, index: nat)
    requires index < |goals|
    ensures Items(RowsAt(goals, index)) == [goals[index]]
    ensures HeaderCount(RowsAt(goals, index)) == if ShowsSeparator(goals, index) then 1 else 0
  {
    var g := GoalRow(goals[index]);
    assert Items([g]) == [goals[index]] && HeaderCount([g]) == 0 by {
      assert [g][1..] == [];
    }
    if ShowsSeparator(goals, index) {
      var h := DateHeader(goals[index].date);
      assert RowsAt(goals, index) == [h, g];
      assert [h, g][1..] == [g];
    } else {
      assert RowsAt(goals, index) == [g];
    }
  }

  lemma {:induction false} DateChangesSnoc(goals: seq<Goal>, g: Goal)
    ensures DateChanges(goals + [g]) ==
      DateChanges(goals) + (if goals != [] && goals[|goals| - 1].date != g.date then 1 else 0)
  {
    if |goals| >= 2 {
      assert (goals + [g])[1..] == goals[1..] + [g];
      DateChangesSnoc(goals[1..], g);
    }
  }

  /** Headers only ever come between goals: dropping them gives back the goal list unchanged. */
  lemma {:induction false} RenderedItems(goals: seq<Goal>)
    ensures Items(Rendered(goals)) == goals
  {
    RenderedPrefixItems(goals, |goals|);
  }

  lemma {:induction false} RenderedPrefixItems(goals: seq<Goal>, n: nat)
    requires n <= |goals|
    ensures Items(RenderedPrefix(goals, n)) == goals[..n]
    ensures HeaderCount(RenderedPrefix(goals, n)) == if n == 0 then 0 else 1 + DateChanges(goals[..n])
  {
    if n > 0 {
      RenderedPrefixItems(goals, n - 1);
      var rows := RowsAt(goals, n - 1);
      ItemsAppend(RenderedPrefix(goals, n - 1), rows);
      HeaderCountAppend(RenderedPrefix(goals, n - 1), rows);
      RowsAtContents(goals, n - 1);
      assert goals[..n] == goals[..n - 1] + [goals[n - 1]];
      DateChangesSnoc(goals[..n - 1], goals[n - 1]);
    }
  }

  /** A non-empty list shows one header for its first goal plus one for each change of date. */
  lemma SeparatorCount(goals: seq<Goal>)
    ensures HeaderCount(Rendered(goals)) == if goals == [] then 0 else 1 + DateChanges(goals)
  {
    RenderedPrefixItems(goals, |goals|);
    assert goals[..|goals|] == goals;
  }

  /**
   * The rendered rows are grouped by date: they start with a header, every
   * header is directly followed by a goal of that date, and two goal rows next
   * to each other have the same date.
   */
  predicate GroupedByDate(rows: seq<Row>)
  {
    (rows != [] ==> rows[0].DateHeader?) &&
    (forall k :: 0 <= k < |rows| && rows[k].DateHeader? ==>
      k + 1 < |rows| && rows[k + 1].GoalRow? && rows[k + 1].goal.date == rows[k].date) &&
    (forall k :: 0 < k < |rows| && rows[k].GoalRow? && rows[k - 1].GoalRow? ==>
      rows[k - 1].goal.date == rows[k].goal.date)
  }

  lemma {:induction false} RenderedPrefixGrouped(goals: seq<Goal>, n: nat)
    requires n <= |goals|
    ensures GroupedByDate(RenderedPrefix(goals, n))
    ensures n > 0 ==> RenderedPrefix(goals, n)[|RenderedPrefix(goals, n)| - 1] == GoalRow(goals[n - 1])
  {
    if n > 0 {
      RenderedPrefixGrouped(goals, n - 1);
      var pre, rows := RenderedPrefix(goals, n - 1), RowsAt(goals, n - 1);
      var all := pre + rows;
      assert all == RenderedPrefix(goals, n);
      forall k | 0 <= k < |all| && all[k].DateHeader?
        ensures k + 1 < |all| && all[k + 1].GoalRow? && all[k + 1].goal.date == all[k].date
      {
        if k < |pre| {
          assert all[k] == pre[k];
          assert k + 1 < |pre|;
        }
      }
    }
  }

  /** The renderer's output is grouped by date, whatever the list. */
  lemma RenderedGrouped(goals: seq<Goal>)
    ensures GroupedByDate(Rendered(goals))
  {
    RenderedPrefixGrouped(goals, |goals|);
  }

  /** Dates a, a, b: headers appear above the first and the third goal, and nowhere else. */
  lemma SeparatorsForDatesAAB(goals: seq<Goal>)
    requires |goals| == 3 && goals[0].date == goals[1].date != goals[2].date
    ensures ShowsSeparator(goals, 0) && !ShowsSeparator(goals, 1) && ShowsSeparator(goals, 2)
    ensures Rendered(goals) == [DateHeader(goals[0].date), GoalRow(goals[0]), GoalRow(goals[1]),
                                DateHeader(goals[2].date), GoalRow(goals[2])]
    ensures HeaderCount(Rendered(goals)) == 2
  {
    assert RenderedPrefix(goals, 1) == [DateHeader(goals[0].date), GoalRow(goals[0])];
    assert RenderedPrefix(goals, 2) == RenderedPrefix(goals, 1) + [GoalRow(goals[1])];
    SeparatorCount(goals);
    assert DateChanges(goals[1..][1..]) == 0;
    assert DateChanges(goals[1..]) == 1;
  }

  /** Toggling changes no date, so every header stays where it was. */
  lemma ToggledKeepsSeparators(goals: seq<Goal>, id: string, index: nat)
    requires index < |goals|
    ensures ShowsSeparator(Toggled(goals, id), index) == ShowsSeparator(goals, index)
  {
  }

  /**
   * After a successful add, the new first goal has a header, the old first goal
   * keeps one only if its date differs from the new goal's, and every later
   * goal keeps its header exactly as before.
   */
  lemma AddedSeparators(goals: seq<Goal>, input: string, id: string, date: string, index: nat)
    requires !IsBlank(input) && index < |goals|
    ensures ShowsSeparator(Added(goals, input, id, date), 0)
    ensures ShowsSeparator(Added(goals, input, id, date), index + 1) ==
      if index == 0 then goals[0].date != date else ShowsSeparator(goals, index)
  {
    var r := Added(goals, input, id, date);
    if index > 0 {
      assert r[index] == goals[index - 1];
    }
  }
}

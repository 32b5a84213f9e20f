/**
 * The app component's state and its event handlers. The component keeps three
 * pieces of state (the day countdown, the goal list and the text in the input
 * field); the persistent key-value store is represented by the value it holds
 * under the key "goals".
 *
 * The clock, the locale-formatted date and the id taken from the clock are
 * parameters. Serialising to and from JSON is taken to give back the same list.
 */
module GoalApp {
  import opened Goals
  import opened Countdown

  datatype Option<T> = None | Some(value: T)

  class App {
    /** The countdown shown at the top of the screen. */
    var daysLeft: int
    /** The goal list, newest first. */
    var goals: seq<Goal>
    /** The text currently in the input field. */
    var newGoal: string
    /** What the persistent store holds under the key "goals"; None when nothing has been saved. */
    var stored: Option<seq<Goal>>

    /** The persistent copy is the in-memory list, or nothing is saved and the list is empty. */
    predicate InSync()
      reads this
    {
      stored == Some(goals) || (stored == None && goals == [])
    }

    /** The component mounts with a zero countdown, no goals and an empty input; `previous` is what an earlier session saved. */
    constructor (previous: Option<seq<Goal>>)
      ensures daysLeft == 0 && goals == [] && newGoal == "" && stored == previous
    {
      daysLeft := 0;
      goals := [];
      newGoal := "";
      stored := previous;
    }

    /** The first effect: compute the days left until the target date as seen at `now`. */
    method RefreshCountdown(now: int)
      modifies this
      ensures daysLeft == DaysLeft(TargetDate, now)
      ensures daysLeft >= 1 <==> now < TargetDate
      ensures goals == old(goals) && newGoal == old(newGoal) && stored == old(stored)
    {
      var diffTime := TargetDate - now;
      daysLeft := -((-diffTime) / MsPerDay);
      if now >= TargetDate {
        DaysLeftPast(TargetDate, now);
      }
    }

    /** The read half of loading: what the persistent store holds at this moment. */
    method ReadStored() returns (found: Option<seq<Goal>>)
      ensures found == stored
    {
      found := stored;
    }

    /** The install half of loading: a list that was found replaces the in-memory list; absence changes nothing. */
    method InstallLoaded(found: Option<seq<Goal>>)
      modifies this
      ensures goals == if found.Some? then found.value else old(goals)
      ensures daysLeft == old(daysLeft) && newGoal == old(newGoal) && stored == old(stored)
    {
      if found.Some? {
        goals := found.value;
      }
    }

    /** The second effect, run to completion: load what was saved. From the mounted state this brings memory and storage in sync. */
    method LoadGoals()
      modifies this
      ensures goals == if old(stored).Some? then old(stored).value else old(goals)
      ensures daysLeft == old(daysLeft) && newGoal == old(newGoal) && stored == old(stored)
      ensures old(goals) == [] ==> InSync()
    {
      var found := ReadStored();
      InstallLoaded(found);
    }

    /** Writes the whole list to the persistent store under the key "goals". */
    method SaveGoals(updated: seq<Goal>)
      modifies this
      ensures stored == Some(updated)
      ensures daysLeft == old(daysLeft) && goals == old(goals) && newGoal == old(newGoal)
    {
      stored := Some(updated);
    }

    /** Typing in the input field replaces its text. */
    method EditInput(text: string)
      modifies this
      ensures newGoal == text
      ensures daysLeft == old(daysLeft) && goals == old(goals) && stored == old(stored)
    {
      newGoal := text;
    }

    /**
     * The "Add Goal" button. Blank input changes nothing, not even the input
     * field. Otherwise the new goal is put first, the list is saved and the
     * input is cleared.
     */
    method AddGoal(id: string, date: string)
      modifies this
      ensures goals == Added(old(goals), old(newGoal), id, date)
      ensures newGoal == if IsBlank(old(newGoal)) then old(newGoal) else ""
      ensures stored == if IsBlank(old(newGoal)) then old(stored) else Some(goals)
      ensures daysLeft == old(daysLeft)
      ensures old(InSync()) ==> InSync()
    {
      if Trim(newGoal) != "" {
        var updatedGoals := [NewGoal(id, newGoal, date)] + goals;
        goals := updatedGoals;
        SaveGoals(updatedGoals);
        newGoal := "";
      }
    }

    /** Tapping a goal's icon: flip every goal with that id and save the list, whether or not any goal matched. */
    method ToggleGoalCompletion(id: string)
      modifies this
      ensures goals == Toggled(old(goals), id)
      ensures stored == Some(goals)
      ensures daysLeft == old(daysLeft) && newGoal == old(newGoal)
    {
      var updatedGoals := Toggled(goals, id);
      goals := updatedGoals;
      SaveGoals(updatedGoals);
    }
  }

  /** A goal added in one session is there, as added, when the next session loads. */
  method ReloadAfterAdd(id: string, date: string) returns (reloaded: seq<Goal>)
    ensures reloaded == [Goal(id, "Run 5k", false, date)]
  {
    var app := new App(None);
    app.LoadGoals();
    app.EditInput("Run 5k");
    assert !IsWhitespace("Run 5k"[0]);
    app.AddGoal(id, date);
    var next := new App(app.stored);
    next.LoadGoals();
    reloaded := next.goals;
  }

  /**
   * Loading is asynchronous: when the stored list is read at mount time but
   * installed only after an add, the added goal disappears from the screen
   * while the store holds only that goal, so memory and storage disagree.
   */
  method AddWhileLoading(earlier: seq<Goal>, id: string, date: string) returns (shown: seq<Goal>, saved: Option<seq<Goal>>)
    ensures shown == earlier
    ensures saved == Some([Goal(id, "Run 5k", false, date)])
  {
    var app := new App(Some(earlier));
    var found := app.ReadStored();
    app.EditInput("Run 5k");
    assert !IsWhitespace("Run 5k"[0]);
    app.AddGoal(id, date);
    assert app.goals == [Goal(id, "Run 5k", false, date)];
    app.InstallLoaded(found);
    shown, saved := app.goals, app.stored;
  }

  /**
   * When the add lands before the stored list is even read, the save
   * overwrites the earlier session's list: the loaded value is then the new
   * goal alone, and the earlier goals are gone from both screen and storage.
   */
  method AddBeforeLoad(earlier: seq<Goal>, id: string, date: string) returns (shown: seq<Goal>, saved: Option<seq<Goal>>)
    ensures shown == [Goal(id, "Run 5k", false, date)]
    ensures saved == Some(shown)
  {
    var app := new App(Some(earlier));
    app.EditInput("Run 5k");
    assert !IsWhitespace("Run 5k"[0]);
    app.AddGoal(id, date);
    assert app.goals == [Goal(id, "Run 5k", false, date)];
    var found := app.ReadStored();
    app.InstallLoaded(found);
    shown, saved := app.goals, app.stored;
  }
}

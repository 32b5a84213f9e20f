# Goals app: the goal-list logic, modelled in Dafny

The app is a single React Native component that keeps a list of short-text
goals, lets the user add a goal and mark one complete, saves the list in the
device's key-value store under the key `"goals"`, and shows how many days are
left until 1 January 2026. This project models the logic behind that screen:

- `countdown.dfy` (module `Countdown`): the day countdown, `ceil((target - now) / 86400000)`
  with instants in milliseconds since the epoch, and the target date
  `new Date("2026-01-01")` = 1767225600000 ms.
- `goals.dfy` (module `Goals`): the `Goal` record (`id`, `text`, `completed`,
  `date`), JavaScript's `trim` (used only to reject blank input), the add
  transform (prepend a new goal holding the raw input) and the toggle transform
  (a `map` that flips `completed` on every goal whose id matches).
- `date_groups.dfy` (module `DateGroups`): the renderer's separator rule (a
  date header above item `i` when `i == 0` or the previous item's date differs)
  and the rows it produces: goals in list order with date headers in between.
- `goal_app.dfy` (module `GoalApp`): class `App` with the component's state
  (`daysLeft`, `goals`, `newGoal`) and the stored value under `"goals"`, and
  methods for the two effects and the handlers, each tied by its postcondition
  to the pure functions above.

The list is newest-first (an add prepends) and a toggle never reorders it.
Nothing in the code keeps goal ids unique (`Date.now().toString()` is used as
the id), so the toggle is specified for any list: every goal carrying the id
flips. The lemmas that need more take unique ids, or a fresh id, as a
precondition (`ToggledUnique`, `AddedFreshKeepsUnique`, `ToggledJustAdded`).

Facts about the code that the model keeps:

- The stored text of a new goal is the raw input; the trimmed value only
  decides whether the input is blank.
- Toggling an id that no goal has still writes the (unchanged) list to storage.
- Nothing stops an add from running while the saved list is still being
  loaded. Two interleavings are shown. In `GoalApp.AddWhileLoading` the saved
  list is read, a goal is added, and only then is the read list installed: the
  screen shows the old list while storage holds only the new goal. In
  `GoalApp.AddBeforeLoad` the add comes before the read: the save overwrites
  the earlier session's list, which is then lost from storage and screen.

## Model

| member | source | states |
|---|---|---|
| `Countdown.DaysLeft` | App.js:13-16 | the count `d` is the ceiling of the millisecond difference over a day: `(d-1)*86400000 < target-now <= d*86400000` |
| `Countdown.DaysLeftUnique` | App.js:16 | those two bounds determine the count: any `d` meeting them equals `DaysLeft` |
| `Countdown.DaysLeftWithinOneDay` | App.js:15-16 | a target in the future but at most one day away gives 1, not 0 |
| `Countdown.DaysLeftPast` | App.js:15-16 | once the target is reached the count is at most 0, and exactly 0 at the target |
| `Countdown.DaysLeftMonotone` | App.js:13-16 | a later `now` never gives a larger count |
| `Countdown.DaysLeftDayEarlier` | App.js:15-16 | moving `now` one day earlier adds exactly one day |
| `Countdown.DaysLeftNewYearsEve` | App.js:14-16 | one hour before midnight UTC on 1 January 2026 the count is 1 |
| `Goals.IsWhitespace` | App.js:35 | the character set `trim()` removes (ECMAScript WhiteSpace and LineTerminator code points); a definition, no contract |
| `Goals.TrimStart` | App.js:35 | result is a suffix of the input, everything dropped is whitespace, and it does not start with whitespace |
| `Goals.TrimEnd` | App.js:35 | result is a prefix of the input, everything dropped is whitespace, and it does not end with whitespace |
| `Goals.Trim` | App.js:35 | `trim()` is empty exactly when every character is whitespace; otherwise it starts and ends with non-whitespace |
| `Goals.Added` | App.js:35-39 | blank input leaves the list equal; otherwise the list is one longer, index 0 is `{id, raw input, completed false, date}` and old `goals[i]` is new `goals[i+1]` |
| `Goals.NewGoal` | App.js:37 | the object literal `{id, text: newGoal, completed: false, date}`; a definition, no contract, its properties are in `Goals.Added` |
| `Goals.Flip` | App.js:48 | the map callback: the goal with `completed` negated when its id matches, else the goal itself; a definition, no contract, its properties are in `Goals.Toggled` |
| `Goals.Toggled` | App.js:47-49 | same length and order; at each index `id`, `text`, `date` are kept and `completed` flips exactly where the id matches |
| `Goals.ToggledAbsent` | App.js:47-49 | toggling an id no goal has gives back the same list |
| `Goals.ToggledTwice` | App.js:47-49 | toggling the same id twice gives back the original list |
| `Goals.ToggledCommute` | App.js:47-49 | toggles of two ids commute |
| `Goals.ToggledKeepsIds` | App.js:47-49 | the id sequence is unchanged, so unique ids stay unique |
| `Goals.ToggledUnique` | App.js:47-49 | with unique ids, toggling the id at index `k` changes only `goals[k].completed` |
| `Goals.AddedFreshKeepsUnique` | App.js:36-39 | adding with an id not in the list keeps ids unique |
| `Goals.AddedExtends` | App.js:36-39 | the old list is exactly the tail after the add, whether or not a goal was added |
| `Goals.ToggledAfterAddedOther` | App.js:36-49 | toggling another id after an add equals adding after toggling that id |
| `Goals.ToggledJustAdded` | App.js:36-49 | toggling a just-added goal's fresh id completes that goal and leaves the rest of the list as it was |
| `DateGroups.ShowsSeparator` | App.js:75 | the separator condition: item `index` gets a date header when `index == 0` or the previous item's date differs; a definition, no contract, its properties are in the lemmas below |
| `DateGroups.RowsAt` | App.js:75-95 | the rows rendered for one item: its date header when `ShowsSeparator` holds, then the goal; a definition, no contract |
| `DateGroups.RenderedPrefix` | App.js:70-97 | the rows of the first `n` items, in list order; a definition, no contract |
| `DateGroups.Rendered` | App.js:70-97 | the rows of the whole FlatList; a definition, no contract, its properties are in the lemmas below |
| `DateGroups.RenderedItems` | App.js:71-81 | dropping the date headers from the rendered rows gives back the goal list, in order |
| `DateGroups.SeparatorCount` | App.js:75 | a non-empty list shows 1 header plus one per adjacent pair with different dates; an empty list shows none |
| `DateGroups.RenderedGrouped` | App.js:75-81 | rows start with a header, each header is followed by a goal of its date, and adjacent goal rows share a date |
| `DateGroups.SeparatorsForDatesAAB` | App.js:75 | dates `a, a, b` get headers above items 0 and 2 only: two headers in all |
| `DateGroups.ToggledKeepsSeparators` | App.js:75 | a toggle moves or removes no header |
| `DateGroups.AddedSeparators` | App.js:75 | after an add the new goal has a header, the old first goal keeps one only if its date differs, later headers are unchanged |
| `GoalApp.App.constructor` | App.js:8-10 | the component mounts with countdown 0, no goals and an empty input, the store holding the earlier session's value |
| `GoalApp.App.RefreshCountdown` | App.js:12-18 | `daysLeft` becomes `DaysLeft(target, now)`, which is at least 1 exactly while `now` is before the target; nothing else changes |
| `GoalApp.App.ReadStored` | App.js:22 | returns what is stored under `"goals"` |
| `GoalApp.App.InstallLoaded` | App.js:23-25 | a found list replaces the goals; absence leaves them; nothing else changes |
| `GoalApp.App.LoadGoals` | App.js:21-27 | loads the stored list if there is one; from the mounted state, memory and storage then agree |
| `GoalApp.App.SaveGoals` | App.js:30-32 | the store holds exactly the given list; the component state is unchanged |
| `GoalApp.App.EditInput` | App.js:66 | the input field holds the typed text; nothing else changes |
| `GoalApp.App.AddGoal` | App.js:34-44 | goals become `Added(old goals, input, id, date)`; on blank input neither the input nor the store changes; otherwise the input is cleared and the store holds the new list; keeps memory and store in sync |
| `GoalApp.App.ToggleGoalCompletion` | App.js:46-52 | goals become `Toggled(old goals, id)` and the store holds the new list, even when no goal matched |
| `GoalApp.ReloadAfterAdd` | App.js:20-44 | adding "Run 5k" in one session and loading in the next gives exactly that one goal, not completed |
| `GoalApp.AddBeforeLoad` | App.js:20-44 | when an add lands before the load reads storage, the earlier session's list is overwritten: screen and store both hold only the new goal |
| `GoalApp.AddWhileLoading` | App.js:20-44 | when an add lands between the load's read and its install, the screen shows the old list and the store holds only the new goal |

## Left out

- Rendering, styles, the status bar, the checkbox import and the FlatList `keyExtractor` (App.js:54-165): presentation only; the model keeps only the header rule and the order of the rows.
- `Date.now()`, `new Date()` and `toLocaleDateString('en-GB')` (App.js:13, 37): clock and locale; the current instant, the id and the date string are parameters.
- `JSON.stringify` / `JSON.parse` (App.js:24, 31): library calls; the store holds the list itself, so a save followed by a load gives back the same list.
- Failures of the key-value store (a rejected read or write): not modelled; every save succeeds and every read returns what was last saved.
- Asynchronous completion of saves: each save takes effect at once, in the order issued; writes finishing out of order are not modelled.
- The truthiness test at App.js:23 is modelled as "a value is present"; a stored empty string, which the app itself never writes, would be ignored by the source and is not represented.
- Strings are sequences of Unicode code points, not UTF-16 code units; `trim`'s whitespace set follows the ECMAScript WhiteSpace and LineTerminator code points.
- Countdown.DaysLeft: exact integer ceiling division, not IEEE floating-point division followed by `Math.ceil`; the two agree for realistic differences, and the source's `-0` for a target less than a day past is the integer 0 here.
- GoalApp.App.RefreshCountdown: same arithmetic as `Countdown.DaysLeft`, for the same reason.

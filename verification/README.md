# Family points ledger

A model of the logic of the Khanna family task app (`app.py`), a Streamlit front end over a Google
spreadsheet. Family members complete tasks to earn points, redeem points for rewards, and suggest new
tasks and rewards. Suggestions wait in "Pending Approval" until a parent (an admin) approves or rejects
them. The spreadsheet has four sheets: Tasks (ID, Title, Points, Assignee, Frequency, Status), Rewards
(ID, Title, Cost, Status), Balances (User, Points) and History (time, user, action, item, change).

The model has five modules:

- `Tables` (tables.dfy): the row records, the fixed strings and roster, and the balance dictionary built
  on load. It also has the search of the Tasks sheet's ID column and the status overwrite that uses it.
- `Views` (views.dfy): the lists the app shows. These are the user's task list, the reward
  catalog and the admin tab's requests, all written as one order-keeping `Filter`.
- `Ledger` (ledger.dfy): the four sheets as a value (`Workbook`) and one function per button handler.
  Each function gives the sheets after the click and how the click ended (`Outcome`). Its contract
  states what the app promises of that click.
- `Runs` (runs.dfy): any sequence of clicks whose buttons the app draws. Over such a sequence, History
  only grows at its end and reward rows never change. Task rows change only in their Status, along the
  approval and completion lifecycle. Balances stay non-negative when no completed task is worth
  negative points.
- `App` (app.dfy): class `FamilySheet` holds the four sheets as fields. The sheet
  helpers (`LogHistory`, `UpdateBalance`, `AddTask`, `UpdateTaskStatus`) append a row or overwrite a
  cell. Each handler makes its writes in the app's order. Each handler is proved to leave the sheets
  exactly as the `Ledger` function for that click says.

The model assumes unique keys, as the app does when it looks rows up by user or ID. `Keyed` states
this: task IDs are distinct and below the row count plus 100, and the same holds for rewards with 200.
Under this invariant the ID a proposal gets (the row count plus 100, or plus 200 for a wish) is fresh.
Every click preserves the invariant.

`app.py` tracks only a points balance per user. It has no XP, levels, streaks, payout multipliers or
per-day completion limits, and a recurring task can be completed again at once: completing it leaves
it Active.

## Model

| member | source | states |
|---|---|---|
| `Tables.BalanceMap` | app.py:40 | the loaded dictionary has exactly one key per user that has a Balances row |
| `Tables.BalanceMapLookup` | app.py:40 | a user's loaded balance is the Points of that user's last row; with one row per user, it is that row's Points |
| `Tables.FindTaskRow` | app.py:66 | the ID search returns the first row holding the ID, and returns nothing exactly when no row holds it |
| `Tables.WithStatusChangesOnlyThatRow` | app.py:63-67 | with unique IDs, overwriting the Status cell by a row's ID changes only that row's Status; the row count and every other row stay the same |
| `Views.Filter` | app.py:113 | a filtered list is no longer than its input, and holds only input rows that satisfy the condition |
| `Views.FilterKeeps` | app.py:113 | a row is kept iff it occurs in the input and satisfies the condition |
| `Views.FilterAppend` | app.py:113 | filtering a concatenation is the concatenation of the filtered parts, so kept rows stay in sheet order |
| `Views.FilterNone` | app.py:154 | filtering rows none of which satisfies the condition keeps nothing |
| `Views.VisibleTasksExactly` | app.py:113 | a task is on a user's list iff it is a row with Status "Active" and Assignee "Any" or that user; the list keeps sheet order (it distributes over concatenation, and a single row is kept iff it qualifies) |
| `Views.CatalogExactly` | app.py:154 | the catalog holds exactly the rewards with Status "Approved", in sheet order |
| `Views.PendingTasksExactly` | app.py:194 | the task requests are exactly the tasks in "Pending Approval", in sheet order; none is on any user's task list |
| `Views.PendingRewardsExactly` | app.py:195 | the reward requests are exactly the rewards in "Pending Approval", in sheet order; none is in the catalog |
| `Ledger.CompleteTask` | app.py:124-137 | the new balance is the old balance (0 if missing) plus the task's Points, and other users' balances are unchanged; exactly one row (user, "Completed Task", Title, +Points) is appended to History; a One-time task's row becomes Completed and every other row is unchanged; a user without a Balances row gets NotFound and nothing changes; keys stay unique |
| `Ledger.CompletionAndTaskLists` | app.py:132-134 | after a One-time task is completed it is on no user's list, and every other task is listed as before; a task of any other frequency leaves the Tasks sheet unchanged |
| `Ledger.RedeemReward` | app.py:165-173 | the click is refused, with nothing changed, iff the balance is below the cost; an affordable click by a user without a Balances row (possible only when the cost is at most 0, since a missing balance reads as 0) ends NotFound with nothing changed; otherwise exactly the cost is deducted, the new balance is at least 0, other users' balances are unchanged, and one row (user, "Redeemed Reward", Title, -Cost) is appended |
| `Ledger.ProposeTask` | app.py:143-148 | one row is appended with ID = row count + 100, Assignee "Any", Frequency "One-time" and Status "Pending Approval"; the other sheets are unchanged; with keyed IDs the new ID is fresh and keys stay unique |
| `Ledger.ProposeReward` | app.py:179-183 | one row is appended with ID = row count + 200 and Status "Pending Approval"; the other sheets are unchanged; with keyed IDs the new ID is fresh |
| `Ledger.ApproveTask` | app.py:207-209 | it succeeds iff the user is an admin; then only that request's Status changes, to "Active"; otherwise nothing changes |
| `Ledger.RejectTask` | app.py:210-212 | it succeeds iff the user is an admin; then only that request's Status changes, to "Rejected"; otherwise nothing changes |
| `Ledger.ApprovedProposalIsListed` | app.py:143-148 | a new task request appears among the admin's requests; once an admin approves it, it is on every user's task list |
| `Runs.StepAppendsOnly` | app.py:43-61 | every click the app offers keeps the old History as a prefix, keeps every existing reward row, appends only rewards in "Pending Approval", and keeps the set of users with a balance |
| `Runs.StepEvolvesTasks` | app.py:63-67 | every click the app offers keeps all task rows; it changes a row only in its Status, and only by one step: from "Pending Approval" to Active or Rejected, or from Active to Completed (never straight from "Pending Approval" to Completed) |
| `Runs.StepKeepsBalancesNonNegative` | app.py:165-169 | a click keeps all balances at or above zero unless it completes a task worth negative points; a redemption never overdraws |
| `Runs.StepGrows` | app.py:43-67 | the two facts above together, and that IDs stay keyed: one click grows the sheets as the app allows |
| `Runs.RunGrows` | app.py:43-67 | the same holds for any sequence of offered clicks: History is append-only and reward rows are never edited |
| `Runs.FinalStatusesStay` | app.py:194 | a Completed or Rejected task row never changes again, so it is never listed again and a rejected request is never activated |
| `Runs.CatalogNeverChanges` | app.py:218-222 | no click moves a reward out of "Pending Approval", so the catalog after any sequence of clicks equals the catalog before it |
| `Runs.BalancesStayNonNegative` | app.py:165-169 | starting from non-negative balances, every balance stays at or above zero when no completed task is worth negative points: redemption never overdraws |
| `App.FamilySheet.Load` | app.py:34-41 | the object holds the four sheets, with Balances as the dictionary built from its rows |
| `App.FamilySheet.LogHistory` | app.py:43-47 | one row is appended at the end of History, and the other sheets are unchanged |
| `App.FamilySheet.UpdateBalance` | app.py:49-53 | the user's Points cell is overwritten if the user has a row; otherwise the user is not found and nothing changes |
| `App.FamilySheet.AddTask` | app.py:55-61 | one row is appended at the end of Tasks, and the other sheets are unchanged |
| `App.FamilySheet.UpdateTaskStatus` | app.py:63-67 | the Status cell of the first row with that ID is overwritten; a missing ID is reported and nothing changes |
| `App.FamilySheet.CompleteTask` | app.py:124-137 | the handler's writes leave the sheets and outcome equal to `Ledger.CompleteTask`, and keys stay unique |
| `App.FamilySheet.RedeemReward` | app.py:165-173 | the handler's writes leave the sheets and outcome equal to `Ledger.RedeemReward` |
| `App.FamilySheet.ProposeTask` | app.py:143-148 | the handler leaves the sheets equal to `Ledger.ProposeTask`, and keys stay unique |
| `App.FamilySheet.ProposeReward` | app.py:179-184 | the handler leaves the sheets equal to `Ledger.ProposeReward`, and keys stay unique |
| `App.FamilySheet.ApproveTask` | app.py:187-209 | the handler leaves the sheets and outcome equal to `Ledger.ApproveTask` |
| `App.FamilySheet.RejectTask` | app.py:187-212 | the handler leaves the sheets and outcome equal to `Ledger.RejectTask` |
| `App.FamilySheet.Dashboard` | app.py:95-195 | the shown balance is the user's Points, or 0 without a row; the task list and catalog hold exactly the rows their conditions select; the two request lists are computed only for an admin, and then are exactly the pending rows in sheet order (`Views.PendingTasks` and `Views.PendingRewards`), while any other user gets none |

## Left out

- Rendering: page layout, CSS, toasts, balloons, the leaderboard columns and the activity-log table (app.py:71-78, 99-104, 224-228). These only display data the model already has.
- The spreadsheet connection and credentials (app.py:20-31), and the error-and-stop paths when loading fails (app.py:80-84). The sheets are in-memory fields and values.
- The search `ws.find(user)` scans the whole Balances sheet, not just the User column. A missing user is modelled as NotFound with nothing written: the script stops at the failed update, before the History write.
- Duplicate keys: load keeps a user's last Balances row, while the balance update writes the first one. Task IDs typed into the sheet by hand could also clash with proposal IDs. The model assumes keyed sheets (`Keyed`): IDs are unique and each ID is below the row count plus 100 (plus 200 for rewards). The handlers require this, so a hand-entered task ID at or above that bound (say 500 in a short sheet) is outside the model, although the app completes such a task. The model proves only that the app's own writes keep the sheets keyed.
- Lost updates between sessions: the balance is read once per run and written back, so two sessions can overwrite each other. The model is sequential, and within one session the value read is the current balance.
- The History timestamp (the wall clock, app.py:46) is an opaque `now` parameter.
- The History change is stored as the text "+N" or "-N" (app.py:130, app.py:170). The model keeps the signed number.
- Column types: Points and Cost are whole numbers, since the input widgets (app.py:142, app.py:178) give integers. Sheet coercion of blank or text cells is not modelled.
- Approving or rejecting a reward wish: the app offers no button for this (app.py:218-222). Done by hand in the sheet, it is outside the model.
- The role lookup of a name outside the roster (app.py:89) is not modelled. The sidebar only offers roster names, and `IsAdmin` is false for any other name.

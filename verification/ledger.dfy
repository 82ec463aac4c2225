/** The family points ledger as a value: the four sheets, and one function per
    button handler giving the sheets after the click and how the click ended.
    Each function's contract states what the app promises of that click. */
module Ledger {
  import opened Tables
  import opened Views

  /** The Tasks, Rewards, Balances and History sheets. Balances is the
      user-to-points dictionary the app loads. */
  datatype Workbook = Workbook(tasks: seq<Task>, rewards: seq<Reward>, balances: map<string, int>, history: seq<Entry>)

  /** How a click ends: its writes were made; the user has no Balances row, so
      the balance update fails before anything is written; the Redeem button
      was disabled; or the admin tab was locked. */
  datatype Outcome = Done | NotFound | Unaffordable | Forbidden

  datatype Step = Step(book: Workbook, outcome: Outcome)

  /** Unique IDs in both sheets, each below the ID of the next proposal. */
  ghost predicate Keyed(w: Workbook) {
    TaskKeys(w.tasks) && RewardKeys(w.rewards)
  }

  /** Balances that are all at least zero. */
  ghost predicate NonNegative(balances: map<string, int>) {
    forall u :: u in balances ==> balances[u] >= 0
  }

  /** "Done" on a task of the user's list: the task's points are added to the
      user's balance, one History row is appended, and a One-time task is
      marked Completed. */
  function CompleteTask(w: Workbook, user: string, t: Task, now: string): (r: Step)
    requires Keyed(w) && t in VisibleTasks(w.tasks, user)
    ensures r.outcome == Done || r.outcome == NotFound
    ensures r.outcome == NotFound <==> user !in w.balances
    ensures r.outcome == NotFound ==> r.book == w
    ensures r.outcome == Done ==>
      && r.book.balances.Keys == w.balances.Keys
      && PointsOf(r.book.balances, user) == PointsOf(w.balances, user) + t.points
      && r.book.history == w.history + [Entry(now, user, COMPLETED_TASK, t.title, t.points)]
    ensures forall u :: u != user ==> PointsOf(r.book.balances, u) == PointsOf(w.balances, u)
    ensures r.book.rewards == w.rewards
    ensures |r.book.tasks| == |w.tasks|
    ensures forall j :: 0 <= j < |w.tasks| ==>
      r.book.tasks[j] == if w.tasks[j] == t && t.frequency == ONE_TIME && r.outcome == Done
                         then t.(status := COMPLETED) else w.tasks[j]
    ensures Keyed(r.book)
  {
    if user !in w.balances then Step(w, NotFound)
    else
      var myPoints := PointsOf(w.balances, user);
      var balances := w.balances[user := myPoints + t.points];
      var history := w.history + [Entry(now, user, COMPLETED_TASK, t.title, t.points)];
      FilterKeeps(w.tasks, ShownToUser(user), t);
      WithStatusChangesOnlyThatRow(w.tasks, t, COMPLETED);
      var tasks := if t.frequency == ONE_TIME then WithStatus(w.tasks, t.id, COMPLETED) else w.tasks;
      Step(Workbook(tasks, w.rewards, balances, history), Done)
  }

  /** "Redeem" on a catalog reward: enabled only when the balance covers the
      cost; then exactly the cost is deducted, so the balance stays at or
      above zero, and one History row records the negative change. */
  function RedeemReward(w: Workbook, user: string, rw: Reward, now: string): (r: Step)
    requires rw in Catalog(w.rewards)
    ensures r.outcome == Unaffordable <==> PointsOf(w.balances, user) < rw.cost
    ensures r.outcome == Done <==> PointsOf(w.balances, user) >= rw.cost && user in w.balances
    ensures r.outcome == NotFound <==> PointsOf(w.balances, user) >= rw.cost && user !in w.balances
    ensures r.outcome != Done ==> r.book == w
    ensures r.outcome == Done ==>
      && r.book.balances.Keys == w.balances.Keys
      && PointsOf(r.book.balances, user) == PointsOf(w.balances, user) - rw.cost
      && PointsOf(r.book.balances, user) >= 0
      && r.book.history == w.history + [Entry(now, user, REDEEMED_REWARD, rw.title, -rw.cost)]
    ensures forall u :: u != user ==> PointsOf(r.book.balances, u) == PointsOf(w.balances, u)
    ensures r.book.tasks == w.tasks && r.book.rewards == w.rewards
  {
    var myPoints := PointsOf(w.balances, user);
    if myPoints < rw.cost then Step(w, Unaffordable)
    else if user !in w.balances then Step(w, NotFound)
    else
      var balances := w.balances[user := myPoints - rw.cost];
      var history := w.history + [Entry(now, user, REDEEMED_REWARD, rw.title, -rw.cost)];
      Step(w.(balances := balances, history := history), Done)
  }

  /** "Submit Task": a new row at the end of the Tasks sheet, open to "Any",
      One-time and awaiting approval, whose ID is the row count plus 100. When
      the sheet's IDs are keyed, the new ID is used by no other task. */
  function ProposeTask(w: Workbook, title: string, points: int): (r: Step)
    requires MIN_TASK_POINTS <= points <= MAX_TASK_POINTS
    ensures r.outcome == Done
    ensures |r.book.tasks| == |w.tasks| + 1 && r.book.tasks[..|w.tasks|] == w.tasks
    ensures r.book.tasks[|w.tasks|] == Task(|w.tasks| + TASK_ID_BASE, title, points, ANY, ONE_TIME, PENDING)
    ensures Keyed(w) ==> forall j :: 0 <= j < |w.tasks| ==> w.tasks[j].id != r.book.tasks[|w.tasks|].id
    ensures r.book.rewards == w.rewards && r.book.balances == w.balances && r.book.history == w.history
    ensures Keyed(w) ==> Keyed(r.book)
  {
    var proposal := Task(|w.tasks| + TASK_ID_BASE, title, points, ANY, ONE_TIME, PENDING);
    Step(w.(tasks := w.tasks + [proposal]), Done)
  }

  /** "Add to Wishlist": a new row at the end of the Rewards sheet awaiting
      approval, whose ID is the row count plus 200. When the sheet's IDs are
      keyed, the new ID is used by no other reward. */
  function ProposeReward(w: Workbook, item: string, cost: int): (r: Step)
    requires cost >= MIN_WISH_COST
    ensures r.outcome == Done
    ensures |r.book.rewards| == |w.rewards| + 1 && r.book.rewards[..|w.rewards|] == w.rewards
    ensures r.book.rewards[|w.rewards|] == Reward(|w.rewards| + REWARD_ID_BASE, item, cost, PENDING)
    ensures Keyed(w) ==> forall j :: 0 <= j < |w.rewards| ==> w.rewards[j].id != r.book.rewards[|w.rewards|].id
    ensures r.book.tasks == w.tasks && r.book.balances == w.balances && r.book.history == w.history
    ensures Keyed(w) ==> Keyed(r.book)
  {
    var wish := Reward(|w.rewards| + REWARD_ID_BASE, item, cost, PENDING);
    Step(w.(rewards := w.rewards + [wish]), Done)
  }

  /** "Approve" on a task request: only an admin gets the button; it sets that
      task's Status to Active and changes nothing else. */
  function ApproveTask(w: Workbook, user: string, t: Task): (r: Step)
    requires Keyed(w) && t in PendingTasks(w.tasks)
    ensures r.outcome == Done <==> IsAdmin(user)
    ensures r.outcome == Forbidden <==> !IsAdmin(user)
    ensures r.book.rewards == w.rewards && r.book.balances == w.balances && r.book.history == w.history
    ensures |r.book.tasks| == |w.tasks|
    ensures forall j :: 0 <= j < |w.tasks| ==>
      r.book.tasks[j] == if w.tasks[j] == t && IsAdmin(user) then t.(status := ACTIVE) else w.tasks[j]
    ensures Keyed(r.book)
  {
    if !IsAdmin(user) then Step(w, Forbidden)
    else
      FilterKeeps(w.tasks, AwaitsApproval, t);
      WithStatusChangesOnlyThatRow(w.tasks, t, ACTIVE);
      Step(w.(tasks := WithStatus(w.tasks, t.id, ACTIVE)), Done)
  }

  /** "Reject" on a task request: only an admin gets the button; it sets that
      task's Status to Rejected and changes nothing else. */
  function RejectTask(w: Workbook, user: string, t: Task): (r: Step)
    requires Keyed(w) && t in PendingTasks(w.tasks)
    ensures r.outcome == Done <==> IsAdmin(user)
    ensures r.outcome == Forbidden <==> !IsAdmin(user)
    ensures r.book.rewards == w.rewards && r.book.balances == w.balances && r.book.history == w.history
    ensures |r.book.tasks| == |w.tasks|
    ensures forall j :: 0 <= j < |w.tasks| ==>
      r.book.tasks[j] == if w.tasks[j] == t && IsAdmin(user) then t.(status := REJECTED) else w.tasks[j]
    ensures Keyed(r.book)
  {
    if !IsAdmin(user) then Step(w, Forbidden)
    else
      FilterKeeps(w.tasks, AwaitsApproval, t);
      WithStatusChangesOnlyThatRow(w.tasks, t, REJECTED);
      Step(w.(tasks := WithStatus(w.tasks, t.id, REJECTED)), Done)
  }

  /** Completing a One-time task takes it off every user's list, and leaves
      every other task's listing as it was; completing any other kind of task
      leaves the Tasks sheet, and so every list, unchanged. */
  lemma CompletionAndTaskLists(w: Workbook, user: string, t: Task, now: string, viewer: string, other: Task)
    requires Keyed(w) && t in VisibleTasks(w.tasks, user)
    requires CompleteTask(w, user, t, now).outcome == Done
    requires other != t
    ensures t.frequency == ONE_TIME ==> t !in VisibleTasks(CompleteTask(w, user, t, now).book.tasks, viewer)
    ensures t.frequency == ONE_TIME ==>
      (other in VisibleTasks(CompleteTask(w, user, t, now).book.tasks, viewer) <==> other in VisibleTasks(w.tasks, viewer))
    ensures t.frequency != ONE_TIME ==> CompleteTask(w, user, t, now).book.tasks == w.tasks
  {
    var after := CompleteTask(w, user, t, now).book.tasks;
    FilterKeeps(w.tasks, ShownToUser(user), t);
    FilterKeeps(after, ShownToUser(viewer), t);
    FilterKeeps(after, ShownToUser(viewer), other);
    FilterKeeps(w.tasks, ShownToUser(viewer), other);
    if t.frequency == ONE_TIME {
      assert t.status == ACTIVE;
      assert ShownTo(viewer, other) ==> (other in after <==> other in w.tasks) by {
        if ShownTo(viewer, other) && other in after {
          var j :| 0 <= j < |after| && after[j] == other;
          assert w.tasks[j] == other;
        }
        if ShownTo(viewer, other) && other in w.tasks {
          var j :| 0 <= j < |w.tasks| && w.tasks[j] == other;
          assert after[j] == other;
        }
      }
    }
  }

  /** A proposal approved by an admin is on every user's list: proposals are
      open to "Any". */
  lemma ApprovedProposalIsListed(w: Workbook, title: string, points: int, admin: string, viewer: string)
    requires Keyed(w) && MIN_TASK_POINTS <= points <= MAX_TASK_POINTS && IsAdmin(admin)
    ensures ProposeTask(w, title, points).book.tasks[|w.tasks|] in PendingTasks(ProposeTask(w, title, points).book.tasks)
    ensures
      var proposed := ProposeTask(w, title, points).book;
      var t := proposed.tasks[|w.tasks|];
      t.(status := ACTIVE) in VisibleTasks(ApproveTask(proposed, admin, t).book.tasks, viewer)
  {
    var proposed := ProposeTask(w, title, points).book;
    var t := proposed.tasks[|w.tasks|];
    FilterKeeps(proposed.tasks, AwaitsApproval, t);
    var approved := ApproveTask(proposed, admin, t).book;
    assert approved.tasks[|w.tasks|] == t.(status := ACTIVE);
    FilterKeeps(approved.tasks, ShownToUser(viewer), t.(status := ACTIVE));
  }
}

/** Sequences of clicks. A click is admissible when the app draws its button
    (the task is on the user's list, the reward in the catalog, the request in
    the admin tab, the proposal inputs within their widgets' bounds). Over any
    admissible sequence: History only grows at its end, no existing reward row
    ever changes (so no wish leaves "Pending Approval" and the catalog never
    grows), task rows change only in their Status and only along the approval
    and completion lifecycle, and IDs stay keyed. */
module Runs {
  import opened Tables
  import opened Views
  import opened Ledger

  datatype Op =
    | Complete(user: string, task: Task, now: string)
    | Redeem(user: string, reward: Reward, now: string)
    | SuggestTask(title: string, points: int)
    | SuggestReward(item: string, cost: int)
    | Approve(admin: string, task: Task)
    | Reject(admin: string, task: Task)

  /** The app draws the button for this click. */
  predicate Offered(w: Workbook, op: Op) {
    match op
    case Complete(user, t, _) => t in VisibleTasks(w.tasks, user)
    case Redeem(_, rw, _) => rw in Catalog(w.rewards)
    case SuggestTask(_, points) => MIN_TASK_POINTS <= points <= MAX_TASK_POINTS
    case SuggestReward(_, cost) => cost >= MIN_WISH_COST
    case Approve(_, t) => t in PendingTasks(w.tasks)
    case Reject(_, t) => t in PendingTasks(w.tasks)
  }

  function Apply(w: Workbook, op: Op): Step
    requires Keyed(w) && Offered(w, op)
  {
    match op
    case Complete(user, t, now) => CompleteTask(w, user, t, now)
    case Redeem(user, rw, now) => RedeemReward(w, user, rw, now)
    case SuggestTask(title, points) => ProposeTask(w, title, points)
    case SuggestReward(item, cost) => ProposeReward(w, item, cost)
    case Approve(admin, t) => ApproveTask(w, admin, t)
    case Reject(admin, t) => RejectTask(w, admin, t)
  }

  /** Every click of `ops` is offered in the state it is made in. */
  ghost predicate Admissible(w: Workbook, ops: seq<Op>)
    decreases |ops|
  {
    Keyed(w) && (ops == [] || (Offered(w, ops[0]) && Admissible(Apply(w, ops[0]).book, ops[1..])))
  }

  ghost function Run(w: Workbook, ops: seq<Op>): Workbook
    requires Admissible(w, ops)
    decreases |ops|
  {
    if ops == [] then w else Run(Apply(w, ops[0]).book, ops[1..])
  }

  /** How one task row may change: its Status only, a request moving to
      Active, Rejected or (through Active) Completed, and an Active task to
      Completed. Completed and Rejected rows never change. */
  predicate Evolves(a: Task, b: Task) {
    && b == a.(status := b.status)
    && (|| b.status == a.status
        || (a.status == PENDING && (b.status == ACTIVE || b.status == REJECTED || b.status == COMPLETED))
        || (a.status == ACTIVE && b.status == COMPLETED))
  }

  /** How one click may change one task row: its Status only, and by a single
      step of the lifecycle: a request to Active or Rejected, or an Active task
      to Completed. */
  predicate Advances(a: Task, b: Task) {
    && b == a.(status := b.status)
    && (|| b.status == a.status
        || (a.status == PENDING && (b.status == ACTIVE || b.status == REJECTED))
        || (a.status == ACTIVE && b.status == COMPLETED))
  }

  /** The sheets after `after` grew from those of `before` as the app allows. */
  ghost predicate Grows(before: Workbook, after: Workbook) {
    && Keyed(after)
    && before.history <= after.history
    && before.rewards <= after.rewards
    && (forall i :: |before.rewards| <= i < |after.rewards| ==> after.rewards[i].status == PENDING)
    && |before.tasks| <= |after.tasks|
    && (forall i :: 0 <= i < |before.tasks| ==> Evolves(before.tasks[i], after.tasks[i]))
    && after.balances.Keys == before.balances.Keys
  }

  /** One offered click keeps the old History as a prefix, keeps every existing
      reward row, appends only wishes awaiting approval, and keeps the set of
      users that have a balance. */
  lemma StepAppendsOnly(w: Workbook, op: Op)
    requires Keyed(w) && Offered(w, op)
    ensures w.history <= Apply(w, op).book.history
    ensures w.rewards <= Apply(w, op).book.rewards
    ensures forall i :: |w.rewards| <= i < |Apply(w, op).book.rewards| ==> Apply(w, op).book.rewards[i].status == PENDING
    ensures Apply(w, op).book.balances.Keys == w.balances.Keys
  {
  }

  /** One offered click moves existing task rows at most one step along their
      lifecycle. */
  lemma StepEvolvesTasks(w: Workbook, op: Op)
    requires Keyed(w) && Offered(w, op)
    ensures |w.tasks| <= |Apply(w, op).book.tasks|
    ensures forall i :: 0 <= i < |w.tasks| ==> Advances(w.tasks[i], Apply(w, op).book.tasks[i])
  {
    match op {
      case Complete(user, t, _) =>
        FilterKeeps(w.tasks, ShownToUser(user), t);
      case Approve(_, t) =>
        FilterKeeps(w.tasks, AwaitsApproval, t);
      case Reject(_, t) =>
        FilterKeeps(w.tasks, AwaitsApproval, t);
      case _ =>
    }
  }

  /** One offered click keeps every balance at or above zero unless it
      completes a task worth negative points. */
  lemma StepKeepsBalancesNonNegative(w: Workbook, op: Op)
    requires Keyed(w) && Offered(w, op) && NonNegative(w.balances)
    requires op.Complete? ==> op.task.points >= 0
    ensures NonNegative(Apply(w, op).book.balances)
  {
    var after := Apply(w, op).book;
    assert forall u :: u in after.balances ==> after.balances[u] == PointsOf(after.balances, u);
  }

  /** A single step of the lifecycle is one of the changes a run may make. */
  lemma AdvancesEvolves(a: Task, b: Task)
    requires Advances(a, b)
    ensures Evolves(a, b)
  {
  }

  /** One offered click grows the sheets as the app allows. */
  lemma StepGrows(w: Workbook, op: Op)
    requires Keyed(w) && Offered(w, op)
    ensures Grows(w, Apply(w, op).book)
  {
    StepAppendsOnly(w, op);
    StepEvolvesTasks(w, op);
    forall i | 0 <= i < |w.tasks|
      ensures Evolves(w.tasks[i], Apply(w, op).book.tasks[i])
    {
      AdvancesEvolves(w.tasks[i], Apply(w, op).book.tasks[i]);
    }
  }

  lemma GrowsTransitive(a: Workbook, b: Workbook, c: Workbook)
    requires Grows(a, b) && Grows(b, c)
    ensures Grows(a, c)
  {
  }

  /** Over any admissible sequence of clicks, the sheets grow as the app allows:
      earlier History rows and reward rows stay as they were, task rows only
      move along their lifecycle, and IDs stay keyed. */
  lemma {:induction false} RunGrows(w: Workbook, ops: seq<Op>)
    requires Admissible(w, ops)
    ensures Grows(w, Run(w, ops))
    decreases |ops|
  {
    if ops != [] {
      var next := Apply(w, ops[0]).book;
      StepGrows(w, ops[0]);
      RunGrows(next, ops[1..]);
      GrowsTransitive(w, next, Run(w, ops));
    } else {
      assert w.history <= w.history && w.rewards <= w.rewards;
      assert forall i :: 0 <= i < |w.tasks| ==> Evolves(w.tasks[i], w.tasks[i]);
    }
  }

  /** A Completed or Rejected task row stays as it is forever, so a completed
      One-time task never reappears on anyone's list and a rejected request is
      never activated. */
  lemma FinalStatusesStay(w: Workbook, ops: seq<Op>, i: nat, viewer: string)
    requires Admissible(w, ops) && i < |w.tasks|
    requires w.tasks[i].status == COMPLETED || w.tasks[i].status == REJECTED
    ensures i < |Run(w, ops).tasks| && Run(w, ops).tasks[i] == w.tasks[i]
    ensures !ShownTo(viewer, Run(w, ops).tasks[i])
  {
    RunGrows(w, ops);
    assert Evolves(w.tasks[i], Run(w, ops).tasks[i]);
  }

  /** No click changes the Rewards catalog: wishes stay in "Pending Approval",
      so the catalog after any admissible sequence is the catalog before it. */
  lemma CatalogNeverChanges(w: Workbook, ops: seq<Op>)
    requires Admissible(w, ops)
    ensures Catalog(Run(w, ops).rewards) == Catalog(w.rewards)
  {
    var after := Run(w, ops);
    RunGrows(w, ops);
    var added := after.rewards[|w.rewards|..];
    assert after.rewards == w.rewards + added;
    forall i | 0 <= i < |added|
      ensures !InCatalog(added[i])
    {
      assert added[i] == after.rewards[|w.rewards| + i];
    }
    FilterNone(added, InCatalog);
    FilterAppend(w.rewards, added, InCatalog);
  }

  /** Every balance stays at or above zero over any admissible sequence whose
      completed tasks are worth non-negative points: redemption never
      overdraws. */
  lemma {:induction false} BalancesStayNonNegative(w: Workbook, ops: seq<Op>)
    requires Admissible(w, ops) && NonNegative(w.balances)
    requires forall k :: 0 <= k < |ops| && ops[k].Complete? ==> ops[k].task.points >= 0
    ensures NonNegative(Run(w, ops).balances)
    decreases |ops|
  {
    if ops != [] {
      StepKeepsBalancesNonNegative(w, ops[0]);
      assert forall k :: 0 <= k < |ops[1..]| && ops[1..][k].Complete? ==> ops[1..][k].task.points >= 0 by {
        forall k | 0 <= k < |ops[1..]| && ops[1..][k].Complete?
          ensures ops[1..][k].task.points >= 0
        {
          assert ops[1..][k] == ops[k + 1];
        }
      }
      BalancesStayNonNegative(Apply(w, ops[0]).book, ops[1..]);
    }
  }
}

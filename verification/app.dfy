/** The app's sheet access and button handlers, as a class holding the four
    sheets. The sheet helpers append a row or overwrite a cell; each handler
    performs its writes in the app's order, and is proved to leave the sheets
    exactly as the Ledger function for that click describes. */
module App {
  import opened Tables
  import opened Views
  import opened Ledger

  class FamilySheet {
    var tasks: seq<Task>
    var rewards: seq<Reward>
    var balances: map<string, int>
    var history: seq<Entry>

    /** The four sheets as a value. */
    function Book(): Workbook
      reads this
    {
      Workbook(tasks, rewards, balances, history)
    }

    ghost predicate Valid()
      reads this
    {
      Keyed(Book())
    }

    /** Reads all four sheets; the Balances rows become the user-to-points
        dictionary. */
    constructor Load(taskRows: seq<Task>, rewardRows: seq<Reward>, balanceRows: seq<BalanceRow>, historyRows: seq<Entry>)
      requires TaskKeys(taskRows) && RewardKeys(rewardRows)
      ensures Valid()
      ensures Book() == Workbook(taskRows, rewardRows, BalanceMap(balanceRows), historyRows)
    {
      tasks := taskRows;
      rewards := rewardRows;
      balances := BalanceMap(balanceRows);
      history := historyRows;
    }

    /** Appends one row at the end of History. */
    method LogHistory(now: string, user: string, action: string, item: string, delta: int)
      modifies this
      ensures history == old(history) + [Entry(now, user, action, item, delta)]
      ensures tasks == old(tasks) && rewards == old(rewards) && balances == old(balances)
    {
      history := history + [Entry(now, user, action, item, delta)];
    }

    /** Overwrites the user's Points cell; a user without a row is not found
        and nothing is written. */
    method UpdateBalance(user: string, amount: int) returns (found: bool)
      modifies this
      ensures found <==> user in old(balances)
      ensures balances == if found then old(balances)[user := amount] else old(balances)
      ensures tasks == old(tasks) && rewards == old(rewards) && history == old(history)
    {
      found := user in balances;
      if found {
        balances := balances[user := amount];
      }
    }

    /** Appends one row at the end of Tasks. */
    method AddTask(task: Task)
      modifies this
      ensures tasks == old(tasks) + [task]
      ensures rewards == old(rewards) && balances == old(balances) && history == old(history)
    {
      tasks := tasks + [task];
    }

    /** Overwrites the Status cell of the first Tasks row with this ID; an ID
        that no row holds is not found and nothing is written. */
    method UpdateTaskStatus(id: int, status: string) returns (found: bool)
      modifies this
      ensures found <==> FindTaskRow(old(tasks), id).Some?
      ensures tasks == WithStatus(old(tasks), id, status)
      ensures rewards == old(rewards) && balances == old(balances) && history == old(history)
    {
      match FindTaskRow(tasks, id)
      case None =>
        found := false;
      case Some(k) =>
        tasks := tasks[k := tasks[k].(status := status)];
        found := true;
    }

    /** "Done" on task `t` of the user's list. */
    method CompleteTask(user: string, t: Task, now: string) returns (outcome: Outcome)
      requires Valid() && t in VisibleTasks(tasks, user)
      modifies this
      ensures Valid()
      ensures Step(Book(), outcome) == Ledger.CompleteTask(old(Book()), user, t, now)
    {
      var myPoints := PointsOf(balances, user);
      var found := UpdateBalance(user, myPoints + t.points);
      if !found {
        return NotFound;
      }
      LogHistory(now, user, COMPLETED_TASK, t.title, t.points);
      if t.frequency == ONE_TIME {
        found := UpdateTaskStatus(t.id, COMPLETED);
      }
      outcome := Done;
    }

    /** "Redeem" on catalog reward `rw`; the button is disabled when the
        balance does not cover the cost. */
    method RedeemReward(user: string, rw: Reward, now: string) returns (outcome: Outcome)
      requires Valid() && rw in Catalog(rewards)
      modifies this
      ensures Valid()
      ensures Step(Book(), outcome) == Ledger.RedeemReward(old(Book()), user, rw, now)
    {
      var myPoints := PointsOf(balances, user);
      var canAfford := myPoints >= rw.cost;
      if !canAfford {
        return Unaffordable;
      }
      var found := UpdateBalance(user, myPoints - rw.cost);
      if !found {
        return NotFound;
      }
      LogHistory(now, user, REDEEMED_REWARD, rw.title, -rw.cost);
      outcome := Done;
    }

    /** "Submit Task" with the entered name and points. */
    method ProposeTask(title: string, points: int) returns (outcome: Outcome)
      requires Valid() && MIN_TASK_POINTS <= points <= MAX_TASK_POINTS
      modifies this
      ensures Valid()
      ensures Step(Book(), outcome) == Ledger.ProposeTask(old(Book()), title, points)
    {
      var newId := |tasks| + TASK_ID_BASE;
      AddTask(Task(newId, title, points, ANY, ONE_TIME, PENDING));
      outcome := Done;
    }

    /** "Add to Wishlist" with the entered item and cost. */
    method ProposeReward(item: string, cost: int) returns (outcome: Outcome)
      requires Valid() && cost >= MIN_WISH_COST
      modifies this
      ensures Valid()
      ensures Step(Book(), outcome) == Ledger.ProposeReward(old(Book()), item, cost)
    {
      var newId := |rewards| + REWARD_ID_BASE;
      rewards := rewards + [Reward(newId, item, cost, PENDING)];
      outcome := Done;
    }

    /** "Approve" on task request `t`, in the admin tab. */
    method ApproveTask(user: string, t: Task) returns (outcome: Outcome)
      requires Valid() && t in PendingTasks(tasks)
      modifies this
      ensures Valid()
      ensures Step(Book(), outcome) == Ledger.ApproveTask(old(Book()), user, t)
    {
      if !IsAdmin(user) {
        return Forbidden;
      }
      var found := UpdateTaskStatus(t.id, ACTIVE);
      outcome := Done;
    }

    /** "Reject" on task request `t`, in the admin tab. */
    method RejectTask(user: string, t: Task) returns (outcome: Outcome)
      requires Valid() && t in PendingTasks(tasks)
      modifies this
      ensures Valid()
      ensures Step(Book(), outcome) == Ledger.RejectTask(old(Book()), user, t)
    {
      if !IsAdmin(user) {
        return Forbidden;
      }
      var found := UpdateTaskStatus(t.id, REJECTED);
      outcome := Done;
    }

    /** The balance shown at the top, the task list and the catalog the current
        user sees, and, in the admin tab, the requests; only an admin's tab
        lists them, anyone else's is locked. Reading them changes nothing. */
    method Dashboard(user: string) returns (myPoints: int, visible: seq<Task>, catalog: seq<Reward>,
                                            pendingTasks: seq<Task>, pendingRewards: seq<Reward>)
      ensures myPoints == PointsOf(balances, user)
      ensures forall t :: t in visible <==> t in tasks && ShownTo(user, t)
      ensures forall r :: r in catalog <==> r in rewards && r.status == APPROVED
      ensures IsAdmin(user) ==> forall t :: t in pendingTasks <==> t in tasks && t.status == PENDING
      ensures IsAdmin(user) ==> forall r :: r in pendingRewards <==> r in rewards && r.status == PENDING
      ensures !IsAdmin(user) ==> pendingTasks == [] && pendingRewards == []
      ensures IsAdmin(user) ==> pendingTasks == PendingTasks(tasks) && pendingRewards == PendingRewards(rewards)
      ensures visible == VisibleTasks(tasks, user) && catalog == Catalog(rewards)
    {
      myPoints := PointsOf(balances, user);
      visible := VisibleTasks(tasks, user);
      catalog := Catalog(rewards);
      forall t ensures t in visible <==> t in tasks && ShownTo(user, t) {
        FilterKeeps(tasks, ShownToUser(user), t);
      }
      forall r ensures r in catalog <==> r in rewards && r.status == APPROVED {
        FilterKeeps(rewards, InCatalog, r);
      }
      if !IsAdmin(user) {
        return myPoints, visible, catalog, [], [];
      }
      pendingTasks := PendingTasks(tasks);
      pendingRewards := PendingRewards(rewards);
      forall t ensures t in pendingTasks <==> t in tasks && t.status == PENDING {
        FilterKeeps(tasks, AwaitsApproval, t);
      }
      forall r ensures r in pendingRewards <==> r in rewards && r.status == PENDING {
        FilterKeeps(rewards, WishAwaitsApproval, r);
      }
    }
  }
}

/** The lists the app draws buttons for. Each is a filter over a sheet's rows
    that keeps the rows satisfying a condition, in sheet order. */
module Views {
  import opened Tables

  /** The rows of `s` that satisfy `p`, in their original order. */
  function Filter<T>(s: seq<T>, p: T -> bool): (r: seq<T>)
    ensures |r| <= |s|
    ensures forall i :: 0 <= i < |r| ==> p(r[i]) && r[i] in s
  {
    if s == [] then []
    else (if p(s[0]) then [s[0]] else []) + Filter(s[1..], p)
  }

  /** A value is kept exactly when it occurs in the input and satisfies `p`. */
  lemma {:induction false} FilterKeeps<T>(s: seq<T>, p: T -> bool, x: T)
    ensures x in Filter(s, p) <==> x in s && p(x)
  {
    if s != [] {
      FilterKeeps(s[1..], p, x);
      assert s == [s[0]] + s[1..];
    }
  }

  /** Filtering a concatenation filters each part: the kept rows stay in order. */
  lemma {:induction false} FilterAppend<T>(a: seq<T>, b: seq<T>, p: T -> bool)
    ensures Filter(a + b, p) == Filter(a, p) + Filter(b, p)
  {
    if a == [] {
      assert a + b == b;
    } else {
      assert (a + b)[0] == a[0];
      assert (a + b)[1..] == a[1..] + b;
      FilterAppend(a[1..], b, p);
    }
  }

  /** Filtering rows none of which satisfies `p` keeps nothing. */
  lemma {:induction false} FilterNone<T>(s: seq<T>, p: T -> bool)
    requires forall i :: 0 <= i < |s| ==> !p(s[i])
    ensures Filter(s, p) == []
  {
    if s != [] {
      FilterNone(s[1..], p);
    }
  }

  /** The task list condition: Active, and assigned to "Any" or to this user. */
  predicate ShownTo(user: string, t: Task) {
    t.status == ACTIVE && (t.assignee == ANY || t.assignee == user)
  }

  function ShownToUser(user: string): Task -> bool {
    t => ShownTo(user, t)
  }

  /** The "Available Tasks" list of the given user. */
  function VisibleTasks(tasks: seq<Task>, user: string): seq<Task> {
    Filter(tasks, ShownToUser(user))
  }

  predicate InCatalog(r: Reward) {
    r.status == APPROVED
  }

  /** The "Rewards Catalog": the approved rewards. */
  function Catalog(rewards: seq<Reward>): seq<Reward> {
    Filter(rewards, InCatalog)
  }

  predicate AwaitsApproval(t: Task) {
    t.status == PENDING
  }

  /** The admin tab's task requests. */
  function PendingTasks(tasks: seq<Task>): seq<Task> {
    Filter(tasks, AwaitsApproval)
  }

  predicate WishAwaitsApproval(r: Reward) {
    r.status == PENDING
  }

  /** The admin tab's reward requests. */
  function PendingRewards(rewards: seq<Reward>): seq<Reward> {
    Filter(rewards, WishAwaitsApproval)
  }

  /** A task is listed for a user exactly when it is a row of the sheet that is
      Active and assigned to "Any" or to that user; the list keeps sheet order
      (it distributes over the sheet's rows) and a lone row is listed exactly
      when it qualifies. */
  lemma VisibleTasksExactly(tasks: seq<Task>, more: seq<Task>, user: string, t: Task)
    ensures t in VisibleTasks(tasks, user) <==> t in tasks && t.status == ACTIVE && (t.assignee == ANY || t.assignee == user)
    ensures VisibleTasks(tasks + more, user) == VisibleTasks(tasks, user) + VisibleTasks(more, user)
    ensures VisibleTasks([t], user) == if ShownTo(user, t) then [t] else []
  {
    FilterKeeps(tasks, ShownToUser(user), t);
    FilterAppend(tasks, more, ShownToUser(user));
  }

  /** The catalog holds exactly the rewards whose Status is "Approved", in sheet order. */
  lemma CatalogExactly(rewards: seq<Reward>, more: seq<Reward>, r: Reward)
    ensures r in Catalog(rewards) <==> r in rewards && r.status == APPROVED
    ensures Catalog(rewards + more) == Catalog(rewards) + Catalog(more)
  {
    FilterKeeps(rewards, InCatalog, r);
    FilterAppend(rewards, more, InCatalog);
  }

  /** The task requests are exactly the tasks in "Pending Approval", in sheet
      order; none of them is in any user's task list. */
  lemma PendingTasksExactly(tasks: seq<Task>, more: seq<Task>, user: string, t: Task)
    ensures t in PendingTasks(tasks) <==> t in tasks && t.status == PENDING
    ensures PendingTasks(tasks + more) == PendingTasks(tasks) + PendingTasks(more)
    ensures t in PendingTasks(tasks) ==> t !in VisibleTasks(tasks, user)
  {
    FilterKeeps(tasks, AwaitsApproval, t);
    FilterKeeps(tasks, ShownToUser(user), t);
    FilterAppend(tasks, more, AwaitsApproval);
  }

  /** The reward requests are exactly the rewards in "Pending Approval", in
      sheet order; none of them is in the catalog. */
  lemma PendingRewardsExactly(rewards: seq<Reward>, more: seq<Reward>, r: Reward)
    ensures r in PendingRewards(rewards) <==> r in rewards && r.status == PENDING
    ensures PendingRewards(rewards + more) == PendingRewards(rewards) + PendingRewards(more)
    ensures r in PendingRewards(rewards) ==> r !in Catalog(rewards)
  {
    FilterKeeps(rewards, WishAwaitsApproval, r);
    FilterKeeps(rewards, InCatalog, r);
    FilterAppend(rewards, more, WishAwaitsApproval);
  }
}

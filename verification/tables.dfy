/** The family workbook's worksheets as records: one datatype per kind of row,
    the fixed strings the app writes into the sheets, the family roster, and
    the lookups the app performs on the sheets (the balance dictionary built on
    load, and the search of the Tasks sheet's ID column). */
module Tables {

  datatype Option<T> = None | Some(value: T)

  /** A row of the Tasks sheet: ID, Title, Points, Assignee, Frequency, Status. */
  datatype Task = Task(id: int, title: string, points: int, assignee: string, frequency: string, status: string)

  /** A row of the Rewards sheet: ID, Title, Cost, Status. */
  datatype Reward = Reward(id: int, title: string, cost: int, status: string)

  /** A row of the Balances sheet: User, Points. */
  datatype BalanceRow = BalanceRow(user: string, points: int)

  /** A row of the History sheet. The sheet stores the change as the text
      "+N" or "-N"; here it is the signed number itself. */
  datatype Entry = Entry(time: string, user: string, action: string, item: string, delta: int)

  datatype Role = Admin | Member

  /** The fixed family roster; the role only decides access to the admin tab. */
  const FAMILY_MEMBERS: map<string, Role> :=
    map["Prateek" := Admin, "Dipti" := Admin, "Raghav" := Member, "Rhea" := Member]

  // Task statuses
  const ACTIVE := "Active"
  const COMPLETED := "Completed"
  const PENDING := "Pending Approval"
  const REJECTED := "Rejected"
  // Reward status shown in the catalog
  const APPROVED := "Approved"
  // Assignee meaning "everyone", and the frequency that retires a task
  const ANY := "Any"
  const ONE_TIME := "One-time"
  // History actions
  const COMPLETED_TASK := "Completed Task"
  const REDEEMED_REWARD := "Redeemed Reward"
  // Offsets of the IDs given to proposals
  const TASK_ID_BASE := 100
  const REWARD_ID_BASE := 200
  // Bounds of the proposal input widgets
  const MIN_TASK_POINTS := 5
  const MAX_TASK_POINTS := 500
  const MIN_WISH_COST := 10

  predicate IsAdmin(user: string) {
    user in FAMILY_MEMBERS && FAMILY_MEMBERS[user] == Admin
  }

  /** The balance the app shows and spends from: a user without a row reads as 0. */
  function PointsOf(balances: map<string, int>, user: string): int {
    if user in balances then balances[user] else 0
  }

  /** The balance dictionary built when the sheets are loaded: one key per user
      that has a row; when a user has several rows the later one wins. */
  function BalanceMap(rows: seq<BalanceRow>): (m: map<string, int>)
    ensures m.Keys == set r | r in rows :: r.user
  {
    if rows == [] then map[]
    else
      var init, last := rows[..|rows| - 1], rows[|rows| - 1];
      assert rows == init + [last];
      BalanceMap(init)[last.user := last.points]
  }

  /** Each user's loaded balance is the Points of that user's last row; with
      one row per user it is simply that row's Points. */
  lemma {:induction false} BalanceMapLookup(rows: seq<BalanceRow>, i: nat)
    requires i < |rows|
    requires forall j :: i < j < |rows| ==> rows[j].user != rows[i].user
    ensures rows[i].user in BalanceMap(rows)
    ensures BalanceMap(rows)[rows[i].user] == rows[i].points
  {
    if i < |rows| - 1 {
      var init := rows[..|rows| - 1];
      assert init[i] == rows[i];
      BalanceMapLookup(init, i);
    }
  }

  /** The first row of the Tasks sheet whose ID column holds `id`, as the
      sheet's search restricted to column 1 finds it. */
  function FindTaskRow(tasks: seq<Task>, id: int): (k: Option<nat>)
    ensures k.Some? ==> k.value < |tasks| && tasks[k.value].id == id
    ensures k.Some? ==> forall j :: 0 <= j < k.value ==> tasks[j].id != id
    ensures k.None? ==> forall j :: 0 <= j < |tasks| ==> tasks[j].id != id
  {
    if tasks == [] then None
    else if tasks[0].id == id then Some(0)
    else match FindTaskRow(tasks[1..], id)
      case None => None
      case Some(k) => Some(k + 1)
  }

  /** The Tasks sheet after the Status cell of the row with ID `id` is
      overwritten; a missing ID leaves the sheet as it was. */
  function WithStatus(tasks: seq<Task>, id: int, status: string): seq<Task> {
    match FindTaskRow(tasks, id)
    case None => tasks
    case Some(k) => tasks[k := tasks[k].(status := status)]
  }

  /** Every task ID is used once and lies below the ID the next proposal gets. */
  ghost predicate TaskKeys(tasks: seq<Task>) {
    && (forall i, j :: 0 <= i < j < |tasks| ==> tasks[i].id != tasks[j].id)
    && (forall i :: 0 <= i < |tasks| ==> tasks[i].id < TASK_ID_BASE + |tasks|)
  }

  /** Every reward ID is used once and lies below the ID the next wish gets. */
  ghost predicate RewardKeys(rewards: seq<Reward>) {
    && (forall i, j :: 0 <= i < j < |rewards| ==> rewards[i].id != rewards[j].id)
    && (forall i :: 0 <= i < |rewards| ==> rewards[i].id < REWARD_ID_BASE + |rewards|)
  }

  /** With unique IDs, updating the status by the ID of a row changes that row's
      Status and nothing else in the sheet. */
  lemma WithStatusChangesOnlyThatRow(tasks: seq<Task>, t: Task, status: string)
    requires TaskKeys(tasks) && t in tasks
    ensures |WithStatus(tasks, t.id, status)| == |tasks|
    ensures forall j :: 0 <= j < |tasks| ==>
      WithStatus(tasks, t.id, status)[j] == if tasks[j] == t then t.(status := status) else tasks[j]
  {
  }
}

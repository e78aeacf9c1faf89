/** The server's career-planner actions: ownership-scoped create, read and
    update over three tables (goals, their milestones, the milestones' tasks),
    free-tier quota gates at creation, and the completion-instant rule of the
    status setters. The database is a `PlannerServer` object whose fields are
    the three tables; the acting user, the clock, the pro check and the
    free-tier limits are parameters. */
module CareerPlanner {
  import opened Wrappers
  import opened Seqs
  import opened Text
  import opened Types

  /** The free tier's ceilings. */
  datatype Limits = Limits(maxActiveGoals: nat, maxMilestones: nat, maxTasks: nat)

  /** Why an action fails: its input fails validation, the row it names is not
      the caller's, or a quota is exhausted and the caller is not on the pro plan. */
  datatype Failure = ValidationError(message: string) | NotFound(message: string) | ProRequired

  /** The verdict of a quota gate. */
  datatype Gate = Allow | Deny

  // ---------------------------------------------------------------------
  // Row selectors

  function ActiveGoalOf(userId: UserId): Goal -> bool {
    (g: Goal) => g.userId == userId && g.status == Active
  }

  function GoalOf(userId: UserId): Goal -> bool {
    (g: Goal) => g.userId == userId
  }

  function MilestoneOf(userId: UserId): Milestone -> bool {
    (m: Milestone) => m.userId == userId
  }

  function TaskOf(userId: UserId): Task -> bool {
    (t: Task) => t.userId == userId
  }

  function OwnedGoal(id: int, userId: UserId): Goal -> bool {
    (g: Goal) => g.id == id && g.userId == userId
  }

  function OwnedMilestone(id: int, userId: UserId): Milestone -> bool {
    (m: Milestone) => m.id == id && m.userId == userId
  }

  function OwnedTask(id: int, userId: UserId): Task -> bool {
    (t: Task) => t.id == id && t.userId == userId
  }

  function MilestoneUnder(goalId: int, userId: UserId): Milestone -> bool {
    (m: Milestone) => m.goalId == goalId && m.userId == userId
  }

  function TaskUnder(milestoneId: int, userId: UserId): Task -> bool {
    (t: Task) => t.milestoneId == milestoneId && t.userId == userId
  }

  // ---------------------------------------------------------------------
  // Quota gates

  /** The number of the user's goals whose status is active; zero exactly
      when the user has no active goal. */
  function ActiveGoalCount(goals: seq<Goal>, userId: UserId): (n: nat)
    ensures n == 0 <==> forall i :: 0 <= i < |goals| ==> !(goals[i].userId == userId && goals[i].status == Active)
  {
    CountNone(goals, ActiveGoalOf(userId));
    Count(goals, ActiveGoalOf(userId))
  }

  /** The number of the user's milestones, whatever their status. */
  function MilestoneCount(milestones: seq<Milestone>, userId: UserId): (n: nat)
    ensures n == 0 <==> forall i :: 0 <= i < |milestones| ==> milestones[i].userId != userId
  {
    CountNone(milestones, MilestoneOf(userId));
    Count(milestones, MilestoneOf(userId))
  }

  /** The number of the user's tasks, whatever their status. */
  function TaskCount(tasks: seq<Task>, userId: UserId): (n: nat)
    ensures n == 0 <==> forall i :: 0 <= i < |tasks| ==> tasks[i].userId != userId
  {
    CountNone(tasks, TaskOf(userId));
    Count(tasks, TaskOf(userId))
  }

  /** `enforceActiveGoalLimit`: below the ceiling creation is allowed without
      asking; at or above it only a pro user may go on. */
  function EnforceActiveGoalLimit(goals: seq<Goal>, userId: UserId, limits: Limits, isPro: bool): (r: Gate)
    ensures ActiveGoalCount(goals, userId) < limits.maxActiveGoals ==> r == Allow
    ensures r == Deny <==> ActiveGoalCount(goals, userId) >= limits.maxActiveGoals && !isPro
  {
    if ActiveGoalCount(goals, userId) >= limits.maxActiveGoals && !isPro then Deny else Allow
  }

  /** `enforceMilestoneLimit`: counts all of the user's milestones. */
  function EnforceMilestoneLimit(milestones: seq<Milestone>, userId: UserId, limits: Limits, isPro: bool): (r: Gate)
    ensures MilestoneCount(milestones, userId) < limits.maxMilestones ==> r == Allow
    ensures r == Deny <==> MilestoneCount(milestones, userId) >= limits.maxMilestones && !isPro
  {
    if MilestoneCount(milestones, userId) >= limits.maxMilestones && !isPro then Deny else Allow
  }

  /** `enforceTaskLimit`: counts all of the user's tasks. */
  function EnforceTaskLimit(tasks: seq<Task>, userId: UserId, limits: Limits, isPro: bool): (r: Gate)
    ensures TaskCount(tasks, userId) < limits.maxTasks ==> r == Allow
    ensures r == Deny <==> TaskCount(tasks, userId) >= limits.maxTasks && !isPro
  {
    if TaskCount(tasks, userId) >= limits.maxTasks && !isPro then Deny else Allow
  }

  /** Adding a goal raises the user's active count by one exactly when the
      goal is the user's and active; other users' and archived goals never count. */
  lemma ActiveGoalCountAppend(goals: seq<Goal>, g: Goal, userId: UserId)
    ensures ActiveGoalCount(goals + [g], userId)
         == ActiveGoalCount(goals, userId) + (if g.userId == userId && g.status == Active then 1 else 0)
  {
    FilterAppend(goals, [g], ActiveGoalOf(userId));
  }

  /** Archiving the user's active goal frees one unit of the active-goal quota;
      archiving any other row leaves every user's active count as it was. */
  lemma ActiveGoalCountArchive(goals: seq<Goal>, i: nat, now: Instant, userId: UserId)
    requires i < |goals|
    ensures var archived := goals[i].(status := Archived, updatedAt := now);
      ActiveGoalCount(goals[i := archived], userId)
      == ActiveGoalCount(goals, userId) - (if goals[i].userId == userId && goals[i].status == Active then 1 else 0)
  {
    CountUpdate(goals, i, goals[i].(status := Archived, updatedAt := now), ActiveGoalOf(userId));
  }

  /** Adding a milestone raises the user's milestone count by one exactly
      when it is the user's, whatever its status. */
  lemma MilestoneCountAppend(milestones: seq<Milestone>, m: Milestone, userId: UserId)
    ensures MilestoneCount(milestones + [m], userId)
         == MilestoneCount(milestones, userId) + (if m.userId == userId then 1 else 0)
  {
    FilterAppend(milestones, [m], MilestoneOf(userId));
  }

  /** Adding a task raises the user's task count by one exactly when it is
      the user's, whatever its status. */
  lemma TaskCountAppend(tasks: seq<Task>, t: Task, userId: UserId)
    ensures TaskCount(tasks + [t], userId) == TaskCount(tasks, userId) + (if t.userId == userId then 1 else 0)
  {
    FilterAppend(tasks, [t], TaskOf(userId));
  }

  /** Rewriting a milestone row without changing its owner leaves every
      user's milestone count, and so the milestone quota, unchanged. */
  lemma MilestoneCountRewrite(milestones: seq<Milestone>, i: nat, m: Milestone, userId: UserId)
    requires i < |milestones| && m.userId == milestones[i].userId
    ensures MilestoneCount(milestones[i := m], userId) == MilestoneCount(milestones, userId)
  {
    CountUpdate(milestones, i, m, MilestoneOf(userId));
  }

  /** The same for task rows and the task quota. */
  lemma TaskCountRewrite(tasks: seq<Task>, i: nat, t: Task, userId: UserId)
    requires i < |tasks| && t.userId == tasks[i].userId
    ensures TaskCount(tasks[i := t], userId) == TaskCount(tasks, userId)
  {
    CountUpdate(tasks, i, t, TaskOf(userId));
  }

  // ---------------------------------------------------------------------
  // Ownership-scoped lookups (`where id = ... and userId = ...`)

  function GoalIndex(goals: seq<Goal>, id: int, userId: UserId): (r: Option<nat>)
    ensures r.Some? ==> r.value < |goals| && goals[r.value].id == id && goals[r.value].userId == userId
    ensures r.None? <==> forall j :: 0 <= j < |goals| ==> !(goals[j].id == id && goals[j].userId == userId)
  {
    FindIndex(goals, OwnedGoal(id, userId))
  }

  function MilestoneIndex(milestones: seq<Milestone>, id: int, userId: UserId): (r: Option<nat>)
    ensures r.Some? ==> r.value < |milestones| && milestones[r.value].id == id && milestones[r.value].userId == userId
    ensures r.None? <==> forall j :: 0 <= j < |milestones| ==> !(milestones[j].id == id && milestones[j].userId == userId)
  {
    FindIndex(milestones, OwnedMilestone(id, userId))
  }

  function TaskIndex(tasks: seq<Task>, id: int, userId: UserId): (r: Option<nat>)
    ensures r.Some? ==> r.value < |tasks| && tasks[r.value].id == id && tasks[r.value].userId == userId
    ensures r.None? <==> forall j :: 0 <= j < |tasks| ==> !(tasks[j].id == id && tasks[j].userId == userId)
  {
    FindIndex(tasks, OwnedTask(id, userId))
  }

  /** `getGoal`: the caller's goal with this id, or NOT_FOUND. */
  function GetGoal(goals: seq<Goal>, id: int, userId: UserId): (r: Result<Goal, Failure>)
    ensures r.Ok? ==> r.value in goals && r.value.id == id && r.value.userId == userId
    ensures r.Err? ==> r.error == NotFound("Goal not found.")
    ensures r.Err? <==> forall g :: g in goals ==> !(g.id == id && g.userId == userId)
  {
    match GoalIndex(goals, id, userId)
    case Some(i) => Ok(goals[i])
    case None => Err(NotFound("Goal not found."))
  }

  // ---------------------------------------------------------------------
  // Ordered lists: `orderBy(desc(updatedAt), desc(createdAt), desc(id))`

  datatype RowKey = RowKey(updatedAt: Instant, createdAt: Instant, id: int)

  /** The sort columns of a row, in `orderBy` order. */
  function KeyColumns(k: RowKey): seq<int> { [k.updatedAt, k.createdAt, k.id] }

  /** `a` sorts no later than `b`: lexicographically greater or equal. */
  predicate KeyGe(a: RowKey, b: RowKey)
    ensures KeyGe(a, b) <==> LexGe(KeyColumns(a), KeyColumns(b))
  {
    assert LexGe([a.id], [b.id]) <==> a.id >= b.id by {
      assert [a.id][1..] == [];
    }
    assert LexGe([a.createdAt, a.id], [b.createdAt, b.id])
           <==> a.createdAt > b.createdAt || (a.createdAt == b.createdAt && a.id >= b.id) by {
      assert [a.createdAt, a.id][1..] == [a.id] && [b.createdAt, b.id][1..] == [b.id];
    }
    assert KeyColumns(a)[1..] == [a.createdAt, a.id] && KeyColumns(b)[1..] == [b.createdAt, b.id];
    || a.updatedAt > b.updatedAt
    || (a.updatedAt == b.updatedAt && a.createdAt > b.createdAt)
    || (a.updatedAt == b.updatedAt && a.createdAt == b.createdAt && a.id >= b.id)
  }

  function GoalKey(g: Goal): RowKey { RowKey(g.updatedAt, g.createdAt, g.id) }
  function MilestoneKey(m: Milestone): RowKey { RowKey(m.updatedAt, m.createdAt, m.id) }
  function TaskKey(t: Task): RowKey { RowKey(t.updatedAt, t.createdAt, t.id) }

  /** The comparator of the lists: newest first. */
  function NewerBy<T(!new)>(key: T -> RowKey): (r: (T, T) -> bool)
    ensures forall x, y :: r(x, y) <==> LexGe(KeyColumns(key(x)), KeyColumns(key(y)))
  {
    (a, b) => KeyGe(key(a), key(b))
  }

  lemma NewerByTotalPreorder<T(!new)>(key: T -> RowKey)
    ensures TotalPreorder(NewerBy(key))
  {
  }

  lemma KeyGeAntisymmetric(a: RowKey, b: RowKey)
    requires KeyGe(a, b) && KeyGe(b, a)
    ensures a == b
  {
  }

  /** In a table with unique ids, a row is identified by its id. */
  lemma UniqueIdsIdentify<T>(rows: seq<T>, key: T -> RowKey, x: T, y: T)
    requires forall i, j :: 0 <= i < j < |rows| ==> key(rows[i]).id != key(rows[j]).id
    requires x in rows && y in rows && key(x).id == key(y).id
    ensures x == y
  {
    var i :| 0 <= i < |rows| && rows[i] == x;
    var j :| 0 <= j < |rows| && rows[j] == y;
  }

  /** The rows that `keep` selects, newest first. */
  function ListBy<T(!new)>(rows: seq<T>, keep: T -> bool, key: T -> RowKey): (r: seq<T>)
    ensures multiset(r) == multiset(Filter(rows, keep))
    ensures forall x :: x in r <==> x in rows && keep(x)
    ensures Sorted(r, NewerBy(key))
  {
    var selected := Filter(rows, keep);
    NewerByTotalPreorder(key);
    SortBySorted(selected, NewerBy(key));
    assert forall x :: x in SortBy(selected, NewerBy(key)) <==> x in multiset(selected);
    SortBy(selected, NewerBy(key))
  }

  /** Because the id breaks every tie, a table with unique ids has exactly one
      list in this order: any newest-first arrangement of the selected rows is
      the one `ListBy` gives. */
  lemma ListByDeterministic<T(!new)>(rows: seq<T>, keep: T -> bool, key: T -> RowKey, r: seq<T>)
    requires forall i, j :: 0 <= i < j < |rows| ==> key(rows[i]).id != key(rows[j]).id
    requires multiset(r) == multiset(Filter(rows, keep))
    requires Sorted(r, NewerBy(key))
    ensures r == ListBy(rows, keep, key)
  {
    var l := ListBy(rows, keep, key);
    forall x, y | x in r && y in r && NewerBy(key)(x, y) && NewerBy(key)(y, x) ensures x == y {
      assert x in multiset(Filter(rows, keep)) && y in multiset(Filter(rows, keep));
      KeyGeAntisymmetric(key(x), key(y));
      UniqueIdsIdentify(rows, key, x, y);
    }
    SortedPermutationsEqual(r, l, NewerBy(key));
  }

  /** `listGoals`: exactly the caller's goals, newest first. */
  function ListGoals(goals: seq<Goal>, userId: UserId): (r: seq<Goal>)
    ensures forall g :: g in r <==> g in goals && g.userId == userId
    ensures multiset(r) == multiset(Filter(goals, GoalOf(userId)))
    ensures forall i, j :: 0 <= i < j < |r| ==> KeyGe(GoalKey(r[i]), GoalKey(r[j]))
  {
    ListBy(goals, GoalOf(userId), GoalKey)
  }

  /** `listMilestonesByGoal`: exactly the caller's milestones of that goal, newest first. */
  function ListMilestonesByGoal(milestones: seq<Milestone>, goalId: int, userId: UserId): (r: seq<Milestone>)
    ensures forall m :: m in r <==> m in milestones && m.goalId == goalId && m.userId == userId
    ensures multiset(r) == multiset(Filter(milestones, MilestoneUnder(goalId, userId)))
    ensures forall i, j :: 0 <= i < j < |r| ==> KeyGe(MilestoneKey(r[i]), MilestoneKey(r[j]))
  {
    ListBy(milestones, MilestoneUnder(goalId, userId), MilestoneKey)
  }

  /** `listTasksByMilestone`: exactly the caller's tasks of that milestone, newest first. */
  function ListTasksByMilestone(tasks: seq<Task>, milestoneId: int, userId: UserId): (r: seq<Task>)
    ensures forall t :: t in r <==> t in tasks && t.milestoneId == milestoneId && t.userId == userId
    ensures multiset(r) == multiset(Filter(tasks, TaskUnder(milestoneId, userId)))
    ensures forall i, j :: 0 <= i < j < |r| ==> KeyGe(TaskKey(r[i]), TaskKey(r[j]))
  {
    ListBy(tasks, TaskUnder(milestoneId, userId), TaskKey)
  }

  // ---------------------------------------------------------------------
  // The checks a creation runs before it inserts, in the order it runs them

  /** Why `createGoal` refuses, if it does: an empty title, then the active-goal quota. */
  function CreateGoalFailure(goals: seq<Goal>, userId: UserId, input: GoalInput, limits: Limits, isPro: bool)
    : (f: Option<Failure>)
    ensures input.title == [] ==> f == Some(ValidationError("Goal title is required."))
    ensures input.title != [] && EnforceActiveGoalLimit(goals, userId, limits, isPro) == Deny ==> f == Some(ProRequired)
    ensures f.None? <==> input.title != [] && EnforceActiveGoalLimit(goals, userId, limits, isPro) == Allow
  {
    if input.title == [] then Some(ValidationError("Goal title is required."))
    else if EnforceActiveGoalLimit(goals, userId, limits, isPro) == Deny then Some(ProRequired)
    else None
  }

  /** Why `createMilestone` refuses, if it does: an empty title, then a goal
      that is not the caller's, and only then the milestone quota. */
  function CreateMilestoneFailure(goals: seq<Goal>, milestones: seq<Milestone>, userId: UserId,
                                  input: MilestoneInput, limits: Limits, isPro: bool): (f: Option<Failure>)
    ensures input.title == [] ==> f == Some(ValidationError("Milestone title is required."))
    ensures input.title != [] && GoalIndex(goals, input.goalId, userId).None? ==> f == Some(NotFound("Goal not found."))
    ensures (&& input.title != [] && GoalIndex(goals, input.goalId, userId).Some?
             && EnforceMilestoneLimit(milestones, userId, limits, isPro) == Deny) ==> f == Some(ProRequired)
    ensures f.None? <==> && input.title != [] && GoalIndex(goals, input.goalId, userId).Some?
                         && EnforceMilestoneLimit(milestones, userId, limits, isPro) == Allow
  {
    if input.title == [] then Some(ValidationError("Milestone title is required."))
    else if GoalIndex(goals, input.goalId, userId).None? then Some(NotFound("Goal not found."))
    else if EnforceMilestoneLimit(milestones, userId, limits, isPro) == Deny then Some(ProRequired)
    else None
  }

  /** Why `createTask` refuses, if it does: an empty title, then a milestone
      that is not the caller's, and only then the task quota. */
  function CreateTaskFailure(milestones: seq<Milestone>, tasks: seq<Task>, userId: UserId,
                             input: TaskInput, limits: Limits, isPro: bool): (f: Option<Failure>)
    ensures input.title == [] ==> f == Some(ValidationError("Task title is required."))
    ensures input.title != [] && MilestoneIndex(milestones, input.milestoneId, userId).None? ==> f == Some(NotFound("Milestone not found."))
    ensures (&& input.title != [] && MilestoneIndex(milestones, input.milestoneId, userId).Some?
             && EnforceTaskLimit(tasks, userId, limits, isPro) == Deny) ==> f == Some(ProRequired)
    ensures f.None? <==> && input.title != [] && MilestoneIndex(milestones, input.milestoneId, userId).Some?
                         && EnforceTaskLimit(tasks, userId, limits, isPro) == Allow
  {
    if input.title == [] then Some(ValidationError("Task title is required."))
    else if MilestoneIndex(milestones, input.milestoneId, userId).None? then Some(NotFound("Milestone not found."))
    else if EnforceTaskLimit(tasks, userId, limits, isPro) == Deny then Some(ProRequired)
    else None
  }

  // ---------------------------------------------------------------------
  // Row rewrites and notices

  /** The `set` of `updateGoal`: the form fields and `updatedAt`, nothing else. */
  function GoalUpdated(g: Goal, input: GoalUpdateInput, now: Instant): (r: Goal)
    ensures r.id == g.id && r.userId == g.userId && r.status == g.status && r.createdAt == g.createdAt
    ensures r.title == input.title && r.targetRole == input.targetRole && r.notes == input.notes
    ensures r.updatedAt == now
  {
    g.(title := input.title, targetRole := input.targetRole, notes := input.notes, updatedAt := now)
  }

  /** The `set` of `updateMilestone`: status and completion instant are never touched. */
  function MilestoneUpdated(m: Milestone, input: MilestoneUpdateInput, now: Instant): (r: Milestone)
    ensures r.id == m.id && r.userId == m.userId && r.goalId == m.goalId && r.createdAt == m.createdAt
    ensures r.status == m.status && r.completedAt == m.completedAt
    ensures r.title == input.title && r.description == input.description && r.targetDate == input.targetDate
    ensures r.updatedAt == now
  {
    m.(title := input.title, description := input.description, targetDate := input.targetDate, updatedAt := now)
  }

  /** The `set` of `updateTask`: status and completion instant are never touched. */
  function TaskUpdated(t: Task, input: TaskUpdateInput, now: Instant): (r: Task)
    ensures r.id == t.id && r.userId == t.userId && r.milestoneId == t.milestoneId && r.createdAt == t.createdAt
    ensures r.status == t.status && r.completedAt == t.completedAt
    ensures r.title == input.title && r.notes == input.notes && r.dueDate == input.dueDate
    ensures r.updatedAt == now
  {
    t.(title := input.title, notes := input.notes, dueDate := input.dueDate, updatedAt := now)
  }

  /** The completion instant a status setter stores: now for done, cleared otherwise. */
  function CompletedAtFor(status: WorkStatus, now: Instant): (r: Option<Instant>)
    ensures r.Some? <==> status == Done
    ensures r.Some? ==> r.value == now
  {
    if status == Done then Some(now) else None
  }

  /** The `set` of `setMilestoneStatus`. */
  function MilestoneWithStatus(m: Milestone, status: WorkStatus, now: Instant): (r: Milestone)
    ensures r.status == status && r.updatedAt == now
    ensures r.completedAt.Some? <==> status == Done
    ensures status == Done ==> r.completedAt == Some(now)
    ensures r.id == m.id && r.userId == m.userId && r.goalId == m.goalId
    ensures r.(status := m.status, completedAt := m.completedAt, updatedAt := m.updatedAt) == m
  {
    m.(status := status, completedAt := CompletedAtFor(status, now), updatedAt := now)
  }

  /** The `set` of `setTaskStatus`. */
  function TaskWithStatus(t: Task, status: WorkStatus, now: Instant): (r: Task)
    ensures r.status == status && r.updatedAt == now
    ensures r.completedAt.Some? <==> status == Done
    ensures status == Done ==> r.completedAt == Some(now)
    ensures r.id == t.id && r.userId == t.userId && r.milestoneId == t.milestoneId
    ensures r.(status := t.status, completedAt := t.completedAt, updatedAt := t.updatedAt) == t
  {
    t.(status := status, completedAt := CompletedAtFor(status, now), updatedAt := now)
  }

  /** The page of a goal, `/goals/<id>`. */
  function GoalUrl(goalId: int): (url: string)
    ensures |url| > 7 && url[..7] == "/goals/" && ParseInt(url[7..]) == Some(goalId)
  {
    ParseIntToString(goalId);
    var url := "/goals/" + IntToString(goalId);
    assert url[7..] == IntToString(goalId);
    url
  }

  /** Different goals have different pages. */
  lemma GoalUrlInjective(a: int, b: int)
    requires GoalUrl(a) == GoalUrl(b)
    ensures a == b
  {
    assert GoalUrl(a)[7..] == GoalUrl(b)[7..];
  }

  /** The notice of `archiveGoal`. */
  function ArchiveNotice(g: Goal): (n: Notice)
    ensures n.eventType == "career_goal_archived"
    ensures n.title == "Goal archived: " + g.title
    ensures n.url == GoalUrl(g.id)
  {
    Notice("career_goal_archived", "Goal archived: " + g.title, GoalUrl(g.id))
  }

  /** The notice of `setMilestoneStatus`: present exactly when the new status is done. */
  function CompletionNotice(m: Milestone, status: WorkStatus): (n: Option<Notice>)
    ensures n.Some? <==> status == Done
    ensures n.Some? ==> n.value == Notice("career_milestone_completed", "Milestone completed: " + m.title, GoalUrl(m.goalId))
  {
    if status == Done then Some(Notice("career_milestone_completed", "Milestone completed: " + m.title, GoalUrl(m.goalId)))
    else None
  }

  // ---------------------------------------------------------------------
  // Table invariants

  /** Ids are positive, below the next id to be handed out, and unique. */
  ghost predicate IdsIssued<T>(rows: seq<T>, key: T -> RowKey, next: int) {
    && 1 <= next
    && (forall i :: 0 <= i < |rows| ==> 1 <= key(rows[i]).id < next)
    && (forall i, j :: 0 <= i < j < |rows| ==> key(rows[i]).id != key(rows[j]).id)
  }

  lemma IdsIssuedAppend<T>(rows: seq<T>, key: T -> RowKey, next: int, x: T)
    requires IdsIssued(rows, key, next) && 1 <= key(x).id == next
    ensures IdsIssued(rows + [x], key, next + 1)
  {
    var after := rows + [x];
    assert forall i :: 0 <= i < |rows| ==> after[i] == rows[i];
  }

  lemma IdsIssuedRewrite<T>(rows: seq<T>, key: T -> RowKey, next: int, i: nat, x: T)
    requires IdsIssued(rows, key, next) && i < |rows| && key(x).id == key(rows[i]).id
    ensures IdsIssued(rows[i := x], key, next)
  {
    var after := rows[i := x];
    assert forall j :: 0 <= j < |rows| ==> key(after[j]).id == key(rows[j]).id;
  }

  /** Every milestone hangs under a goal of the same owner. */
  ghost predicate MilestoneParentsOwned(milestones: seq<Milestone>, goals: seq<Goal>) {
    forall i :: 0 <= i < |milestones| ==> GoalIndex(goals, milestones[i].goalId, milestones[i].userId).Some?
  }

  /** Every task hangs under a milestone of the same owner. */
  ghost predicate TaskParentsOwned(tasks: seq<Task>, milestones: seq<Milestone>) {
    forall i :: 0 <= i < |tasks| ==> MilestoneIndex(milestones, tasks[i].milestoneId, tasks[i].userId).Some?
  }

  /** A milestone carries a completion instant exactly when it is done. */
  ghost predicate MilestonesCompletionConsistent(milestones: seq<Milestone>) {
    forall i :: 0 <= i < |milestones| ==> (milestones[i].completedAt.Some? <==> milestones[i].status == Done)
  }

  /** A task carries a completion instant exactly when it is done. */
  ghost predicate TasksCompletionConsistent(tasks: seq<Task>) {
    forall i :: 0 <= i < |tasks| ==> (tasks[i].completedAt.Some? <==> tasks[i].status == Done)
  }

  /** Rewriting rows without changing their ids or owners keeps every
      ownership lookup where it was. */
  lemma GoalIndexRewrite(goals: seq<Goal>, i: nat, g: Goal, id: int, userId: UserId)
    requires i < |goals| && g.id == goals[i].id && g.userId == goals[i].userId
    ensures GoalIndex(goals[i := g], id, userId) == GoalIndex(goals, id, userId)
  {
    var after := goals[i := g];
    var r, r' := GoalIndex(goals, id, userId), GoalIndex(after, id, userId);
    assert forall j :: 0 <= j < |goals| ==> after[j].id == goals[j].id && after[j].userId == goals[j].userId;
  }

  lemma MilestoneIndexRewrite(milestones: seq<Milestone>, i: nat, m: Milestone, id: int, userId: UserId)
    requires i < |milestones| && m.id == milestones[i].id && m.userId == milestones[i].userId
    ensures MilestoneIndex(milestones[i := m], id, userId) == MilestoneIndex(milestones, id, userId)
  {
    var after := milestones[i := m];
    var r, r' := MilestoneIndex(milestones, id, userId), MilestoneIndex(after, id, userId);
    assert forall j :: 0 <= j < |milestones| ==> after[j].id == milestones[j].id && after[j].userId == milestones[j].userId;
  }

  /** Appending a row never hides one that an ownership lookup already finds. */
  lemma GoalIndexAppend(goals: seq<Goal>, g: Goal, id: int, userId: UserId)
    requires GoalIndex(goals, id, userId).Some?
    ensures GoalIndex(goals + [g], id, userId).Some?
  {
    var k := GoalIndex(goals, id, userId).value;
    assert (goals + [g])[k] == goals[k];
  }

  lemma MilestoneIndexAppend(milestones: seq<Milestone>, m: Milestone, id: int, userId: UserId)
    requires MilestoneIndex(milestones, id, userId).Some?
    ensures MilestoneIndex(milestones + [m], id, userId).Some?
  {
    var k := MilestoneIndex(milestones, id, userId).value;
    assert (milestones + [m])[k] == milestones[k];
  }

  /** A new milestone under an owned goal, created todo, keeps the
      milestone invariants and the tasks' parent links. */
  lemma MilestoneAppendValid(milestones: seq<Milestone>, goals: seq<Goal>, tasks: seq<Task>, m: Milestone)
    requires MilestoneParentsOwned(milestones, goals) && MilestonesCompletionConsistent(milestones)
    requires TaskParentsOwned(tasks, milestones)
    requires GoalIndex(goals, m.goalId, m.userId).Some?
    requires m.completedAt.Some? <==> m.status == Done
    ensures MilestoneParentsOwned(milestones + [m], goals) && MilestonesCompletionConsistent(milestones + [m])
    ensures TaskParentsOwned(tasks, milestones + [m])
  {
    var after := milestones + [m];
    assert forall i :: 0 <= i < |milestones| ==> after[i] == milestones[i];
    forall i | 0 <= i < |tasks| ensures MilestoneIndex(after, tasks[i].milestoneId, tasks[i].userId).Some? {
      MilestoneIndexAppend(milestones, m, tasks[i].milestoneId, tasks[i].userId);
    }
  }

  /** A new task under an owned milestone, created todo, keeps the task invariants. */
  lemma TaskAppendValid(tasks: seq<Task>, milestones: seq<Milestone>, t: Task)
    requires TaskParentsOwned(tasks, milestones) && TasksCompletionConsistent(tasks)
    requires MilestoneIndex(milestones, t.milestoneId, t.userId).Some?
    requires t.completedAt.Some? <==> t.status == Done
    ensures TaskParentsOwned(tasks + [t], milestones) && TasksCompletionConsistent(tasks + [t])
  {
    var after := tasks + [t];
    assert forall i :: 0 <= i < |tasks| ==> after[i] == tasks[i];
  }

  /** Rewriting a task without moving it keeps the task invariants. */
  lemma TaskRewriteValid(tasks: seq<Task>, milestones: seq<Milestone>, i: nat, t: Task)
    requires TaskParentsOwned(tasks, milestones) && TasksCompletionConsistent(tasks)
    requires i < |tasks| && t.milestoneId == tasks[i].milestoneId && t.userId == tasks[i].userId
    requires t.completedAt.Some? <==> t.status == Done
    ensures TaskParentsOwned(tasks[i := t], milestones) && TasksCompletionConsistent(tasks[i := t])
  {
    var after := tasks[i := t];
    assert forall j :: 0 <= j < |tasks| && j != i ==> after[j] == tasks[j];
  }

  /** The three tables and the next id of each, as one value. */
  datatype Tables = Tables(
    goals: seq<Goal>,
    milestones: seq<Milestone>,
    tasks: seq<Task>,
    nextGoalId: int,
    nextMilestoneId: int,
    nextTaskId: int)

  /** Unique issued ids, owned parents and consistent completion instants in all three tables. */
  ghost predicate TablesValid(t: Tables) {
    && IdsIssued(t.goals, GoalKey, t.nextGoalId)
    && IdsIssued(t.milestones, MilestoneKey, t.nextMilestoneId)
    && IdsIssued(t.tasks, TaskKey, t.nextTaskId)
    && MilestoneParentsOwned(t.milestones, t.goals)
    && TaskParentsOwned(t.tasks, t.milestones)
    && MilestonesCompletionConsistent(t.milestones)
    && TasksCompletionConsistent(t.tasks)
  }

  /** Inserting a fresh todo task under an owned milestone keeps the tables valid. */
  lemma TablesTaskAppend(t: Tables, task: Task)
    requires TablesValid(t)
    requires task.id == t.nextTaskId && task.status == Todo && task.completedAt == None
    requires MilestoneIndex(t.milestones, task.milestoneId, task.userId).Some?
    ensures TablesValid(t.(tasks := t.tasks + [task], nextTaskId := t.nextTaskId + 1))
  {
    IdsIssuedAppend(t.tasks, TaskKey, t.nextTaskId, task);
    TaskAppendValid(t.tasks, t.milestones, task);
  }

  /** Rewriting a task in place, keeping its id, owner and milestone, keeps the tables valid. */
  lemma TablesTaskRewrite(t: Tables, i: nat, task: Task)
    requires TablesValid(t) && i < |t.tasks|
    requires task.id == t.tasks[i].id && task.userId == t.tasks[i].userId && task.milestoneId == t.tasks[i].milestoneId
    requires task.completedAt.Some? <==> task.status == Done
    ensures TablesValid(t.(tasks := t.tasks[i := task]))
  {
    IdsIssuedRewrite(t.tasks, TaskKey, t.nextTaskId, i, task);
    TaskRewriteValid(t.tasks, t.milestones, i, task);
  }

  /** Inserting a fresh todo milestone under an owned goal keeps the tables valid. */
  lemma TablesMilestoneAppend(t: Tables, m: Milestone)
    requires TablesValid(t)
    requires m.id == t.nextMilestoneId && m.status == Todo && m.completedAt == None
    requires GoalIndex(t.goals, m.goalId, m.userId).Some?
    ensures TablesValid(t.(milestones := t.milestones + [m], nextMilestoneId := t.nextMilestoneId + 1))
  {
    MilestoneAppendValid(t.milestones, t.goals, t.tasks, m);
    IdsIssuedAppend(t.milestones, MilestoneKey, t.nextMilestoneId, m);
  }

  /** Rewriting a milestone in place, keeping its id, owner and goal, keeps the tables valid. */
  lemma TablesMilestoneRewrite(t: Tables, i: nat, m: Milestone)
    requires TablesValid(t) && i < |t.milestones|
    requires m.id == t.milestones[i].id && m.userId == t.milestones[i].userId && m.goalId == t.milestones[i].goalId
    requires m.completedAt.Some? <==> m.status == Done
    ensures TablesValid(t.(milestones := t.milestones[i := m]))
  {
    var after := t.milestones[i := m];
    forall k | 0 <= k < |t.tasks| ensures MilestoneIndex(after, t.tasks[k].milestoneId, t.tasks[k].userId).Some? {
      MilestoneIndexRewrite(t.milestones, i, m, t.tasks[k].milestoneId, t.tasks[k].userId);
    }
    assert forall j :: 0 <= j < |t.milestones| && j != i ==> after[j] == t.milestones[j];
    IdsIssuedRewrite(t.milestones, MilestoneKey, t.nextMilestoneId, i, m);
  }

  /** Inserting a fresh goal keeps the tables valid. */
  lemma TablesGoalAppend(t: Tables, g: Goal)
    requires TablesValid(t) && g.id == t.nextGoalId
    ensures TablesValid(t.(goals := t.goals + [g], nextGoalId := t.nextGoalId + 1))
  {
    forall i | 0 <= i < |t.milestones| ensures GoalIndex(t.goals + [g], t.milestones[i].goalId, t.milestones[i].userId).Some? {
      GoalIndexAppend(t.goals, g, t.milestones[i].goalId, t.milestones[i].userId);
    }
    IdsIssuedAppend(t.goals, GoalKey, t.nextGoalId, g);
  }

  /** Rewriting a goal in place, keeping its id and owner, keeps the tables valid. */
  lemma TablesGoalRewrite(t: Tables, i: nat, g: Goal)
    requires TablesValid(t) && i < |t.goals|
    requires g.id == t.goals[i].id && g.userId == t.goals[i].userId
    ensures TablesValid(t.(goals := t.goals[i := g]))
  {
    forall k | 0 <= k < |t.milestones| ensures GoalIndex(t.goals[i := g], t.milestones[k].goalId, t.milestones[k].userId).Some? {
      GoalIndexRewrite(t.goals, i, g, t.milestones[k].goalId, t.milestones[k].userId);
    }
    IdsIssuedRewrite(t.goals, GoalKey, t.nextGoalId, i, g);
  }

  /** The CareerGoals, CareerMilestones and CareerTasks tables. Ids are handed
      out from one counter per table, as an auto-increment key would. */
  class PlannerServer {
    var goals: seq<Goal>
    var milestones: seq<Milestone>
    var tasks: seq<Task>
    var nextGoalId: int
    var nextMilestoneId: int
    var nextTaskId: int

    ghost predicate Valid()
      reads this
    {
      TablesValid(State())
    }

    function State(): Tables
      reads this
    {
      Tables(goals, milestones, tasks, nextGoalId, nextMilestoneId, nextTaskId)
    }

    constructor ()
      ensures Valid()
      ensures State() == Tables([], [], [], 1, 1, 1)
    {
      goals, milestones, tasks := [], [], [];
      nextGoalId, nextMilestoneId, nextTaskId := 1, 1, 1;
    }

    /** The row store's insert: appends a fresh row under the next id. */
    method InsertGoal(goal: Goal)
      requires Valid() && goal.id == nextGoalId
      modifies this
      ensures Valid()
      ensures State() == old(State()).(goals := old(goals) + [goal], nextGoalId := old(nextGoalId) + 1)
    {
      ghost var before := State();
      TablesGoalAppend(before, goal);
      goals, nextGoalId := goals + [goal], nextGoalId + 1;
      assert State() == before.(goals := before.goals + [goal], nextGoalId := before.nextGoalId + 1);
    }

    /** The row store's update: rewrites row `i` in place. */
    method WriteGoal(i: nat, goal: Goal)
      requires Valid() && i < |goals| && goal.id == goals[i].id && goal.userId == goals[i].userId
      modifies this
      ensures Valid()
      ensures State() == old(State()).(goals := old(goals)[i := goal])
    {
      ghost var before := State();
      TablesGoalRewrite(before, i, goal);
      goals := goals[i := goal];
      assert State() == before.(goals := before.goals[i := goal]);
    }

    method InsertMilestone(milestone: Milestone)
      requires Valid() && milestone.id == nextMilestoneId
      requires milestone.status == Todo && milestone.completedAt == None
      requires GoalIndex(goals, milestone.goalId, milestone.userId).Some?
      modifies this
      ensures Valid()
      ensures State() == old(State()).(milestones := old(milestones) + [milestone], nextMilestoneId := old(nextMilestoneId) + 1)
    {
      ghost var before := State();
      TablesMilestoneAppend(before, milestone);
      milestones, nextMilestoneId := milestones + [milestone], nextMilestoneId + 1;
      assert State() == before.(milestones := before.milestones + [milestone], nextMilestoneId := before.nextMilestoneId + 1);
    }

    method WriteMilestone(i: nat, milestone: Milestone)
      requires Valid() && i < |milestones|
      requires milestone.id == milestones[i].id && milestone.userId == milestones[i].userId
      requires milestone.goalId == milestones[i].goalId
      requires milestone.completedAt.Some? <==> milestone.status == Done
      modifies this
      ensures Valid()
      ensures State() == old(State()).(milestones := old(milestones)[i := milestone])
    {
      ghost var before := State();
      TablesMilestoneRewrite(before, i, milestone);
      milestones := milestones[i := milestone];
      assert State() == before.(milestones := before.milestones[i := milestone]);
    }

    method InsertTask(task: Task)
      requires Valid() && task.id == nextTaskId
      requires task.status == Todo && task.completedAt == None
      requires MilestoneIndex(milestones, task.milestoneId, task.userId).Some?
      modifies this
      ensures Valid()
      ensures State() == old(State()).(tasks := old(tasks) + [task], nextTaskId := old(nextTaskId) + 1)
    {
      ghost var before := State();
      TablesTaskAppend(before, task);
      tasks, nextTaskId := tasks + [task], nextTaskId + 1;
      assert State() == before.(tasks := before.tasks + [task], nextTaskId := before.nextTaskId + 1);
    }

    method WriteTask(i: nat, task: Task)
      requires Valid() && i < |tasks|
      requires task.id == tasks[i].id && task.userId == tasks[i].userId && task.milestoneId == tasks[i].milestoneId
      requires task.completedAt.Some? <==> task.status == Done
      modifies this
      ensures Valid()
      ensures State() == old(State()).(tasks := old(tasks)[i := task])
    {
      ghost var before := State();
      TablesTaskRewrite(before, i, task);
      tasks := tasks[i := task];
      assert State() == before.(tasks := before.tasks[i := task]);
    }

    /** `createGoal`: validated, quota-gated, inserted active. */
    method CreateGoal(userId: UserId, input: GoalInput, now: Instant, limits: Limits, isPro: bool)
      returns (r: Result<Goal, Failure>)
      requires Valid()
      modifies this
      ensures Valid()
      ensures r.Err? <==> CreateGoalFailure(old(goals), userId, input, limits, isPro).Some?
      ensures r.Err? ==> r.error == CreateGoalFailure(old(goals), userId, input, limits, isPro).value && State() == old(State())
      ensures r.Ok? ==>
        && r.value == Goal(old(nextGoalId), userId, input.title, input.targetRole, input.notes, Active, now, now)
        && State() == old(State()).(goals := old(goals) + [r.value], nextGoalId := old(nextGoalId) + 1)
    {
      var failure := CreateGoalFailure(goals, userId, input, limits, isPro);
      if failure.Some? {
        return Err(failure.value);
      }
      var goal := Goal(nextGoalId, userId, input.title, input.targetRole, input.notes, Active, now, now);
      InsertGoal(goal);
      r := Ok(goal);
    }

    /** `updateGoal`: rewrites the caller's goal, or fails NOT_FOUND changing nothing. */
    method UpdateGoal(userId: UserId, input: GoalUpdateInput, now: Instant)
      returns (r: Result<Goal, Failure>)
      requires Valid()
      modifies this
      ensures Valid()
      ensures input.title == [] ==> r == Err(ValidationError("Goal title is required."))
      ensures input.title != [] && GoalIndex(old(goals), input.id, userId).None? ==> r == Err(NotFound("Goal not found."))
      ensures r.Err? ==> State() == old(State())
      ensures input.title != [] && GoalIndex(old(goals), input.id, userId).Some? ==>
        var i := GoalIndex(old(goals), input.id, userId).value;
        && r == Ok(GoalUpdated(old(goals)[i], input, now))
        && State() == old(State()).(goals := old(goals)[i := r.value])
    {
      if input.title == [] {
        return Err(ValidationError("Goal title is required."));
      }
      match GoalIndex(goals, input.id, userId)
      case None =>
        r := Err(NotFound("Goal not found."));
      case Some(i) =>
        var goal := GoalUpdated(goals[i], input, now);
        WriteGoal(i, goal);
        r := Ok(goal);
    }

    /** `archiveGoal`: marks the caller's goal archived and returns its notice. */
    method ArchiveGoal(userId: UserId, id: int, now: Instant)
      returns (r: Result<GoalReply, Failure>)
      requires Valid()
      modifies this
      ensures Valid()
      ensures GoalIndex(old(goals), id, userId).None? ==> r == Err(NotFound("Goal not found.")) && State() == old(State())
      ensures GoalIndex(old(goals), id, userId).Some? ==>
        var i := GoalIndex(old(goals), id, userId).value;
        var archived := old(goals)[i].(status := Archived, updatedAt := now);
        && r == Ok(GoalReply(archived, Some(ArchiveNotice(archived))))
        && State() == old(State()).(goals := old(goals)[i := archived])
    {
      match GoalIndex(goals, id, userId)
      case None =>
        r := Err(NotFound("Goal not found."));
      case Some(i) =>
        var goal := goals[i].(status := Archived, updatedAt := now);
        WriteGoal(i, goal);
        r := Ok(GoalReply(goal, Some(ArchiveNotice(goal))));
    }

    /** `createMilestone`: the goal must be the caller's; the ownership check
        comes before the quota gate, and neither inserts on failure. */
    method CreateMilestone(userId: UserId, input: MilestoneInput, now: Instant, limits: Limits, isPro: bool)
      returns (r: Result<Milestone, Failure>)
      requires Valid()
      modifies this
      ensures Valid()
      ensures r.Err? <==> CreateMilestoneFailure(old(goals), old(milestones), userId, input, limits, isPro).Some?
      ensures r.Err? ==> && r.error == CreateMilestoneFailure(old(goals), old(milestones), userId, input, limits, isPro).value
                         && State() == old(State())
      ensures r.Ok? ==>
        && r.value == Milestone(old(nextMilestoneId), userId, input.goalId, input.title, input.description,
                                input.targetDate, Todo, None, now, now)
        && State() == old(State()).(milestones := old(milestones) + [r.value], nextMilestoneId := old(nextMilestoneId) + 1)
    {
      var failure := CreateMilestoneFailure(goals, milestones, userId, input, limits, isPro);
      if failure.Some? {
        return Err(failure.value);
      }
      var milestone := Milestone(nextMilestoneId, userId, input.goalId, input.title, input.description,
                                 input.targetDate, Todo, None, now, now);
      InsertMilestone(milestone);
      r := Ok(milestone);
    }

    /** `updateMilestone`: rewrites the caller's milestone's fields, never its status. */
    method UpdateMilestone(userId: UserId, input: MilestoneUpdateInput, now: Instant)
      returns (r: Result<Milestone, Failure>)
      requires Valid()
      modifies this
      ensures Valid()
      ensures input.title == [] ==> r == Err(ValidationError("Milestone title is required."))
      ensures input.title != [] && MilestoneIndex(old(milestones), input.id, userId).None? ==> r == Err(NotFound("Milestone not found."))
      ensures r.Err? ==> State() == old(State())
      ensures input.title != [] && MilestoneIndex(old(milestones), input.id, userId).Some? ==>
        var i := MilestoneIndex(old(milestones), input.id, userId).value;
        && r == Ok(MilestoneUpdated(old(milestones)[i], input, now))
        && State() == old(State()).(milestones := old(milestones)[i := r.value])
    {
      if input.title == [] {
        return Err(ValidationError("Milestone title is required."));
      }
      match MilestoneIndex(milestones, input.id, userId)
      case None =>
        r := Err(NotFound("Milestone not found."));
      case Some(i) =>
        var milestone := MilestoneUpdated(milestones[i], input, now);
        WriteMilestone(i, milestone);
        r := Ok(milestone);
    }

    /** `setMilestoneStatus`: sets the status and the completion instant of the
        caller's milestone; completing it yields a notice. */
    method SetMilestoneStatus(userId: UserId, id: int, status: WorkStatus, now: Instant)
      returns (r: Result<MilestoneReply, Failure>)
      requires Valid()
      modifies this
      ensures Valid()
      ensures MilestoneIndex(old(milestones), id, userId).None? ==> r == Err(NotFound("Milestone not found.")) && State() == old(State())
      ensures MilestoneIndex(old(milestones), id, userId).Some? ==>
        var i := MilestoneIndex(old(milestones), id, userId).value;
        var milestone := MilestoneWithStatus(old(milestones)[i], status, now);
        && r == Ok(MilestoneReply(milestone, CompletionNotice(milestone, status)))
        && State() == old(State()).(milestones := old(milestones)[i := milestone])
    {
      match MilestoneIndex(milestones, id, userId)
      case None =>
        r := Err(NotFound("Milestone not found."));
      case Some(i) =>
        var milestone := MilestoneWithStatus(milestones[i], status, now);
        WriteMilestone(i, milestone);
        r := Ok(MilestoneReply(milestone, CompletionNotice(milestone, status)));
    }

    /** `createTask`: the milestone must be the caller's; the ownership check
        comes before the quota gate, and neither inserts on failure. */
    method CreateTask(userId: UserId, input: TaskInput, now: Instant, limits: Limits, isPro: bool)
      returns (r: Result<Task, Failure>)
      requires Valid()
      modifies this
      ensures Valid()
      ensures r.Err? <==> CreateTaskFailure(old(milestones), old(tasks), userId, input, limits, isPro).Some?
      ensures r.Err? ==> && r.error == CreateTaskFailure(old(milestones), old(tasks), userId, input, limits, isPro).value
                         && State() == old(State())
      ensures r.Ok? ==>
        && r.value == Task(old(nextTaskId), userId, input.milestoneId, input.title, input.notes,
                           input.dueDate, Todo, None, now, now)
        && State() == old(State()).(tasks := old(tasks) + [r.value], nextTaskId := old(nextTaskId) + 1)
    {
      var failure := CreateTaskFailure(milestones, tasks, userId, input, limits, isPro);
      if failure.Some? {
        return Err(failure.value);
      }
      var task := Task(nextTaskId, userId, input.milestoneId, input.title, input.notes,
                       input.dueDate, Todo, None, now, now);
      InsertTask(task);
      r := Ok(task);
    }

    /** `updateTask`: rewrites the caller's task's fields, never its status. */
    method UpdateTask(userId: UserId, input: TaskUpdateInput, now: Instant)
      returns (r: Result<Task, Failure>)
      requires Valid()
      modifies this
      ensures Valid()
      ensures input.title == [] ==> r == Err(ValidationError("Task title is required."))
      ensures input.title != [] && TaskIndex(old(tasks), input.id, userId).None? ==> r == Err(NotFound("Task not found."))
      ensures r.Err? ==> State() == old(State())
      ensures input.title != [] && TaskIndex(old(tasks), input.id, userId).Some? ==>
        var i := TaskIndex(old(tasks), input.id, userId).value;
        && r == Ok(TaskUpdated(old(tasks)[i], input, now))
        && State() == old(State()).(tasks := old(tasks)[i := r.value])
    {
      if input.title == [] {
        return Err(ValidationError("Task title is required."));
      }
      match TaskIndex(tasks, input.id, userId)
      case None =>
        r := Err(NotFound("Task not found."));
      case Some(i) =>
        var task := TaskUpdated(tasks[i], input, now);
        WriteTask(i, task);
        r := Ok(task);
    }

    /** `setTaskStatus`: sets the status and the completion instant of the
        caller's task; it never produces a notice. */
    method SetTaskStatus(userId: UserId, id: int, status: WorkStatus, now: Instant)
      returns (r: Result<Task, Failure>)
      requires Valid()
      modifies this
      ensures Valid()
      ensures TaskIndex(old(tasks), id, userId).None? ==> r == Err(NotFound("Task not found.")) && State() == old(State())
      ensures TaskIndex(old(tasks), id, userId).Some? ==>
        var i := TaskIndex(old(tasks), id, userId).value;
        && r == Ok(TaskWithStatus(old(tasks)[i], status, now))
        && State() == old(State()).(tasks := old(tasks)[i := r.value])
    {
      match TaskIndex(tasks, id, userId)
      case None =>
        r := Err(NotFound("Task not found."));
      case Some(i) =>
        var task := TaskWithStatus(tasks[i], status, now);
        WriteTask(i, task);
        r := Ok(task);
    }
  }

  /** Ownership isolation: when every row with a given id belongs to one user,
      no other user's lookup reaches it, whatever id that user supplies. */
  lemma MilestoneIsolation(milestones: seq<Milestone>, id: int, owner: UserId, other: UserId)
    requires owner != other
    requires forall m :: m in milestones && m.id == id ==> m.userId == owner
    ensures MilestoneIndex(milestones, id, other).None?
  {
    forall j | 0 <= j < |milestones| ensures !(milestones[j].id == id && milestones[j].userId == other) {
      assert milestones[j] in milestones;
    }
  }

  /** The same for goals. */
  lemma GoalIsolation(goals: seq<Goal>, id: int, owner: UserId, other: UserId)
    requires owner != other
    requires forall g :: g in goals && g.id == id ==> g.userId == owner
    ensures GoalIndex(goals, id, other).None?
  {
    forall j | 0 <= j < |goals| ensures !(goals[j].id == id && goals[j].userId == other) {
      assert goals[j] in goals;
    }
  }

  /** The same for tasks. */
  lemma TaskIsolation(tasks: seq<Task>, id: int, owner: UserId, other: UserId)
    requires owner != other
    requires forall t :: t in tasks && t.id == id ==> t.userId == owner
    ensures TaskIndex(tasks, id, other).None?
  {
    forall j | 0 <= j < |tasks| ensures !(tasks[j].id == id && tasks[j].userId == other) {
      assert tasks[j] in tasks;
    }
  }
}

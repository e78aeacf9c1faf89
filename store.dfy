/** The browser-side store of the planner: a cache of the caller's goals,
    of the milestones of each goal and of the tasks of each milestone, kept
    in step with the server by the actions the UI triggers. Each server
    call is an argument holding the reply the call received: `Ok` with the
    returned record, or `Err` with the message of the thrown error. */
module ClientStore {
  import opened Wrappers
  import opened Seqs
  import opened Text
  import opened Types

  // ---------------------------------------------------------------------
  // Forms and requests

  /** The editable forms. A date field holds the instant the date input
      denotes, `None` for the empty input. */
  datatype GoalForm = GoalForm(title: string, targetRole: string, notes: string)
  datatype MilestoneForm = MilestoneForm(title: string, description: string, targetDate: Option<Instant>)
  datatype TaskForm = TaskForm(title: string, notes: string, dueDate: Option<Instant>)

  const EmptyGoalForm: GoalForm := GoalForm("", "", "")
  const EmptyMilestoneForm: MilestoneForm := MilestoneForm("", "", None)
  const EmptyTaskForm: TaskForm := TaskForm("", "", None)

  /** The fields `updateGoal` was handed; an absent field is `None`. */
  datatype GoalUpdates = GoalUpdates(title: Option<string>, targetRole: Option<string>, notes: Option<string>)

  /** What the status setters send: the record's id and the new status. */
  datatype StatusRequest = StatusRequest(id: int, status: WorkStatus)

  /** `s.trim() || undefined`: the trimmed text, absent when nothing is left. */
  function TrimmedOrAbsent(s: string): (r: Option<string>)
    ensures r.None? <==> Trim(s) == []
    ensures r.Some? ==> r.value == Trim(s) && Trimmed(r.value)
  {
    if Trim(s) == [] then None else Some(Trim(s))
  }

  /** The message a failed call leaves in `error` (`err?.message || fallback`):
      the thrown message, or the action's fallback when that message is empty. */
  function ErrorText(message: string, fallback: string): (r: string)
    ensures fallback != [] ==> r != []
    ensures message != [] ==> r == message
    ensures message == [] ==> r == fallback
  {
    if message != [] then message else fallback
  }

  /** The message `unwrap` throws for an action's error: the error's own
      message, or "Request failed." when it has none. */
  function UnwrapError(error: string): (m: string)
    ensures m != []
    ensures error != [] ==> m == error
    ensures error == [] ==> m == "Request failed."
  {
    if error != [] then error else "Request failed."
  }

  /** Because `unwrap` never throws an empty message, an action's error always
      reaches `error` as that message, and the per-action fallback is never used. */
  lemma UnwrapBypassesFallback(error: string, fallback: string)
    ensures ErrorText(UnwrapError(error), fallback) == UnwrapError(error)
  {
  }

  /** What `createGoal` sends: nothing for a blank title, otherwise the
      trimmed fields, with blank optional ones omitted. */
  function GoalRequest(form: GoalForm): (r: Option<GoalInput>)
    ensures r.None? <==> Trim(form.title) == []
    ensures r.Some? ==> && r.value.title == Trim(form.title) && r.value.title != []
                        && Trimmed(r.value.title)
                        && r.value.targetRole == TrimmedOrAbsent(form.targetRole)
                        && r.value.notes == TrimmedOrAbsent(form.notes)
  {
    if Trim(form.title) == [] then None
    else Some(GoalInput(Trim(form.title), TrimmedOrAbsent(form.targetRole), TrimmedOrAbsent(form.notes)))
  }

  /** What `updateGoal` sends: a missing title becomes the empty title, which
      the server's validation rejects. */
  function GoalUpdateRequest(goalId: int, updates: GoalUpdates): (r: GoalUpdateInput)
    ensures r.id == goalId
    ensures r.title == [] <==> updates.title.None? || Trim(updates.title.value) == []
    ensures updates.title.Some? ==> r.title == Trim(updates.title.value)
    ensures updates.targetRole.None? ==> r.targetRole.None?
    ensures updates.targetRole.Some? ==> r.targetRole == TrimmedOrAbsent(updates.targetRole.value)
    ensures updates.notes.None? ==> r.notes.None?
    ensures updates.notes.Some? ==> r.notes == TrimmedOrAbsent(updates.notes.value)
  {
    GoalUpdateInput(
      goalId,
      match updates.title case Some(t) => Trim(t) case None => "",
      match updates.targetRole case Some(t) => TrimmedOrAbsent(t) case None => None,
      match updates.notes case Some(t) => TrimmedOrAbsent(t) case None => None)
  }

  /** What `createMilestone` sends: nothing for a blank title; the date is sent untrimmed. */
  function MilestoneRequest(goalId: int, form: MilestoneForm): (r: Option<MilestoneInput>)
    ensures r.None? <==> Trim(form.title) == []
    ensures r.Some? ==> && r.value.goalId == goalId
                        && r.value.title == Trim(form.title) && r.value.title != []
                        && Trimmed(r.value.title)
                        && r.value.description == TrimmedOrAbsent(form.description)
                        && r.value.targetDate == form.targetDate
  {
    if Trim(form.title) == [] then None
    else Some(MilestoneInput(goalId, Trim(form.title), TrimmedOrAbsent(form.description), form.targetDate))
  }

  /** What `createTask` sends: nothing for a blank title; the date is sent untrimmed. */
  function TaskRequest(milestoneId: int, form: TaskForm): (r: Option<TaskInput>)
    ensures r.None? <==> Trim(form.title) == []
    ensures r.Some? ==> && r.value.milestoneId == milestoneId
                        && r.value.title == Trim(form.title) && r.value.title != []
                        && Trimmed(r.value.title)
                        && r.value.notes == TrimmedOrAbsent(form.notes)
                        && r.value.dueDate == form.dueDate
  {
    if Trim(form.title) == [] then None
    else Some(TaskInput(milestoneId, Trim(form.title), TrimmedOrAbsent(form.notes), form.dueDate))
  }

  // ---------------------------------------------------------------------
  // List rewrites

  function GoalIdOf(g: Goal): int { g.id }
  function MilestoneIdOf(m: Milestone): int { m.id }
  function TaskIdOf(t: Task): int { t.id }

  /** `items.map(item => item.id === x.id ? x : item)`. */
  function ReplaceById<T>(items: seq<T>, x: T, key: T -> int): (r: seq<T>)
    ensures |r| == |items|
    ensures forall i :: 0 <= i < |items| && key(items[i]) == key(x) ==> r[i] == x
    ensures forall i :: 0 <= i < |items| && key(items[i]) != key(x) ==> r[i] == items[i]
  {
    MapWhere(items, (y: T) => key(y) == key(x), (_: T) => x)
  }

  /** A replacement keeps every position's id, so the list's ids are those it had. */
  lemma ReplaceByIdKeepsIds<T>(items: seq<T>, x: T, key: T -> int)
    ensures forall i :: 0 <= i < |items| ==> key(ReplaceById(items, x, key)[i]) == key(items[i])
  {
  }

  /** A record whose id is not in the list changes nothing. */
  lemma ReplaceByIdAbsent<T>(items: seq<T>, x: T, key: T -> int)
    requires forall i :: 0 <= i < |items| ==> key(items[i]) != key(x)
    ensures ReplaceById(items, x, key) == items
  {
  }

  /** Replacing twice with the same record is replacing once. */
  lemma ReplaceByIdIdempotent<T>(items: seq<T>, x: T, key: T -> int)
    ensures ReplaceById(ReplaceById(items, x, key), x, key) == ReplaceById(items, x, key)
  {
    var once := ReplaceById(items, x, key);
    var twice := ReplaceById(once, x, key);
    assert forall i :: 0 <= i < |items| ==> twice[i] == once[i];
  }

  /** `current.map(item => item.id === id ? { ...item, status } : item)` on milestones. */
  function MilestonesWithStatus(items: seq<Milestone>, id: int, status: WorkStatus): (r: seq<Milestone>)
    ensures |r| == |items|
    ensures forall i :: 0 <= i < |items| && items[i].id == id ==> r[i] == items[i].(status := status)
    ensures forall i :: 0 <= i < |items| && items[i].id != id ==> r[i] == items[i]
  {
    MapWhere(items, (m: Milestone) => m.id == id, (m: Milestone) => m.(status := status))
  }

  /** `current.map(item => item.id === id ? { ...item, status } : item)` on tasks. */
  function TasksWithStatus(items: seq<Task>, id: int, status: WorkStatus): (r: seq<Task>)
    ensures |r| == |items|
    ensures forall i :: 0 <= i < |items| && items[i].id == id ==> r[i] == items[i].(status := status)
    ensures forall i :: 0 <= i < |items| && items[i].id != id ==> r[i] == items[i]
  {
    MapWhere(items, (t: Task) => t.id == id, (t: Task) => t.(status := status))
  }

  /** After the optimistic step exactly the entries with the id carry the new
      status; the rest of the list is untouched. */
  lemma MilestoneOptimisticTargetsOnly(items: seq<Milestone>, id: int, status: WorkStatus)
    ensures forall i :: 0 <= i < |items| ==>
      (MilestonesWithStatus(items, id, status)[i] != items[i] ==> items[i].id == id && items[i].status != status)
  {
  }

  /** The rollback restores the snapshot exactly when the record handed in
      was current, that is, when its status is the one the list holds. */
  lemma {:induction false} MilestoneRollbackExact(items: seq<Milestone>, id: int, prev: WorkStatus)
    requires forall i :: 0 <= i < |items| && items[i].id == id ==> items[i].status == prev
    ensures MilestonesWithStatus(items, id, prev) == items
  {
    var r := MilestonesWithStatus(items, id, prev);
    forall i | 0 <= i < |items| ensures r[i] == items[i] {
      if items[i].id == id {
        assert r[i] == items[i].(status := prev);
      }
    }
  }

  lemma {:induction false} TaskRollbackExact(items: seq<Task>, id: int, prev: WorkStatus)
    requires forall i :: 0 <= i < |items| && items[i].id == id ==> items[i].status == prev
    ensures TasksWithStatus(items, id, prev) == items
  {
    var r := TasksWithStatus(items, id, prev);
    forall i | 0 <= i < |items| ensures r[i] == items[i] {
      if items[i].id == id {
        assert r[i] == items[i].(status := prev);
      }
    }
  }

  /** Rolling the optimistic list back gives the same list as rolling back
      the snapshot: the optimistic step leaves no trace after a failure. */
  lemma MilestoneRollbackForgetsOptimistic(items: seq<Milestone>, id: int, status: WorkStatus, prev: WorkStatus)
    ensures MilestonesWithStatus(MilestonesWithStatus(items, id, status), id, prev) == MilestonesWithStatus(items, id, prev)
  {
    var once := MilestonesWithStatus(items, id, status);
    var twice := MilestonesWithStatus(once, id, prev);
    var direct := MilestonesWithStatus(items, id, prev);
    assert forall i :: 0 <= i < |items| ==> twice[i] == direct[i];
  }

  lemma TaskRollbackForgetsOptimistic(items: seq<Task>, id: int, status: WorkStatus, prev: WorkStatus)
    ensures TasksWithStatus(TasksWithStatus(items, id, status), id, prev) == TasksWithStatus(items, id, prev)
  {
    var once := TasksWithStatus(items, id, status);
    var twice := TasksWithStatus(once, id, prev);
    var direct := TasksWithStatus(items, id, prev);
    assert forall i :: 0 <= i < |items| ==> twice[i] == direct[i];
  }

  /** The id of the first active goal, if any. */
  function FirstActiveGoalId(goals: seq<Goal>): (r: Option<int>)
    ensures r.None? <==> forall i :: 0 <= i < |goals| ==> goals[i].status != Active
    ensures r.Some? ==> exists k :: && 0 <= k < |goals| && goals[k].status == Active && goals[k].id == r.value
                                   && forall j :: 0 <= j < k ==> goals[j].status != Active
  {
    match FindIndex(goals, (g: Goal) => g.status == Active) {
    case None => None
    case Some(k) => Some(goals[k].id)
    }
  }

  /** After the archived record has replaced every goal with its id, the
      reselected active goal is never the archived one. */
  lemma ReselectSkipsArchived(goals: seq<Goal>, archived: Goal)
    requires archived.status == Archived
    ensures FirstActiveGoalId(ReplaceById(goals, archived, GoalIdOf)) != Some(archived.id)
  {
    var after := ReplaceById(goals, archived, GoalIdOf);
    assert forall i :: 0 <= i < |after| && after[i].status == Active ==> after[i].id != archived.id;
  }

  /** The goal list after `loadGoalDetail`: unchanged when a goal with the
      loaded id is cached already, otherwise with the loaded goal in front. */
  function WithGoal(goals: seq<Goal>, g: Goal): (r: seq<Goal>)
    ensures exists i :: 0 <= i < |r| && r[i].id == g.id
    ensures r == goals || r == [g] + goals
    ensures (exists i :: 0 <= i < |goals| && goals[i].id == g.id) <==> r == goals
  {
    if exists i :: 0 <= i < |goals| && goals[i].id == g.id then goals
    else
      assert ([g] + goals)[0] == g;
      [g] + goals
  }

  /** Loading a goal that is already cached changes nothing. */
  lemma WithGoalIdempotent(goals: seq<Goal>, g: Goal)
    ensures WithGoal(WithGoal(goals, g), g) == WithGoal(goals, g)
  {
  }

  // ---------------------------------------------------------------------
  // Views

  /** `getMilestones` and `getTasks` (`cache[key] ?? []`): the list cached
      under a key, empty when none was loaded. */
  function CachedList<T>(cache: map<int, seq<T>>, key: int): (r: seq<T>)
    ensures key in cache ==> r == cache[key]
    ensures key !in cache ==> r == []
  {
    if key in cache then cache[key] else []
  }

  /** Storing a list under one key is what a later read of that key returns,
      and no other key's read changes. */
  lemma CachedListAfterStore<T>(cache: map<int, seq<T>>, key: int, items: seq<T>, other: int)
    ensures CachedList(cache[key := items], key) == items
    ensures other != key ==> CachedList(cache[key := items], other) == CachedList(cache, other)
  {
  }

  datatype Progress = Progress(total: nat, done: nat)

  predicate IsDoneMilestone(m: Milestone) { m.status == Done }

  /** `getMilestoneProgress`: how many of a goal's cached milestones there are and how many are done. */
  function GetMilestoneProgress(milestonesByGoal: map<int, seq<Milestone>>, goalId: int): (p: Progress)
    ensures p.total == |CachedList(milestonesByGoal, goalId)|
    ensures p.done == |Filter(CachedList(milestonesByGoal, goalId), IsDoneMilestone)|
    ensures p.done <= p.total
    ensures p.done == p.total <==> forall i :: 0 <= i < p.total ==> CachedList(milestonesByGoal, goalId)[i].status == Done
    ensures p.done == 0 <==> forall i :: 0 <= i < p.total ==> CachedList(milestonesByGoal, goalId)[i].status != Done
  {
    var ms := CachedList(milestonesByGoal, goalId);
    CountAll(ms, IsDoneMilestone);
    CountNone(ms, IsDoneMilestone);
    Progress(|ms|, Count(ms, IsDoneMilestone))
  }

  /** Prepending a milestone to a goal's list, as `createMilestone` does,
      adds one to the total, and one to the done count exactly when the new
      milestone is done. */
  lemma MilestoneProgressPrepend(milestonesByGoal: map<int, seq<Milestone>>, goalId: int, m: Milestone)
    ensures var before := GetMilestoneProgress(milestonesByGoal, goalId);
            GetMilestoneProgress(milestonesByGoal[goalId := [m] + CachedList(milestonesByGoal, goalId)], goalId)
              == Progress(before.total + 1, before.done + if m.status == Done then 1 else 0)
  {
    var ms := CachedList(milestonesByGoal, goalId);
    FilterAppend([m], ms, IsDoneMilestone);
  }

  /** Storing a goal's list leaves every other goal's progress as it was. */
  lemma MilestoneProgressElsewhere(milestonesByGoal: map<int, seq<Milestone>>, goalId: int, items: seq<Milestone>, other: int)
    requires other != goalId
    ensures GetMilestoneProgress(milestonesByGoal[goalId := items], other) == GetMilestoneProgress(milestonesByGoal, other)
  {
    CachedListAfterStore(milestonesByGoal, goalId, items, other);
  }

  /** Every cached task of every cached milestone of the goal, milestone by milestone. */
  function TasksUnder(milestonesByGoal: map<int, seq<Milestone>>, tasksByMilestone: map<int, seq<Task>>, goalId: int)
    : (r: seq<Task>)
    ensures forall t :: t in r <==> exists m :: m in CachedList(milestonesByGoal, goalId) && t in CachedList(tasksByMilestone, m.id)
  {
    FlatMap(CachedList(milestonesByGoal, goalId), (m: Milestone) => CachedList(tasksByMilestone, m.id))
  }

  predicate IsOpenTask(t: Task) { t.status != Done }

  /** The goal's cached tasks that are not done. */
  function OpenTasksUnder(milestonesByGoal: map<int, seq<Milestone>>, tasksByMilestone: map<int, seq<Task>>, goalId: int)
    : (r: seq<Task>)
    ensures forall i :: 0 <= i < |r| ==> r[i].status != Done
  {
    Filter(TasksUnder(milestonesByGoal, tasksByMilestone, goalId), IsOpenTask)
  }

  /** The open tasks of a goal are exactly the not-done tasks cached under
      one of its cached milestones. */
  lemma OpenTasksUnderMembers(milestonesByGoal: map<int, seq<Milestone>>, tasksByMilestone: map<int, seq<Task>>, goalId: int)
    ensures forall t :: t in OpenTasksUnder(milestonesByGoal, tasksByMilestone, goalId) <==>
      t.status != Done && exists m :: m in CachedList(milestonesByGoal, goalId) && t in CachedList(tasksByMilestone, m.id)
  {
  }

  /** The comparator of `getNextDueTasks`, `aDate - bDate`, up to its sign: a
      missing date is `+Infinity`, and `Infinity - Infinity` is NaN, which the
      sort reads as zero. */
  function DueCompare(a: Task, b: Task): int {
    match (a.dueDate, b.dueDate) {
    case (Some(x), Some(y)) => x - y
    case (Some(_), None) => -1
    case (None, Some(_)) => 1
    case (None, None) => 0
    }
  }

  /** `a` may come before `b` in the sort: ascending due instant, a missing
      date counting as later than every date and equal to another missing one. */
  predicate DueFirst(a: Task, b: Task)
    ensures DueFirst(a, b) <==> DueCompare(a, b) <= 0
  {
    match (a.dueDate, b.dueDate) {
    case (Some(x), Some(y)) => x <= y
    case (Some(_), None) => true
    case (None, Some(_)) => false
    case (None, None) => true
    }
  }

  lemma DueFirstTotalPreorder()
    ensures TotalPreorder(DueFirst)
  {
  }

  /** The first `limit` of `open` in comparator order (`sort` then `slice(0, limit)`). */
  function NextDue(open: seq<Task>, limit: int): (r: seq<Task>)
    ensures limit >= 0 ==> |r| == if limit < |open| then limit else |open|
    ensures limit < 0 ==> |r| == if |open| + limit > 0 then |open| + limit else 0
    ensures multiset(r) <= multiset(open)
    ensures limit >= |open| ==> multiset(r) == multiset(open)
    ensures (forall i :: 0 <= i < |open| ==> open[i].status != Done) ==> forall i :: 0 <= i < |r| ==> r[i].status != Done
  {
    var sorted := SortBy(open, DueFirst);
    var r := SliceTo(sorted, limit);
    assert sorted == r + sorted[|r|..];
    assert multiset(sorted) == multiset(r) + multiset(sorted[|r|..]);
    SubmultisetStaysOpen(open, r);
    r
  }

  /** A selection from open tasks holds only open tasks. */
  lemma SubmultisetStaysOpen(open: seq<Task>, r: seq<Task>)
    requires multiset(r) <= multiset(open)
    ensures (forall i :: 0 <= i < |open| ==> open[i].status != Done) ==> forall i :: 0 <= i < |r| ==> r[i].status != Done
  {
    forall i | 0 <= i < |r|
      ensures r[i] in open
    {
      assert r[i] in multiset(r);
    }
  }

  /** What `NextDue` keeps is in comparator order, and nothing it drops is due
      before something it keeps. */
  lemma NextDueEarliest(open: seq<Task>, limit: int)
    ensures Sorted(NextDue(open, limit), DueFirst)
    ensures forall t, i :: t in open && t !in NextDue(open, limit) && 0 <= i < |NextDue(open, limit)|
                           ==> DueFirst(NextDue(open, limit)[i], t)
  {
    var sorted := SortBy(open, DueFirst);
    var r := NextDue(open, limit);
    assert r == SliceTo(sorted, limit);
    DueFirstTotalPreorder();
    SortBySorted(open, DueFirst);
    SortedPrefixEarliest(sorted, DueFirst, |r|);
    forall t | t in open ensures t in sorted {
      assert t in multiset(open);
    }
  }

  /** `getNextDueTasks`: the goal's open tasks, soonest due first with undated
      ones last, cut to the first `limit`. */
  function GetNextDueTasks(milestonesByGoal: map<int, seq<Milestone>>, tasksByMilestone: map<int, seq<Task>>,
                           goalId: int, limit: int): (r: seq<Task>)
    ensures var open := OpenTasksUnder(milestonesByGoal, tasksByMilestone, goalId);
            && (limit >= 0 ==> |r| == if limit < |open| then limit else |open|)
            && multiset(r) <= multiset(open)
    ensures Sorted(r, DueFirst)
    ensures forall t, i :: t in OpenTasksUnder(milestonesByGoal, tasksByMilestone, goalId) && t !in r && 0 <= i < |r|
                           ==> DueFirst(r[i], t)
    ensures forall i :: 0 <= i < |r| ==> r[i].status != Done
  {
    NextDueEarliest(OpenTasksUnder(milestonesByGoal, tasksByMilestone, goalId), limit);
    NextDue(OpenTasksUnder(milestonesByGoal, tasksByMilestone, goalId), limit)
  }

  /** The limit `getNextDueTasks` uses when the page gives none. */
  const DefaultDueLimit: int := 3

  /** `getNextDueTasks(goalId)` without a limit: the three open tasks due
      soonest, or all of them when there are fewer. */
  function GetNextDueTasksByDefault(milestonesByGoal: map<int, seq<Milestone>>, tasksByMilestone: map<int, seq<Task>>,
                                    goalId: int): (r: seq<Task>)
    ensures var open := OpenTasksUnder(milestonesByGoal, tasksByMilestone, goalId);
            |r| == if |open| < 3 then |open| else 3
  {
    GetNextDueTasks(milestonesByGoal, tasksByMilestone, goalId, DefaultDueLimit)
  }

  // ---------------------------------------------------------------------
  // Loading a goal's detail

  /** The task lists `loadGoalDetail` stores: for each milestone in turn,
      the list its call returned, when that call succeeded. */
  function LoadTasks(tasksByMilestone: map<int, seq<Task>>, milestones: seq<Milestone>,
                     replies: int -> Result<seq<Task>, string>): (r: map<int, seq<Task>>)
    ensures tasksByMilestone.Keys <= r.Keys
    decreases |milestones|
  {
    if milestones == [] then tasksByMilestone
    else
      var last := milestones[|milestones| - 1];
      var before := LoadTasks(tasksByMilestone, milestones[..|milestones| - 1], replies);
      match replies(last.id) {
      case Ok(tasks) => before[last.id := tasks]
      case Err(_) => before
      }
  }

  /** Whether some listed milestone with this id had its tasks loaded. */
  ghost predicate TasksLoaded(milestones: seq<Milestone>, replies: int -> Result<seq<Task>, string>, id: int) {
    exists i :: 0 <= i < |milestones| && milestones[i].id == id && replies(milestones[i].id).Ok?
  }

  /** A milestone whose call succeeded reads the list that call returned;
      every other key keeps what it held before. */
  lemma {:induction false} LoadTasksEntry(tasksByMilestone: map<int, seq<Task>>, milestones: seq<Milestone>,
                                          replies: int -> Result<seq<Task>, string>, id: int)
    ensures TasksLoaded(milestones, replies, id) ==>
              id in LoadTasks(tasksByMilestone, milestones, replies)
              && LoadTasks(tasksByMilestone, milestones, replies)[id] == replies(id).value
    ensures !TasksLoaded(milestones, replies, id) ==>
              CachedList(LoadTasks(tasksByMilestone, milestones, replies), id) == CachedList(tasksByMilestone, id)
              && (id in LoadTasks(tasksByMilestone, milestones, replies) <==> id in tasksByMilestone)
    decreases |milestones|
  {
    if milestones != [] {
      var init := milestones[..|milestones| - 1];
      var last := milestones[|milestones| - 1];
      LoadTasksEntry(tasksByMilestone, init, replies, id);
      assert forall i :: 0 <= i < |init| ==> init[i] == milestones[i];
      if TasksLoaded(init, replies, id) {
        var i :| 0 <= i < |init| && init[i].id == id && replies(init[i].id).Ok?;
        assert milestones[i].id == id;
      }
      if last.id == id && replies(id).Ok? {
        assert milestones[|milestones| - 1].id == id;
      }
      if TasksLoaded(milestones, replies, id) && !TasksLoaded(init, replies, id) {
      }
    }
  }

  predicate TaskReplyFailed(replies: int -> Result<seq<Task>, string>, m: Milestone) {
    replies(m.id).Err?
  }

  /** The message of the first failing task call, in milestone order. */
  function FirstTaskError(milestones: seq<Milestone>, replies: int -> Result<seq<Task>, string>): (r: Option<string>)
    ensures r.None? <==> forall i :: 0 <= i < |milestones| ==> replies(milestones[i].id).Ok?
    ensures r.Some? ==> exists k :: && 0 <= k < |milestones| && replies(milestones[k].id) == Err(r.value)
                                   && forall j :: 0 <= j < k ==> replies(milestones[j].id).Ok?
  {
    match FindIndex(milestones, (m: Milestone) => TaskReplyFailed(replies, m)) {
    case None => None
    case Some(k) => Some(replies(milestones[k].id).error)
    }
  }

  // ---------------------------------------------------------------------
  // The store

  /** All fields of the store, as one value. */
  datatype StoreState = StoreState(
    goals: seq<Goal>,
    activeGoalId: Option<int>,
    milestonesByGoal: map<int, seq<Milestone>>,
    tasksByMilestone: map<int, seq<Task>>,
    loading: bool,
    error: Option<string>,
    success: Option<string>,
    notice: Option<Notice>,
    goalForm: GoalForm,
    milestoneForm: MilestoneForm,
    taskForm: TaskForm)

  class CareerPlannerStore {
    var goals: seq<Goal>
    var activeGoalId: Option<int>
    var milestonesByGoal: map<int, seq<Milestone>>
    var tasksByMilestone: map<int, seq<Task>>
    var loading: bool
    var error: Option<string>
    var success: Option<string>
    var notice: Option<Notice>
    var goalForm: GoalForm
    var milestoneForm: MilestoneForm
    var taskForm: TaskForm

    function State(): StoreState
      reads this
    {
      StoreState(goals, activeGoalId, milestonesByGoal, tasksByMilestone, loading, error, success, notice,
                 goalForm, milestoneForm, taskForm)
    }

    /** The store as the page first creates it. */
    constructor ()
      ensures State() == StoreState([], None, map[], map[], false, None, None, None,
                                    EmptyGoalForm, EmptyMilestoneForm, EmptyTaskForm)
    {
      goals, activeGoalId := [], None;
      milestonesByGoal, tasksByMilestone := map[], map[];
      loading, error, success, notice := false, None, None, None;
      goalForm, milestoneForm, taskForm := EmptyGoalForm, EmptyMilestoneForm, EmptyTaskForm;
    }

    /** `setNotice`: a payload replaces the notice; no payload leaves it, so a
        notice is never cleared. */
    method SetNotice(payload: Option<Notice>)
      modifies this
      ensures payload.Some? ==> State() == old(State()).(notice := payload)
      ensures payload.None? ==> State() == old(State())
    {
      if payload.Some? {
        notice := payload;
      }
    }

    /** `loadGoals`: on success the list is the server's and the active goal
        is its first active one; on failure only `error` and `loading` move. */
    method LoadGoals(reply: Result<seq<Goal>, string>)
      modifies this
      ensures reply.Ok? ==> State() == old(State()).(goals := reply.value, activeGoalId := FirstActiveGoalId(reply.value),
                                                      loading := false, error := None)
      ensures reply.Err? ==> State() == old(State()).(loading := false,
                                                       error := Some(ErrorText(UnwrapError(reply.error), "Failed to load goals.")))
    {
      loading := true;
      error := None;
      match reply {
      case Ok(list) =>
        goals := list;
        activeGoalId := FirstActiveGoalId(list);
      case Err(message) =>
        error := Some(ErrorText(UnwrapError(message), "Failed to load goals."));
      }
      loading := false;
    }

    /** `createGoal`: a blank title only sets `error`; otherwise the request
        is sent, and a created goal goes in front and becomes active when it is. */
    method CreateGoal(reply: Result<Goal, string>) returns (request: Option<GoalInput>)
      modifies this
      ensures request == GoalRequest(old(goalForm))
      ensures request.None? ==> State() == old(State()).(error := Some("Goal title is required."))
      ensures request.Some? && reply.Ok? ==>
        State() == old(State()).(goals := [reply.value] + old(goals),
                                 activeGoalId := if reply.value.status == Active then Some(reply.value.id) else old(activeGoalId),
                                 goalForm := EmptyGoalForm, loading := false, error := None, success := Some("Goal created."))
      ensures request.Some? && reply.Err? ==>
        State() == old(State()).(loading := false, error := Some(ErrorText(UnwrapError(reply.error), "Unable to create goal.")),
                                 success := None)
    {
      request := GoalRequest(goalForm);
      if request.None? {
        error := Some("Goal title is required.");
      } else {
        ReceiveCreatedGoal(reply);
      }
    }

    /** The part of `createGoal` that runs once the request is sent. */
    method ReceiveCreatedGoal(reply: Result<Goal, string>)
      modifies this
      ensures reply.Ok? ==>
        State() == old(State()).(goals := [reply.value] + old(goals),
                                 activeGoalId := if reply.value.status == Active then Some(reply.value.id) else old(activeGoalId),
                                 goalForm := EmptyGoalForm, loading := false, error := None, success := Some("Goal created."))
      ensures reply.Err? ==>
        State() == old(State()).(loading := false, error := Some(ErrorText(UnwrapError(reply.error), "Unable to create goal.")),
                                 success := None)
    {
      loading, error, success := true, None, None;
      match reply {
      case Ok(goal) =>
        goals := [goal] + goals;
        activeGoalId := if goal.status == Active then Some(goal.id) else activeGoalId;
        goalForm := EmptyGoalForm;
        success := Some("Goal created.");
      case Err(message) =>
        error := Some(ErrorText(UnwrapError(message), "Unable to create goal."));
      }
      loading := false;
    }

    /** `updateGoal`: the returned record replaces every cached goal with its id. */
    method UpdateGoal(goalId: int, updates: GoalUpdates, reply: Result<Goal, string>) returns (request: GoalUpdateInput)
      modifies this
      ensures request == GoalUpdateRequest(goalId, updates)
      ensures reply.Ok? ==>
        State() == old(State()).(goals := ReplaceById(old(goals), reply.value, GoalIdOf),
                                 loading := false, error := None, success := Some("Goal updated."))
      ensures reply.Err? ==>
        State() == old(State()).(loading := false, error := Some(ErrorText(UnwrapError(reply.error), "Unable to update goal.")),
                                 success := None)
    {
      loading, error, success := true, None, None;
      request := GoalUpdateRequest(goalId, updates);
      match reply {
      case Ok(goal) =>
        goals := ReplaceById(goals, goal, GoalIdOf);
        success := Some("Goal updated.");
      case Err(message) =>
        error := Some(ErrorText(UnwrapError(message), "Unable to update goal."));
      }
      loading := false;
    }

    /** `archiveGoal`: the archived record replaces the cached one; when it was
        the active goal, the first remaining active goal (or none) takes over. */
    method ArchiveGoal(goalId: int, reply: Result<GoalReply, string>) returns (request: int)
      modifies this
      ensures request == goalId
      ensures reply.Ok? ==>
        var replaced := ReplaceById(old(goals), reply.value.goal, GoalIdOf);
        State() == old(State()).(
          goals := replaced,
          activeGoalId := if old(activeGoalId) == Some(reply.value.goal.id) then FirstActiveGoalId(replaced)
                          else old(activeGoalId),
          loading := false, error := None, success := Some("Goal archived."),
          notice := if reply.value.notice.Some? then reply.value.notice else old(notice))
      ensures reply.Err? ==>
        State() == old(State()).(loading := false, error := Some(ErrorText(UnwrapError(reply.error), "Unable to archive goal.")),
                                 success := None)
    {
      request := goalId;
      loading, error, success := true, None, None;
      match reply {
      case Ok(answer) =>
        ReceiveArchivedGoal(answer.goal);
        success := Some("Goal archived.");
        SetNotice(answer.notice);
      case Err(message) =>
        error := Some(ErrorText(UnwrapError(message), "Unable to archive goal."));
      }
      loading := false;
    }

    /** The cache update of `archiveGoal` once the archived record arrives. */
    method ReceiveArchivedGoal(goal: Goal)
      modifies this
      ensures var replaced := ReplaceById(old(goals), goal, GoalIdOf);
        State() == old(State()).(
          goals := replaced,
          activeGoalId := if old(activeGoalId) == Some(goal.id) then FirstActiveGoalId(replaced) else old(activeGoalId))
    {
      goals := ReplaceById(goals, goal, GoalIdOf);
      if activeGoalId == Some(goal.id) {
        activeGoalId := FirstActiveGoalId(goals);
      }
    }

    /** `loadGoalDetail`: with the goal and its milestones loaded, caches
        both, makes the goal active and loads each milestone's tasks; every
        successful task call is stored, and the first failing one sets `error`. */
    method LoadGoalDetail(goalId: int, goalReply: Result<Goal, string>, milestonesReply: Result<seq<Milestone>, string>,
                          taskReplies: int -> Result<seq<Task>, string>)
      modifies this
      ensures goalReply.Err? ==>
        State() == old(State()).(loading := false, error := Some(ErrorText(UnwrapError(goalReply.error), "Failed to load goal details.")))
      ensures goalReply.Ok? && milestonesReply.Err? ==>
        State() == old(State()).(loading := false,
                                 error := Some(ErrorText(UnwrapError(milestonesReply.error), "Failed to load goal details.")))
      ensures goalReply.Ok? && milestonesReply.Ok? ==>
        var ms := milestonesReply.value;
        State() == old(State()).(
          goals := WithGoal(old(goals), goalReply.value),
          activeGoalId := Some(goalId),
          milestonesByGoal := old(milestonesByGoal)[goalId := ms],
          tasksByMilestone := LoadTasks(old(tasksByMilestone), ms, taskReplies),
          loading := false,
          error := match FirstTaskError(ms, taskReplies)
                   case None => None
                   case Some(message) => Some(ErrorText(UnwrapError(message), "Failed to load goal details.")))
    {
      loading, error := true, None;
      if goalReply.Err? {
        error := Some(ErrorText(UnwrapError(goalReply.error), "Failed to load goal details."));
      } else if milestonesReply.Err? {
        error := Some(ErrorText(UnwrapError(milestonesReply.error), "Failed to load goal details."));
      } else {
        ReceiveGoalDetail(goalId, goalReply.value, milestonesReply.value, taskReplies);
      }
      loading := false;
    }

    /** The part of `loadGoalDetail` that runs once the goal and its
        milestones have arrived. */
    method ReceiveGoalDetail(goalId: int, goal: Goal, ms: seq<Milestone>, taskReplies: int -> Result<seq<Task>, string>)
      modifies this
      ensures State() == old(State()).(
          goals := WithGoal(old(goals), goal),
          activeGoalId := Some(goalId),
          milestonesByGoal := old(milestonesByGoal)[goalId := ms],
          tasksByMilestone := LoadTasks(old(tasksByMilestone), ms, taskReplies),
          error := match FirstTaskError(ms, taskReplies)
                   case None => old(error)
                   case Some(message) => Some(ErrorText(UnwrapError(message), "Failed to load goal details.")))
    {
      ghost var before := State();
      var failure := LoadMilestoneTasks(ms, taskReplies);
      ghost var loaded := tasksByMilestone;
      var newError := match failure case None => error case Some(message) => Some(ErrorText(UnwrapError(message), "Failed to load goal details."));
      goals, activeGoalId, milestonesByGoal, error := WithGoal(goals, goal), Some(goalId), milestonesByGoal[goalId := ms], newError;
      assert State() == before.(goals := WithGoal(before.goals, goal), activeGoalId := Some(goalId),
                                milestonesByGoal := before.milestonesByGoal[goalId := ms],
                                tasksByMilestone := loaded, error := newError);
    }

    /** The task fan-out of `loadGoalDetail`: one call per milestone; every
        list that arrives is stored, and the first failure in milestone order
        is reported. */
    method LoadMilestoneTasks(milestones: seq<Milestone>, replies: int -> Result<seq<Task>, string>)
      returns (failure: Option<string>)
      modifies this`tasksByMilestone
      ensures failure == FirstTaskError(milestones, replies)
      ensures State() == old(State()).(tasksByMilestone := LoadTasks(old(tasksByMilestone), milestones, replies))
    {
      var failedAt: Option<nat> := None;
      var i := 0;
      while i < |milestones|
        invariant 0 <= i <= |milestones|
        invariant tasksByMilestone == LoadTasks(old(tasksByMilestone), milestones[..i], replies)
        invariant failedAt.None? ==> forall j :: 0 <= j < i ==> replies(milestones[j].id).Ok?
        invariant failedAt.Some? ==> (&& failedAt.value < i && replies(milestones[failedAt.value].id).Err?
                                     && forall j :: 0 <= j < failedAt.value ==> replies(milestones[j].id).Ok?)
      {
        assert milestones[..i + 1][..i] == milestones[..i];
        match replies(milestones[i].id) {
        case Ok(tasks) =>
          tasksByMilestone := tasksByMilestone[milestones[i].id := tasks];
        case Err(_) =>
          if failedAt.None? {
            failedAt := Some(i);
          }
        }
        i := i + 1;
      }
      assert milestones[..i] == milestones;
      failure := None;
      match failedAt {
      case None =>
      case Some(k) =>
        var first := FindIndex(milestones, (m: Milestone) => TaskReplyFailed(replies, m));
        assert first == Some(k);
        failure := Some(replies(milestones[k].id).error);
      }
    }

    /** `createMilestone`: a blank title only sets `error`; a created milestone
        goes in front of the goal's cached list and the form is cleared. */
    method CreateMilestone(goalId: int, reply: Result<Milestone, string>) returns (request: Option<MilestoneInput>)
      modifies this
      ensures request == MilestoneRequest(goalId, old(milestoneForm))
      ensures request.None? ==> State() == old(State()).(error := Some("Milestone title is required."))
      ensures request.Some? && reply.Ok? ==>
        State() == old(State()).(
          milestonesByGoal := old(milestonesByGoal)[goalId := [reply.value] + CachedList(old(milestonesByGoal), goalId)],
          milestoneForm := EmptyMilestoneForm, loading := false, error := None, success := Some("Milestone created."))
      ensures request.Some? && reply.Err? ==>
        State() == old(State()).(loading := false, error := Some(ErrorText(UnwrapError(reply.error), "Unable to create milestone.")),
                                 success := None)
    {
      request := MilestoneRequest(goalId, milestoneForm);
      if request.None? {
        error := Some("Milestone title is required.");
      } else {
        ReceiveCreatedMilestone(goalId, reply);
      }
    }

    /** The part of `createMilestone` that runs once the request is sent. */
    method ReceiveCreatedMilestone(goalId: int, reply: Result<Milestone, string>)
      modifies this
      ensures reply.Ok? ==>
        State() == old(State()).(
          milestonesByGoal := old(milestonesByGoal)[goalId := [reply.value] + CachedList(old(milestonesByGoal), goalId)],
          milestoneForm := EmptyMilestoneForm, loading := false, error := None, success := Some("Milestone created."))
      ensures reply.Err? ==>
        State() == old(State()).(loading := false, error := Some(ErrorText(UnwrapError(reply.error), "Unable to create milestone.")),
                                 success := None)
    {
      loading, error, success := true, None, None;
      match reply {
      case Ok(milestone) =>
        var current := CachedList(milestonesByGoal, goalId);
        milestonesByGoal := milestonesByGoal[goalId := [milestone] + current];
        milestoneForm := EmptyMilestoneForm;
        success := Some("Milestone created.");
      case Err(message) =>
        error := Some(ErrorText(UnwrapError(message), "Unable to create milestone."));
      }
      loading := false;
    }

    /** `createTask`: a blank title only sets `error`; a created task goes in
        front of the milestone's cached list and the form is cleared. */
    method CreateTask(milestoneId: int, reply: Result<Task, string>) returns (request: Option<TaskInput>)
      modifies this
      ensures request == TaskRequest(milestoneId, old(taskForm))
      ensures request.None? ==> State() == old(State()).(error := Some("Task title is required."))
      ensures request.Some? && reply.Ok? ==>
        State() == old(State()).(
          tasksByMilestone := old(tasksByMilestone)[milestoneId := [reply.value] + CachedList(old(tasksByMilestone), milestoneId)],
          taskForm := EmptyTaskForm, loading := false, error := None, success := Some("Task created."))
      ensures request.Some? && reply.Err? ==>
        State() == old(State()).(loading := false, error := Some(ErrorText(UnwrapError(reply.error), "Unable to create task.")),
                                 success := None)
    {
      request := TaskRequest(milestoneId, taskForm);
      if request.None? {
        error := Some("Task title is required.");
      } else {
        ReceiveCreatedTask(milestoneId, reply);
      }
    }

    /** The part of `createTask` that runs once the request is sent. */
    method ReceiveCreatedTask(milestoneId: int, reply: Result<Task, string>)
      modifies this
      ensures reply.Ok? ==>
        State() == old(State()).(
          tasksByMilestone := old(tasksByMilestone)[milestoneId := [reply.value] + CachedList(old(tasksByMilestone), milestoneId)],
          taskForm := EmptyTaskForm, loading := false, error := None, success := Some("Task created."))
      ensures reply.Err? ==>
        State() == old(State()).(loading := false, error := Some(ErrorText(UnwrapError(reply.error), "Unable to create task.")),
                                 success := None)
    {
      loading, error, success := true, None, None;
      match reply {
      case Ok(task) =>
        var current := CachedList(tasksByMilestone, milestoneId);
        tasksByMilestone := tasksByMilestone[milestoneId := [task] + current];
        taskForm := EmptyTaskForm;
        success := Some("Task created.");
      case Err(message) =>
        error := Some(ErrorText(UnwrapError(message), "Unable to create task."));
      }
      loading := false;
    }

    /** The synchronous half of `setMilestoneStatus`: snapshots the goal's
        list and shows the new status on the matching entries at once. */
    method ApplyMilestoneStatus(milestone: Milestone, status: WorkStatus) returns (current: seq<Milestone>)
      modifies this
      ensures current == CachedList(old(milestonesByGoal), milestone.goalId)
      ensures State() == old(State()).(
        milestonesByGoal := old(milestonesByGoal)[milestone.goalId := MilestonesWithStatus(current, milestone.id, status)])
    {
      current := CachedList(milestonesByGoal, milestone.goalId);
      milestonesByGoal := milestonesByGoal[milestone.goalId := MilestonesWithStatus(current, milestone.id, status)];
    }

    /** The half of `setMilestoneStatus` after the server answers: the
        snapshot with the server's record in place, or, on failure, the
        snapshot with the status the record handed in had. */
    method SettleMilestoneStatus(milestone: Milestone, current: seq<Milestone>, reply: Result<MilestoneReply, string>)
      modifies this
      ensures reply.Ok? ==>
        State() == old(State()).(
          milestonesByGoal := old(milestonesByGoal)[milestone.goalId := ReplaceById(current, reply.value.milestone, MilestoneIdOf)],
          notice := if reply.value.notice.Some? then reply.value.notice else old(notice))
      ensures reply.Err? ==>
        State() == old(State()).(
          milestonesByGoal := old(milestonesByGoal)[milestone.goalId := MilestonesWithStatus(current, milestone.id, milestone.status)],
          error := Some(ErrorText(UnwrapError(reply.error), "Unable to update milestone.")))
    {
      match reply {
      case Ok(answer) =>
        milestonesByGoal := milestonesByGoal[milestone.goalId := ReplaceById(current, answer.milestone, MilestoneIdOf)];
        SetNotice(answer.notice);
      case Err(message) =>
        milestonesByGoal := milestonesByGoal[milestone.goalId := MilestonesWithStatus(current, milestone.id, milestone.status)];
        error := Some(ErrorText(UnwrapError(message), "Unable to update milestone."));
      }
    }

    /** `setMilestoneStatus`: the optimistic step followed by its settlement. */
    method SetMilestoneStatus(milestone: Milestone, status: WorkStatus, reply: Result<MilestoneReply, string>)
      returns (request: StatusRequest)
      modifies this
      ensures request == StatusRequest(milestone.id, status)
      ensures var current := CachedList(old(milestonesByGoal), milestone.goalId);
        && (reply.Ok? ==>
              State() == old(State()).(
                milestonesByGoal := old(milestonesByGoal)[milestone.goalId := ReplaceById(current, reply.value.milestone, MilestoneIdOf)],
                notice := if reply.value.notice.Some? then reply.value.notice else old(notice)))
        && (reply.Err? ==>
              State() == old(State()).(
                milestonesByGoal := old(milestonesByGoal)[milestone.goalId := MilestonesWithStatus(current, milestone.id, milestone.status)],
                error := Some(ErrorText(UnwrapError(reply.error), "Unable to update milestone."))))
    {
      request := StatusRequest(milestone.id, status);
      var current := ApplyMilestoneStatus(milestone, status);
      SettleMilestoneStatus(milestone, current, reply);
    }

    /** The synchronous half of `setTaskStatus`. */
    method ApplyTaskStatus(task: Task, status: WorkStatus) returns (current: seq<Task>)
      modifies this
      ensures current == CachedList(old(tasksByMilestone), task.milestoneId)
      ensures State() == old(State()).(
        tasksByMilestone := old(tasksByMilestone)[task.milestoneId := TasksWithStatus(current, task.id, status)])
    {
      current := CachedList(tasksByMilestone, task.milestoneId);
      tasksByMilestone := tasksByMilestone[task.milestoneId := TasksWithStatus(current, task.id, status)];
    }

    /** The half of `setTaskStatus` after the server answers; it never touches the notice. */
    method SettleTaskStatus(task: Task, current: seq<Task>, reply: Result<Task, string>)
      modifies this
      ensures reply.Ok? ==>
        State() == old(State()).(
          tasksByMilestone := old(tasksByMilestone)[task.milestoneId := ReplaceById(current, reply.value, TaskIdOf)])
      ensures reply.Err? ==>
        State() == old(State()).(
          tasksByMilestone := old(tasksByMilestone)[task.milestoneId := TasksWithStatus(current, task.id, task.status)],
          error := Some(ErrorText(UnwrapError(reply.error), "Unable to update task.")))
    {
      match reply {
      case Ok(answer) =>
        tasksByMilestone := tasksByMilestone[task.milestoneId := ReplaceById(current, answer, TaskIdOf)];
      case Err(message) =>
        tasksByMilestone := tasksByMilestone[task.milestoneId := TasksWithStatus(current, task.id, task.status)];
        error := Some(ErrorText(UnwrapError(message), "Unable to update task."));
      }
    }

    /** `setTaskStatus`: the optimistic step followed by its settlement. */
    method SetTaskStatus(task: Task, status: WorkStatus, reply: Result<Task, string>)
      returns (request: StatusRequest)
      modifies this
      ensures request == StatusRequest(task.id, status)
      ensures var current := CachedList(old(tasksByMilestone), task.milestoneId);
        && (reply.Ok? ==>
              State() == old(State()).(
                tasksByMilestone := old(tasksByMilestone)[task.milestoneId := ReplaceById(current, reply.value, TaskIdOf)]))
        && (reply.Err? ==>
              State() == old(State()).(
                tasksByMilestone := old(tasksByMilestone)[task.milestoneId := TasksWithStatus(current, task.id, task.status)],
                error := Some(ErrorText(UnwrapError(reply.error), "Unable to update task."))))
    {
      request := StatusRequest(task.id, status);
      var current := ApplyTaskStatus(task, status);
      SettleTaskStatus(task, current, reply);
    }
  }
}

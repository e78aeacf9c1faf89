# Career planner, modelled in Dafny

The career planner lets a signed-in user keep career goals, break each goal
into milestones, and break each milestone into tasks. Milestones and tasks
move through todo, doing and done. This project models three parts of it.

- **Server actions** (`CareerPlanner`, career_planner.dfy). The database is a
  `PlannerServer` object whose fields are the three tables plus the
  auto-increment counters. Every action is scoped to the caller: a row that
  belongs to someone else is "not found". Creation passes the free-tier quota
  gates; a pro caller is never denied. The status setters stamp a
  completion instant exactly when the new status is done. Archiving a goal,
  and completing a milestone, return a notice for the page.
- **Client store** (`ClientStore`, store.dfy). `CareerPlannerStore` is the
  page-side object, with its caches keyed by goal and by milestone, its
  flags and messages, and its three forms. Each server call enters as a
  reply argument (`Result<…, string>`), which covers both outcomes. The
  store's derived views are functions on its caches: milestones of a goal,
  tasks of a milestone, progress, and the next tasks due.
- **Webhooks** (`NotifyParent`, `PushActivity`). The URL resolution rules,
  the defaulted notification body, and the activity payload.

Supporting modules:
- `Wrappers`: Option and Result.
- `Seqs`: filter, count, find, map-where, flat-map, `slice(0, end)` with
  JavaScript's negative-end rule, descending lexicographic order, and a
  stable insertion sort with its sortedness, permutation and uniqueness
  lemmas.
- `Text`: JavaScript's `trim`, decimal rendering of integers with a parse
  round trip, the one-trailing-slash strip, and the truthiness of an
  optional string.
- `Types`: the shared records.

Modelling choices, in the system's terms:
- Instants are integers.
  - `new Date()` is a `now` parameter.
  - An empty date field in a form means "no date".
  - `Date.toISOString()` is a `nowIso` string parameter.
- The acting user, `requirePro` (an `isPro` flag) and `FREE_LIMITS` (a
  `Limits` value) are parameters.
- A zod `min(1)` title check is a `ValidationError` carrying the schema's
  message. It is checked before anything else, as the schema runs before
  the handler.
- The store's own `unwrap` turns a failed reply into a thrown message; it is
  `UnwrapError`, whose message is never empty. The client's
  `err?.message || fallback` is `ErrorText(UnwrapError(message), fallback)`.
- `loadGoalDetail` fans out one task call per milestone. It is modelled as
  a loop in milestone order. Every list that arrives is stored, and the
  first failure in that order becomes the error.
- `setMilestoneStatus` and `setTaskStatus` are split into two methods. The
  step before the `await` shows the new status at once. The step after it
  either writes the server's record into the snapshot or rolls the snapshot
  back.
- `APP_KEY` is "career-planner", the application id its dashboard summary
  carries.

Points of the code that a reader might expect to be otherwise:
- `updateMilestone` demands a title, as its schema does. Omitted fields
  become null; there is no "at least one field" rule.
- The store's `updateGoal` sends `""` when no title is given, and the server
  rejects that with "Goal title is required.".
- db/tables.ts declares other tables (roadmaps, milestones under roadmaps,
  skill targets, text ids). The actions use goals, milestones and tasks with
  integer ids, and the model follows the actions.

## Model

| member | source | states |
|---|---|---|
| CareerPlanner.ActiveGoalCount | src/actions/careerPlanner.ts:24-28 | zero exactly when no row is both the user's and active |
| CareerPlanner.MilestoneCount | src/actions/careerPlanner.ts:39-42 | zero exactly when no milestone row is the user's |
| CareerPlanner.TaskCount | src/actions/careerPlanner.ts:50-53 | zero exactly when no task row is the user's |
| CareerPlanner.EnforceActiveGoalLimit | src/actions/careerPlanner.ts:24-33 | below the limit always passes; the gate denies exactly when the count reaches the limit and the caller is not pro |
| CareerPlanner.EnforceMilestoneLimit | src/actions/careerPlanner.ts:35-47 | the same for the user's milestones, with the same quota rule |
| CareerPlanner.EnforceTaskLimit | src/actions/careerPlanner.ts:49-58 | the same for the user's tasks, with the same quota rule |
| CareerPlanner.ActiveGoalCountAppend | src/actions/careerPlanner.ts:126-139 | a new row raises the active count by one exactly when it is the user's and active |
| CareerPlanner.ActiveGoalCountArchive | src/actions/careerPlanner.ts:177-184 | archiving lowers the active count by one exactly when the row was the user's and active |
| CareerPlanner.MilestoneCountAppend | src/actions/careerPlanner.ts:254-270 | a new milestone row raises the user's count by one exactly when it is the user's |
| CareerPlanner.TaskCountAppend | src/actions/careerPlanner.ts:374-390 | a new task row raises the user's count by one exactly when it is the user's |
| CareerPlanner.MilestoneCountRewrite | src/actions/careerPlanner.ts:284-293 | rewriting a milestone in place, owner kept, leaves the quota count as it was |
| CareerPlanner.TaskCountRewrite | src/actions/careerPlanner.ts:404-413 | rewriting a task in place, owner kept, leaves the quota count as it was |
| CareerPlanner.GoalIndex | src/actions/careerPlanner.ts:161 | finds a row with both the id and the owner, or reports that none exists |
| CareerPlanner.MilestoneIndex | src/actions/careerPlanner.ts:292 | the milestone lookup matches both the id and the owner |
| CareerPlanner.TaskIndex | src/actions/careerPlanner.ts:412 | the task lookup matches both the id and the owner |
| CareerPlanner.GetGoal | src/actions/careerPlanner.ts:223-239 | returns the caller's goal with that id; "Goal not found." exactly when the caller owns no such goal |
| CareerPlanner.GoalIsolation | src/actions/careerPlanner.ts:161 | another user's goal id is never found for the caller |
| CareerPlanner.MilestoneIsolation | src/actions/careerPlanner.ts:292 | another user's milestone id is never found for the caller |
| CareerPlanner.TaskIsolation | src/actions/careerPlanner.ts:412 | another user's task id is never found for the caller |
| CareerPlanner.KeyGe | src/actions/careerPlanner.ts:217 | agrees with the descending lexicographic order on (updatedAt, createdAt, id) |
| CareerPlanner.NewerBy | src/actions/careerPlanner.ts:217 | one row may precede another exactly when its sort columns are lexicographically no smaller |
| CareerPlanner.NewerByTotalPreorder | src/actions/careerPlanner.ts:217 | the newest-first order is total and transitive |
| CareerPlanner.ListBy | src/actions/careerPlanner.ts:213-217 | the selected rows, as a permutation, sorted newest first |
| CareerPlanner.ListByDeterministic | src/actions/careerPlanner.ts:217 | with unique ids, any newest-first arrangement of the selected rows is this list |
| CareerPlanner.ListGoals | src/actions/careerPlanner.ts:210-221 | exactly the caller's goals, each as often as stored, ordered by updatedAt, then createdAt, then id, all descending |
| CareerPlanner.ListMilestonesByGoal | src/actions/careerPlanner.ts:347-359 | exactly the caller's milestones of that goal, newest first |
| CareerPlanner.ListTasksByMilestone | src/actions/careerPlanner.ts:451-463 | exactly the caller's tasks of that milestone, newest first |
| CareerPlanner.CreateGoalFailure | src/actions/careerPlanner.ts:122-126 | an empty title fails validation first, then the goal quota; no failure exactly when both pass |
| CareerPlanner.CreateMilestoneFailure | src/actions/careerPlanner.ts:241-255 | title, then goal ownership ("Goal not found."), then the milestone quota |
| CareerPlanner.CreateTaskFailure | src/actions/careerPlanner.ts:361-375 | title, then milestone ownership ("Milestone not found."), then the task quota |
| CareerPlanner.GoalUpdated | src/actions/careerPlanner.ts:153-162 | id, owner, status and creation instant kept; the fields set from the input; updatedAt is now |
| CareerPlanner.MilestoneUpdated | src/actions/careerPlanner.ts:284-293 | id, owner, goal, status and completion instant kept; the fields set; updatedAt is now |
| CareerPlanner.TaskUpdated | src/actions/careerPlanner.ts:404-413 | id, owner, milestone, status and completion instant kept; the fields set; updatedAt is now |
| CareerPlanner.CompletedAtFor | src/actions/careerPlanner.ts:308 | a completion instant, equal to now, exactly when the status is done |
| CareerPlanner.MilestoneWithStatus | src/actions/careerPlanner.ts:308-317 | the new status and updatedAt; completedAt is set exactly when done; nothing else changes |
| CareerPlanner.TaskWithStatus | src/actions/careerPlanner.ts:428-437 | the same rule for tasks |
| CareerPlanner.GoalUrl | src/actions/careerPlanner.ts:190 | "/goals/" followed by the id's decimal digits, which parse back to the id |
| CareerPlanner.GoalUrlInjective | src/actions/careerPlanner.ts:190 | distinct goals get distinct URLs |
| CareerPlanner.ArchiveNotice | src/actions/careerPlanner.ts:199-206 | event "career_goal_archived", the title "Goal archived: " + title, the goal's URL |
| CareerPlanner.CompletionNotice | src/actions/careerPlanner.ts:323-343 | a notice exactly when the new status is done, pointing at the milestone's goal |
| CareerPlanner.IdsIssuedAppend | src/actions/careerPlanner.ts:128-139 | appending a row under the next counter value keeps ids unique and in range |
| CareerPlanner.IdsIssuedRewrite | src/actions/careerPlanner.ts:177-184 | rewriting a row without changing its id keeps ids unique and in range |
| CareerPlanner.GoalIndexRewrite | src/actions/careerPlanner.ts:177-184 | rewriting a goal, id and owner kept, moves no ownership lookup |
| CareerPlanner.MilestoneIndexRewrite | src/actions/careerPlanner.ts:309-317 | rewriting a milestone, id and owner kept, moves no ownership lookup |
| CareerPlanner.GoalIndexAppend | src/actions/careerPlanner.ts:128-139 | an owned goal stays findable after an append |
| CareerPlanner.MilestoneIndexAppend | src/actions/careerPlanner.ts:257-270 | an owned milestone stays findable after an append |
| CareerPlanner.MilestoneAppendValid | src/actions/careerPlanner.ts:257-270 | a fresh todo milestone under an owned goal keeps parents owned and completion consistent |
| CareerPlanner.TaskAppendValid | src/actions/careerPlanner.ts:377-390 | a fresh todo task under an owned milestone keeps parents owned and completion consistent |
| CareerPlanner.TaskRewriteValid | src/actions/careerPlanner.ts:429-437 | rewriting a task, parent and owner kept, with completion consistent, keeps the table valid |
| CareerPlanner.TablesTaskAppend | src/actions/careerPlanner.ts:377-390 | task insertion preserves every table invariant |
| CareerPlanner.TablesTaskRewrite | src/actions/careerPlanner.ts:404-413 | task rewriting preserves every table invariant |
| CareerPlanner.TablesMilestoneAppend | src/actions/careerPlanner.ts:257-270 | milestone insertion preserves every table invariant |
| CareerPlanner.TablesMilestoneRewrite | src/actions/careerPlanner.ts:284-293 | milestone rewriting preserves every table invariant |
| CareerPlanner.TablesGoalAppend | src/actions/careerPlanner.ts:128-139 | goal insertion preserves every table invariant |
| CareerPlanner.TablesGoalRewrite | src/actions/careerPlanner.ts:177-184 | goal rewriting preserves every table invariant |
| CareerPlanner.PlannerServer.constructor | src/actions/careerPlanner.ts:2-11 | three empty tables whose counters start at 1; valid |
| CareerPlanner.PlannerServer.InsertGoal | src/actions/careerPlanner.ts:128-139 | appends the row and advances the counter; keeps Valid |
| CareerPlanner.PlannerServer.WriteGoal | src/actions/careerPlanner.ts:153-162 | rewrites one goal in place; keeps Valid |
| CareerPlanner.PlannerServer.InsertMilestone | src/actions/careerPlanner.ts:257-270 | appends the row and advances the counter; keeps Valid |
| CareerPlanner.PlannerServer.WriteMilestone | src/actions/careerPlanner.ts:284-293 | rewrites one milestone in place; keeps Valid |
| CareerPlanner.PlannerServer.InsertTask | src/actions/careerPlanner.ts:377-390 | appends the row and advances the counter; keeps Valid |
| CareerPlanner.PlannerServer.WriteTask | src/actions/careerPlanner.ts:404-413 | rewrites one task in place; keeps Valid |
| CareerPlanner.PlannerServer.CreateGoal | src/actions/careerPlanner.ts:122-147 | fails exactly as CreateGoalFailure says and then changes nothing; otherwise an active goal with the next id and now as both instants, appended |
| CareerPlanner.PlannerServer.UpdateGoal | src/actions/careerPlanner.ts:149-171 | validation, then "Goal not found." when not the caller's (nothing changes); otherwise the caller's row updated in place and returned |
| CareerPlanner.PlannerServer.ArchiveGoal | src/actions/careerPlanner.ts:173-208 | "Goal not found." when not the caller's; otherwise the row archived with updatedAt now, returned with its archive notice |
| CareerPlanner.PlannerServer.CreateMilestone | src/actions/careerPlanner.ts:241-278 | fails exactly as CreateMilestoneFailure says; otherwise a todo milestone without completion instant, appended |
| CareerPlanner.PlannerServer.UpdateMilestone | src/actions/careerPlanner.ts:280-302 | validation, then "Milestone not found."; otherwise the caller's row updated in place |
| CareerPlanner.PlannerServer.SetMilestoneStatus | src/actions/careerPlanner.ts:304-345 | "Milestone not found."; otherwise the status set under the completion rule, and a notice exactly when done |
| CareerPlanner.PlannerServer.CreateTask | src/actions/careerPlanner.ts:361-398 | fails exactly as CreateTaskFailure says; otherwise a todo task without completion instant, appended |
| CareerPlanner.PlannerServer.UpdateTask | src/actions/careerPlanner.ts:400-422 | validation, then "Task not found."; otherwise the caller's row updated in place |
| CareerPlanner.PlannerServer.SetTaskStatus | src/actions/careerPlanner.ts:424-449 | "Task not found."; otherwise the status set under the completion rule; no notice |
| ClientStore.TrimmedOrAbsent | src/modules/career-planner/store.ts:116-117 | absent exactly when the trimmed text is empty; otherwise the trimmed text, with no whitespace at either end |
| ClientStore.ErrorText | src/modules/career-planner/store.ts:99 | the caught message when it is non-empty, the fallback exactly when it is empty; never empty when the fallback is not |
| ClientStore.UnwrapError | src/modules/career-planner/store.ts:66-72 | the reply's message when it has one, "Request failed." when it is empty; never empty |
| ClientStore.UnwrapBypassesFallback | src/modules/career-planner/store.ts:66-72 | a message thrown by `unwrap` always wins over an action's fallback |
| ClientStore.GoalRequest | src/modules/career-planner/store.ts:106-118 | no request exactly when the title is blank; otherwise a non-empty trimmed title with the optional fields trimmed or absent |
| ClientStore.GoalUpdateRequest | src/modules/career-planner/store.ts:138-143 | the goal's id; the title is empty exactly when absent or blank; the optional fields trimmed or absent |
| ClientStore.MilestoneRequest | src/modules/career-planner/store.ts:242-255 | no request exactly when the title is blank; otherwise the goal, a trimmed title, description and date |
| ClientStore.TaskRequest | src/modules/career-planner/store.ts:294-307 | no request exactly when the title is blank; otherwise the milestone, a trimmed title, notes and date |
| ClientStore.ReplaceById | src/modules/career-planner/store.ts:146 | same length; entries with the record's id become the record; every other entry is unchanged |
| ClientStore.ReplaceByIdKeepsIds | src/modules/career-planner/store.ts:146 | replacement never changes an entry's id |
| ClientStore.ReplaceByIdAbsent | src/modules/career-planner/store.ts:146 | a record whose id is not cached changes nothing |
| ClientStore.ReplaceByIdIdempotent | src/modules/career-planner/store.ts:146 | replacing twice is replacing once |
| ClientStore.MilestonesWithStatus | src/modules/career-planner/store.ts:274-276 | entries with the id get the status; all others are unchanged |
| ClientStore.TasksWithStatus | src/modules/career-planner/store.ts:326-328 | entries with the id get the status; all others are unchanged |
| ClientStore.MilestoneOptimisticTargetsOnly | src/modules/career-planner/store.ts:274-276 | the optimistic step changes only entries with the id whose status differed |
| ClientStore.MilestoneRollbackExact | src/modules/career-planner/store.ts:286-288 | when the cached entries already had the previous status, the rollback restores the list exactly |
| ClientStore.TaskRollbackExact | src/modules/career-planner/store.ts:337-339 | the same for tasks |
| ClientStore.MilestoneRollbackForgetsOptimistic | src/modules/career-planner/store.ts:274-288 | applying the rollback status after the optimistic one is the same as applying it alone |
| ClientStore.TaskRollbackForgetsOptimistic | src/modules/career-planner/store.ts:326-339 | the same for tasks |
| ClientStore.FirstActiveGoalId | src/modules/career-planner/store.ts:96-97 | the id of the first active goal in list order, or none exactly when no goal is active |
| ClientStore.ReselectSkipsArchived | src/modules/career-planner/store.ts:164-168 | after the archived record replaces its entries, its id is never what gets reselected |
| ClientStore.WithGoal | src/modules/career-planner/store.ts:189-194 | the goal is present afterwards; prepended exactly when none had its id, otherwise the list is unchanged |
| ClientStore.WithGoalIdempotent | src/modules/career-planner/store.ts:189-194 | a second detail load of the same goal adds nothing |
| ClientStore.CachedList | src/modules/career-planner/store.ts:213-219 | the cached list for a known key, the empty list for an unknown one |
| ClientStore.CachedListAfterStore | src/modules/career-planner/store.ts:197-204 | storing a list reads back under its key and leaves every other key's list alone |
| ClientStore.GetMilestoneProgress | src/modules/career-planner/store.ts:221-226 | total is the list's length; done is the number of done milestones in it, so at most total, equal exactly when all are done and zero exactly when none is |
| ClientStore.MilestoneProgressPrepend | src/modules/career-planner/store.ts:221-226 | prepending a milestone, as the created-milestone store does, adds one to total and one to done exactly when the milestone is done |
| ClientStore.MilestoneProgressElsewhere | src/modules/career-planner/store.ts:221-226 | storing one goal's list leaves every other goal's progress unchanged |
| ClientStore.TasksUnder | src/modules/career-planner/store.ts:229-230 | a task is in the result exactly when it is cached under one of the goal's cached milestones |
| ClientStore.OpenTasksUnder | src/modules/career-planner/store.ts:229-232 | no task in the result is done |
| ClientStore.OpenTasksUnderMembers | src/modules/career-planner/store.ts:229-232 | a task is in the result exactly when it is not done and sits under one of the goal's milestones |
| ClientStore.DueFirst | src/modules/career-planner/store.ts:233-237 | a task may precede another exactly when the comparator `aDate - bDate` (missing dates as +Infinity, NaN as zero) is not positive |
| ClientStore.DueFirstTotalPreorder | src/modules/career-planner/store.ts:233-237 | dated before undated, earlier first, is a total preorder |
| ClientStore.NextDue | src/modules/career-planner/store.ts:231-238 | exactly `slice(0, limit)`'s length (min of limit and count for a non-negative limit, count plus limit, floored at zero, for a negative one); a sub-multiset of the open tasks; all of them when the limit allows; none done |
| ClientStore.NextDueEarliest | src/modules/career-planner/store.ts:233-238 | the result is sorted by due date, undated last, and no task left out is due before any task kept |
| ClientStore.GetNextDueTasks | src/modules/career-planner/store.ts:228-239 | min(limit, open count) tasks for a non-negative limit, a sub-multiset of the goal's open tasks, sorted by due date, none done, and no open task left out is due before a kept one |
| ClientStore.GetNextDueTasksByDefault | src/modules/career-planner/store.ts:228 | with the default limit of 3: three tasks, or all open tasks when fewer are open |
| ClientStore.LoadTasks | src/modules/career-planner/store.ts:199-205 | the task lists stored for the milestones in turn; every key present before is still present |
| ClientStore.LoadTasksEntry | src/modules/career-planner/store.ts:199-205 | a milestone whose call succeeded reads the list that call returned; every other key keeps what it had |
| ClientStore.FirstTaskError | src/modules/career-planner/store.ts:199-207 | none exactly when every call succeeded; otherwise the message of the earliest failure in milestone order |
| ClientStore.CareerPlannerStore.constructor | src/modules/career-planner/store.ts:32-59 | empty caches, no active goal, not loading, no messages, empty forms |
| ClientStore.CareerPlannerStore.SetNotice | src/modules/career-planner/store.ts:75-79 | a payload replaces the notice; none leaves the whole state unchanged |
| ClientStore.CareerPlannerStore.LoadGoals | src/modules/career-planner/store.ts:89-103 | on success the server's list and its first active goal; on failure only the error, with loading cleared |
| ClientStore.CareerPlannerStore.CreateGoal | src/modules/career-planner/store.ts:105-131 | a blank title only sets "Goal title is required."; a created goal goes in front, becomes active when active, and the form clears; a failure sets the error |
| ClientStore.CareerPlannerStore.ReceiveCreatedGoal | src/modules/career-planner/store.ts:110-130 | the outcome of the sent request, as above |
| ClientStore.CareerPlannerStore.UpdateGoal | src/modules/career-planner/store.ts:133-154 | the request sent; on success the record replaces every cached goal with its id |
| ClientStore.CareerPlannerStore.ArchiveGoal | src/modules/career-planner/store.ts:156-177 | sends the goal's id; the record replaces the cached one; the active goal is reselected only when it was the archived one; a notice replaces the old one |
| ClientStore.CareerPlannerStore.ReceiveArchivedGoal | src/modules/career-planner/store.ts:164-168 | the replacement and the reselection, nothing else |
| ClientStore.CareerPlannerStore.LoadGoalDetail | src/modules/career-planner/store.ts:179-211 | a failing goal or milestone call only sets the error; otherwise the goal is cached and made active, its milestones stored, and each milestone's tasks loaded |
| ClientStore.CareerPlannerStore.ReceiveGoalDetail | src/modules/career-planner/store.ts:189-207 | the caches as above, with the error of the first failing task call |
| ClientStore.CareerPlannerStore.LoadMilestoneTasks | src/modules/career-planner/store.ts:199-205 | the task cache is LoadTasks of the replies; the failure reported is FirstTaskError; nothing else changes |
| ClientStore.CareerPlannerStore.CreateMilestone | src/modules/career-planner/store.ts:241-268 | a blank title only sets the error; a created milestone goes in front of its goal's list and the form clears |
| ClientStore.CareerPlannerStore.ReceiveCreatedMilestone | src/modules/career-planner/store.ts:246-267 | the outcome of the sent request, as above |
| ClientStore.CareerPlannerStore.CreateTask | src/modules/career-planner/store.ts:293-320 | a blank title only sets the error; a created task goes in front of its milestone's list and the form clears |
| ClientStore.CareerPlannerStore.ReceiveCreatedTask | src/modules/career-planner/store.ts:298-319 | the outcome of the sent request, as above |
| ClientStore.CareerPlannerStore.ApplyMilestoneStatus | src/modules/career-planner/store.ts:271-276 | snapshots the goal's list and shows the new status on it at once |
| ClientStore.CareerPlannerStore.SettleMilestoneStatus | src/modules/career-planner/store.ts:278-290 | success writes the server's record into the snapshot and the notice; failure restores the record's previous status and sets the error |
| ClientStore.CareerPlannerStore.SetMilestoneStatus | src/modules/career-planner/store.ts:270-291 | sends the milestone's id and the new status; the net effect of the two steps, stated on the state before the call |
| ClientStore.CareerPlannerStore.ApplyTaskStatus | src/modules/career-planner/store.ts:323-328 | snapshots the milestone's list and shows the new status on it at once |
| ClientStore.CareerPlannerStore.SettleTaskStatus | src/modules/career-planner/store.ts:330-341 | success writes the server's record into the snapshot; failure restores the previous status and sets the error |
| ClientStore.CareerPlannerStore.SetTaskStatus | src/modules/career-planner/store.ts:322-342 | sends the task's id and the new status; the net effect of the two steps, stated on the state before the call |
| Seqs.Filter | src/modules/career-planner/store.ts:231-232 | the kept elements are exactly those of the input that satisfy the test; no more of each than the input has |
| Seqs.FlatMap | src/modules/career-planner/store.ts:230 | an element is in the result exactly when it is in the list of some input element |
| Seqs.FindIndex | src/modules/career-planner/store.ts:96 | the first index whose element satisfies the test, or none exactly when no element does |
| Seqs.MapWhere | src/modules/career-planner/store.ts:274-276 | same length; exactly the selected elements are rewritten, the rest are kept |
| Seqs.SliceTo | src/modules/career-planner/store.ts:238 | a prefix whose length is `min(end, n)` for a non-negative end and `max(n + end, 0)` for a negative one |
| Seqs.SortBy | src/modules/career-planner/store.ts:233-237 | a permutation of the input |
| Seqs.SortBySorted | src/modules/career-planner/store.ts:233-237 | with a total preorder, the result is sorted |
| Text.Trim | src/modules/career-planner/store.ts:106 | no longer than its input, with no whitespace at either end |
| Text.TrimEmptyIffBlank | src/modules/career-planner/store.ts:106 | the trimmed text is empty exactly when every character is whitespace |
| Text.TrimIdempotent | src/modules/career-planner/store.ts:115 | trimming twice is trimming once |
| Text.TrimPadding | src/modules/career-planner/store.ts:115 | trimming removes exactly the whitespace padding around trimmed text |
| Text.ParseIntToString | src/actions/careerPlanner.ts:190 | the decimal rendering of an integer parses back to it |
| Text.NatToString | src/actions/careerPlanner.ts:190 | a non-empty run of decimal digits without a leading zero |
| Text.IntToStringInjective | src/actions/careerPlanner.ts:190 | distinct integers render differently |
| Text.StripTrailingSlash | src/lib/notifyParent.ts:17 | exactly one trailing "/" is removed when present; otherwise the text is unchanged |
| Text.Truthy | src/lib/notifyParent.ts:15-16 | an optional string is truthy exactly when it is neither absent nor empty |
| NotifyParent.ResolveNotificationUrl | src/lib/notifyParent.ts:14-18 | a non-empty override wins; with no usable base the result is null; otherwise the stripped base plus "/api/webhooks/notifications.json" |
| NotifyParent.NotificationUrlFromBase | src/lib/notifyParent.ts:17 | the resolved URL ends in the notification path, and what precedes it is the base less at most one "/" |
| NotifyParent.TrailingSlashIrrelevant | src/lib/notifyParent.ts:17 | a base with one trailing "/" resolves like the base without it |
| NotifyParent.BuildBody | src/lib/notifyParent.ts:27-35 | appKey, userId, title and message copied; level "info", meta null and createdAt now unless given; given values pass through |
| NotifyParent.BodyIgnoresClockWhenDated | src/lib/notifyParent.ts:34 | the clock matters only when createdAt is left out |
| NotifyParent.BodyDefaultsIdempotent | src/lib/notifyParent.ts:32-34 | feeding a built body back in with every field given builds the same body |
| PushActivity.ResolveActivityUrl | src/lib/pushActivity.ts:4-8 | a non-empty override wins; with no usable base the result is null; otherwise the stripped base plus the activity path |
| PushActivity.ActivityUrlFromBase | src/lib/pushActivity.ts:8 | the resolved URL ends in the activity path, and what precedes it is the base less at most one "/" |
| PushActivity.BuildActivityPayload | src/lib/pushActivity.ts:28-33 | userId, activity and summary pass through unchanged; appId is the application key |

## Left out

- Storage and framework. The database engine, Astro actions and the request
  plumbing are replaced by in-memory tables and a class. Of the zod schemas,
  only the `min(1)` title checks are modelled; integer and enum input shapes
  are given by Dafny's types.
- `requireUser` and `requirePro` are not part of this model. The user is a
  parameter and the pro check is a flag. `FREE_LIMITS` is a `Limits`
  parameter, since its values do not appear in the files modelled.
- The webhook transport. `postWebhook`, environment variables, the secret,
  the swallowed try/catch and dev logging are left out. The environment
  values enter as the URL functions' parameters.
- `pushSummary` and the `notifyParent` calls in the server actions.
  `pushSummary` awaits `pushCareerPlannerSummary`, imported from
  src/lib/pushActivity.ts, which exports only `pushCareerPlannerActivity`,
  so that import does not resolve. The call runs after each row is written
  and outside any try/catch; the model treats it, and the `notifyParent`
  calls, as no-ops on the tables. The call sites pass
  fields (`eventType`, `url`) that the notification payload type does not
  declare, and omit its `appKey` and `message`. That mismatch is not modelled.
- The dashboard summary's schema is not part of this model.
  `BuildActivityPayload` carries the summary as a type parameter.
- The notification `meta` record holds arbitrary JSON values. It is modelled
  as a map from strings to strings that is copied unchanged.
- Concurrency. The two `Promise.all` calls in `loadGoalDetail` run in
  sequence in milestone order. The first failure in that order becomes the
  error message. Interleavings of concurrent store calls and quota races on
  the server are not modelled.
- Integer width. Ids, counts and instants are unbounded integers. The
  JavaScript numbers behind them lose precision above 2^53, and `${id}`
  switches to exponent form from 1e21; neither is modelled.
- Dates. Parsing of `targetDate`/`dueDate` strings, ISO formatting,
  invalid dates (NaN) and the infinite "no due date" value are left out.
  Dates are integer instants or absent, and an absent due date sorts last.
- ClientStore.NextDue: JavaScript's sort is stable, and the model uses a
  stable insertion sort. The contracts state the exact length, sortedness
  and containment in the open tasks, but not the relative order of tasks
  due at the same instant.
- The store's `init`, `setBillingStatus`, the `isPaid` flag, the `activeGoal`
  getter and the Alpine registration are left out.
- ClientStore.UnwrapError: a failed reply's error, whatever object carries
  it, is a string. An error object with no message is thrown in JavaScript
  as its string form; the model uses "Request failed." for that case.
- ClientStore.ErrorText: every error the modelled actions catch comes from
  `unwrap` and so has a non-empty message. The per-action fallbacks
  ("Unable to archive goal." and the rest) then never show; they apply only
  to errors thrown elsewhere (network failures, exceptions in the action
  runtime), which are not modelled.
- ClientStore.GetNextDueTasks: the limit is an explicit parameter. The
  default `limit = 3` is the separate `GetNextDueTasksByDefault`.
- A reply whose `goal`, `milestone` or `task` field is missing is not
  modelled. Every successful reply carries its record, which is the server's
  behaviour whenever its insert or update returns a row.
- A `goals`, `milestones` or `tasks` field that is missing from a
  successful list reply (the `?? []` fallback of `loadGoals` and
  `loadGoalDetail`) is not modelled. A successful reply
  always carries a list.

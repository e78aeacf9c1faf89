/** The records the server stores and the client mirrors: career goals,
    their milestones and the milestones' tasks, plus the notices and the
    action inputs and replies that travel between client and server. */
module Types {
  import opened Wrappers

  /** The acting user's identity, as the authentication layer supplies it. */
  type UserId = string

  /** A point in time, in milliseconds; the model never parses or formats dates. */
  type Instant = int

  /** The application's key, the `appId` its dashboard summary carries. */
  const AppKey: string := "career-planner"

  datatype GoalStatus = Active | Archived

  /** The status shared by milestones and tasks. */
  datatype WorkStatus = Todo | Doing | Done

  datatype Goal = Goal(
    id: int,
    userId: UserId,
    title: string,
    targetRole: Option<string>,
    notes: Option<string>,
    status: GoalStatus,
    createdAt: Instant,
    updatedAt: Instant)

  datatype Milestone = Milestone(
    id: int,
    userId: UserId,
    goalId: int,
    title: string,
    description: Option<string>,
    targetDate: Option<Instant>,
    status: WorkStatus,
    completedAt: Option<Instant>,
    createdAt: Instant,
    updatedAt: Instant)

  datatype Task = Task(
    id: int,
    userId: UserId,
    milestoneId: int,
    title: string,
    notes: Option<string>,
    dueDate: Option<Instant>,
    status: WorkStatus,
    completedAt: Option<Instant>,
    createdAt: Instant,
    updatedAt: Instant)

  /** A user-facing event description produced by archival and completion. */
  datatype Notice = Notice(eventType: string, title: string, url: string)

  /** The inputs of the create and update actions. An absent optional field is
      `None`; a date is already an instant, with the empty form value as `None`. */
  datatype GoalInput = GoalInput(title: string, targetRole: Option<string>, notes: Option<string>)
  datatype GoalUpdateInput = GoalUpdateInput(id: int, title: string, targetRole: Option<string>, notes: Option<string>)
  datatype MilestoneInput = MilestoneInput(goalId: int, title: string, description: Option<string>, targetDate: Option<Instant>)
  datatype MilestoneUpdateInput = MilestoneUpdateInput(id: int, title: string, description: Option<string>, targetDate: Option<Instant>)
  datatype TaskInput = TaskInput(milestoneId: int, title: string, notes: Option<string>, dueDate: Option<Instant>)
  datatype TaskUpdateInput = TaskUpdateInput(id: int, title: string, notes: Option<string>, dueDate: Option<Instant>)

  /** The replies of `archiveGoal` and `setMilestoneStatus`, which may carry a notice. */
  datatype GoalReply = GoalReply(goal: Goal, notice: Option<Notice>)
  datatype MilestoneReply = MilestoneReply(milestone: Milestone, notice: Option<Notice>)
}

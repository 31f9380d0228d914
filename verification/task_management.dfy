/** The task board: the searchable, filterable task list, the one-step status
    advance offered on each card, and the row a new task is inserted as. */
module TaskManagement {
  import opened Types
  import opened Seqs
  import opened Text

  /** The status selector: "all" or one status. */
  datatype StatusFilter = AnyStatus | OnlyStatus(status: Status)

  /** The priority selector: "all" or one priority. */
  datatype PriorityFilter = AnyPriority | OnlyPriority(priority: Priority)

  /** The search box and the two selectors above the task list. */
  datatype TaskQuery = TaskQuery(term: string, status: StatusFilter, priority: PriorityFilter)

  /** The selectors' initial state: empty search, all statuses, all priorities. */
  const ShowAll: TaskQuery := TaskQuery("", AnyStatus, AnyPriority)

  predicate StatusAccepts(f: StatusFilter, s: Status) {
    f.AnyStatus? || f.status == s
  }

  predicate PriorityAccepts(f: PriorityFilter, p: Priority) {
    f.AnyPriority? || f.priority == p
  }

  /** A task is listed when it matches the search and both selectors. */
  predicate Keeps(q: TaskQuery, t: Task) {
    && SearchMatches(t.title, t.description, q.term)
    && StatusAccepts(q.status, t.status)
    && PriorityAccepts(q.priority, t.priority)
  }

  /** The tasks the board lists for query `q`, in the fetched order. */
  function FilterTasks(tasks: seq<Task>, q: TaskQuery): (r: seq<Task>)
    ensures |r| <= |tasks|
    ensures forall i :: 0 <= i < |r| ==> r[i] in tasks
    ensures forall i :: 0 <= i < |r| ==> StatusAccepts(q.status, r[i].status)
    ensures forall i :: 0 <= i < |r| ==> PriorityAccepts(q.priority, r[i].priority)
    ensures forall i :: 0 <= i < |r| ==> SearchMatches(r[i].title, r[i].description, q.term)
    ensures forall i :: 0 <= i < |tasks| && Keeps(q, tasks[i]) ==> tasks[i] in r
  {
    Filter(tasks, (t: Task) => Keeps(q, t))
  }

  /** The listed tasks keep their relative order. */
  lemma FilterTasksIsSubseq(tasks: seq<Task>, q: TaskQuery)
    ensures SubseqOf(FilterTasks(tasks, q), tasks)
  {
    FilterIsSubseq(tasks, (t: Task) => Keeps(q, t));
  }

  /** With the selectors in their initial state every task is listed. */
  lemma ShowAllKeepsEverything(tasks: seq<Task>)
    ensures FilterTasks(tasks, ShowAll) == tasks
  {
    forall i | 0 <= i < |tasks|
      ensures Keeps(ShowAll, tasks[i])
    {
      EmptyTermMatches(tasks[i].title, tasks[i].description);
    }
    FilterKeepsAll(tasks, (t: Task) => Keeps(ShowAll, t));
  }

  /** Position of a status along the progression. */
  function Stage(s: Status): nat {
    match s
    case NotStarted => 0
    case InProgress => 1
    case Completed => 2
  }

  /** The status the card's advance button moves to: "Start" moves a new task
      in progress, "Complete" completes it; a completed task has no button. */
  function NextStatus(s: Status): (r: Option<Status>)
    ensures r.None? <==> s == Completed
    ensures r.Some? ==> Stage(r.value) == Stage(s) + 1
  {
    match s
    case NotStarted => Some(InProgress)
    case InProgress => Some(Completed)
    case Completed => None
  }

  /** Pressing the advance button repeatedly: at most `steps` presses. */
  function AdvanceTimes(s: Status, steps: nat): Status
    decreases steps
  {
    if steps == 0 then s
    else match NextStatus(s)
      case None => s
      case Some(t) => AdvanceTimes(t, steps - 1)
  }

  /** The progression ends in Completed, and takes exactly as many presses as
      there are stages left. */
  lemma {:induction false} AdvanceReachesCompleted(s: Status, steps: nat)
    ensures AdvanceTimes(s, steps) == Completed <==> steps >= 2 - Stage(s)
    decreases steps
  {
    if steps > 0 && s != Completed {
      AdvanceReachesCompleted(NextStatus(s).value, steps - 1);
    }
  }

  /** The update the advance button sends: the next status, stamped with `now`;
      nothing is sent for a completed task. */
  function Advance(t: Task, now: Millis): (r: Option<Task>)
    ensures r.None? <==> t.status == Completed
    ensures r.Some? ==> Stage(r.value.status) == Stage(t.status) + 1
    ensures r.Some? ==> r.value.updatedAt == now
    ensures r.Some? ==> r.value.(status := t.status, updatedAt := t.updatedAt) == t
  {
    match NextStatus(t.status)
    case None => None
    case Some(s) => Some(t.(status := s, updatedAt := now))
  }

  /** The fields of the "create task" form. */
  datatype TaskDraft = TaskDraft(
    title: string,
    description: string,
    assignedTo: UserId,
    priority: Priority,
    dueDate: Millis)

  /** The row inserted for a new task. */
  datatype NewTaskRow = NewTaskRow(draft: TaskDraft, createdBy: UserId, status: Status)

  /** Submitting the form: nothing is inserted without a signed-in user;
      otherwise the draft is inserted as created by that user, not started. */
  function CreateTask(draft: TaskDraft, user: Option<User>): (r: Option<NewTaskRow>)
    ensures r.Some? <==> user.Some?
    ensures r.Some? ==> r.value.status == NotStarted && Stage(r.value.status) == 0
    ensures r.Some? ==> r.value.createdBy == user.value.id && r.value.draft == draft
  {
    match user
    case None => None
    case Some(u) => Some(NewTaskRow(draft, u.id, NotStarted))
  }
}

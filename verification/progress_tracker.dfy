/** The progress tracker: per-member statistics, project-wide counts and the
    three-column kanban board. */
module ProgressTracker {
  import opened Types
  import opened Seqs
  import opened TaskStats

  datatype MemberStats = MemberStats(name: string, summary: Summary)

  /** One row per team member, in member order, summarising the tasks
      assigned to that member and no others. */
  function TeamStats(members: seq<User>, tasks: seq<Task>): (r: seq<MemberStats>)
    ensures |r| == |members|
    ensures forall i :: 0 <= i < |r| ==> r[i].name == members[i].name
    ensures forall i :: 0 <= i < |r| ==>
      r[i].summary.total == Count(tasks, (t: Task) => t.assignedTo == members[i].id)
    ensures forall i :: 0 <= i < |r| ==>
      r[i].summary.completed == CountStatus(AssignedTo(tasks, members[i].id), Completed)
    ensures forall i :: 0 <= i < |r| ==>
      r[i].summary.inProgress == CountStatus(AssignedTo(tasks, members[i].id), InProgress)
    ensures forall i :: 0 <= i < |r| ==>
      r[i].summary.completionRate == CompletionRate(r[i].summary.completed, r[i].summary.total)
    ensures forall i :: 0 <= i < |r| ==>
      r[i].summary.completed + r[i].summary.inProgress <= r[i].summary.total
    ensures forall i :: 0 <= i < |r| ==>
      r[i].summary.completionRate <= 100 && (r[i].summary.total == 0 ==> r[i].summary.completionRate == 0)
  {
    seq(|members|, i requires 0 <= i < |members| =>
      MemberStats(members[i].name, Summarize(AssignedTo(tasks, members[i].id))))
  }

  datatype OverallStats = OverallStats(total: nat, completed: nat, inProgress: nat, notStarted: nat)

  /** Project-wide counts: every task is counted in exactly one status. */
  function Overall(tasks: seq<Task>): (s: OverallStats)
    ensures s.total == |tasks|
    ensures s.completed + s.inProgress + s.notStarted == s.total
    ensures s.completed == CountStatus(tasks, Completed)
    ensures s.inProgress == CountStatus(tasks, InProgress)
    ensures s.notStarted == CountStatus(tasks, NotStarted)
  {
    StatusCountsSum(tasks);
    OverallStats(|tasks|, CountStatus(tasks, Completed), CountStatus(tasks, InProgress),
                 CountStatus(tasks, NotStarted))
  }

  datatype Column = Column(status: Status, tasks: seq<Task>)

  /** The kanban board: not started, in progress and completed, left to right. */
  function Kanban(tasks: seq<Task>): (board: seq<Column>)
    ensures |board| == 3
    ensures board[0].status == NotStarted && board[1].status == InProgress && board[2].status == Completed
    ensures forall i :: 0 <= i < |board[0].tasks| ==> board[0].tasks[i].status == NotStarted
    ensures forall i :: 0 <= i < |board[1].tasks| ==> board[1].tasks[i].status == InProgress
    ensures forall i :: 0 <= i < |board[2].tasks| ==> board[2].tasks[i].status == Completed
    ensures SubseqOf(board[0].tasks, tasks) && SubseqOf(board[1].tasks, tasks) && SubseqOf(board[2].tasks, tasks)
    ensures |board[0].tasks| + |board[1].tasks| + |board[2].tasks| == |tasks|
  {
    var notStarted := Column(NotStarted, WithStatus(tasks, NotStarted));
    var inProgress := Column(InProgress, WithStatus(tasks, InProgress));
    var completed := Column(Completed, WithStatus(tasks, Completed));
    StatusCountsSum(tasks);
    StatusListIsSubseq(tasks, NotStarted);
    StatusListIsSubseq(tasks, InProgress);
    StatusListIsSubseq(tasks, Completed);
    [notStarted, inProgress, completed]
  }

  /** The board partitions the task list: together its columns hold every
      task exactly as often as the list does. */
  lemma KanbanPartitions(tasks: seq<Task>)
    ensures var board := Kanban(tasks);
      multiset(board[0].tasks) + multiset(board[1].tasks) + multiset(board[2].tasks) == multiset(tasks)
  {
    StatusPartition(tasks);
  }
}

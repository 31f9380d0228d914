/** Task counting shared by the profile, progress tracker, leaderboard and
    dashboard screens: tasks by status, and the rounded completion percentage. */
module TaskStats {
  import opened Types
  import opened Seqs

  /** The tasks of `tasks` in status `s`, in list order. */
  function WithStatus(tasks: seq<Task>, s: Status): (r: seq<Task>)
    ensures forall i :: 0 <= i < |r| ==> r[i].status == s
  {
    Filter(tasks, (t: Task) => t.status == s)
  }

  /** A status list keeps the tasks in list order. */
  lemma StatusListIsSubseq(tasks: seq<Task>, s: Status)
    ensures SubseqOf(WithStatus(tasks, s), tasks)
  {
    FilterIsSubseq(tasks, (t: Task) => t.status == s);
  }

  function CountStatus(tasks: seq<Task>, s: Status): (n: nat)
    ensures n <= |tasks|
  {
    |WithStatus(tasks, s)|
  }

  /** The tasks assigned to the member with id `id`. */
  function AssignedTo(tasks: seq<Task>, id: UserId): (r: seq<Task>)
    ensures forall i :: 0 <= i < |r| ==> r[i].assignedTo == id && r[i] in tasks
    ensures forall i :: 0 <= i < |tasks| && tasks[i].assignedTo == id ==> tasks[i] in r
    ensures SubseqOf(r, tasks)
    ensures forall i {:trigger multiset(r)[tasks[i]]} :: 0 <= i < |tasks| ==>
      multiset(r)[tasks[i]] == if tasks[i].assignedTo == id then multiset(tasks)[tasks[i]] else 0
  {
    FilterIsSubseq(tasks, (t: Task) => t.assignedTo == id);
    Filter(tasks, (t: Task) => t.assignedTo == id)
  }

  /** Every task is in exactly one of the three states. */
  lemma {:induction false} StatusCountsSum(tasks: seq<Task>)
    ensures CountStatus(tasks, NotStarted) + CountStatus(tasks, InProgress)
            + CountStatus(tasks, Completed) == |tasks|
  {
    if |tasks| > 0 {
      StatusCountsSum(tasks[1..]);
    }
  }

  /** The three status lists split the task list: together they hold each
      task exactly as often as the list does. */
  lemma StatusPartition(tasks: seq<Task>)
    ensures multiset(WithStatus(tasks, NotStarted)) + multiset(WithStatus(tasks, InProgress))
            + multiset(WithStatus(tasks, Completed)) == multiset(tasks)
  {
  }

  /** Two states never exceed the whole list. */
  lemma CompletedPlusInProgress(tasks: seq<Task>)
    ensures CountStatus(tasks, Completed) + CountStatus(tasks, InProgress) <= |tasks|
  {
    StatusCountsSum(tasks);
  }

  /** `Math.round(completed / total * 100)`, or 0 when there are no tasks:
      the percentage rounded to the nearest integer, halves rounded up. */
  function CompletionRate(completed: nat, total: nat): (rate: nat)
    ensures total == 0 ==> rate == 0
    ensures total > 0 ==> 2 * total * rate <= 200 * completed + total < 2 * total * (rate + 1)
    ensures completed <= total ==> rate <= 100
    ensures completed == 0 ==> rate == 0
    ensures 0 < total == completed ==> rate == 100
  {
    if total == 0 then 0
    else
      var rate := (200 * completed + total) / (2 * total);
      RoundedPercentBounds(completed, total, rate);
      rate
  }

  lemma RoundedPercentBounds(completed: nat, total: nat, rate: nat)
    requires total > 0 && rate == (200 * completed + total) / (2 * total)
    ensures 2 * total * rate <= 200 * completed + total < 2 * total * (rate + 1)
    ensures completed <= total ==> rate <= 100
    ensures completed == 0 ==> rate == 0
    ensures completed == total ==> rate == 100
  {
    var d := 2 * total;
    var n := 200 * completed + total;
    DivBounds(n, d);
    if completed <= total && rate > 100 {
      MulMonotone(101, rate, d);
    }
    if completed == total && rate < 100 {
      MulMonotone(rate + 1, 100, d);
    }
  }

  lemma DivBounds(n: nat, d: nat)
    requires d > 0
    ensures d * (n / d) <= n < d * (n / d + 1)
  {
  }

  lemma MulMonotone(a: int, b: int, c: nat)
    requires a <= b
    ensures a * c <= b * c
  {
  }

  /** The counters one screen shows for a list of tasks. */
  datatype Summary = Summary(total: nat, completed: nat, inProgress: nat, completionRate: nat)

  /** Total, completed, in-progress and completion rate of `tasks`, as the
      profile and the progress tracker compute them. */
  function Summarize(tasks: seq<Task>): (s: Summary)
    ensures s.total == |tasks|
    ensures s.completed == CountStatus(tasks, Completed)
    ensures s.inProgress == CountStatus(tasks, InProgress)
    ensures s.completionRate == CompletionRate(s.completed, s.total)
    ensures s.completed + s.inProgress <= s.total
    ensures s.total - s.completed - s.inProgress == CountStatus(tasks, NotStarted)
    ensures s.completionRate <= 100
    ensures s.total == 0 ==> s.completionRate == 0
    ensures s.total > 0 && s.completed == s.total ==> s.completionRate == 100
  {
    StatusCountsSum(tasks);
    var completed := CountStatus(tasks, Completed);
    Summary(|tasks|, completed, CountStatus(tasks, InProgress), CompletionRate(completed, |tasks|))
  }
}

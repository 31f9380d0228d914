/** The team leaderboard: points per member from their completed tasks, the
    ranking by points, the rank marks and the achievement badges. */
module Leaderboard {
  import opened Types
  import opened Seqs
  import opened TaskStats

  /** Base points for each completed task. */
  const BasePoints: nat := 10
  /** Extra points for a completed high-priority task. */
  const HighPriorityBonus: nat := 5
  /** Extra points for a completed task whose due date has not passed. */
  const OnTimeBonus: nat := 2
  /** "This week" reaches back seven days from now. */
  const WeekMillis: int := 7 * MillisPerDay

  /** What one completed task is worth on its own. */
  function TaskPoints(t: Task, now: Millis): nat {
    BasePoints
    + (if t.priority == High then HighPriorityBonus else 0)
    + (if t.dueDate >= now then OnTimeBonus else 0)
  }

  /** Task by task: the sum of what each completed task is worth. */
  function SumTaskPoints(completed: seq<Task>, now: Millis): nat {
    if |completed| == 0 then 0 else TaskPoints(completed[0], now) + SumTaskPoints(completed[1..], now)
  }

  /** The screen's formula: 10 per completed task, 5 more per completed
      high-priority task, 2 more per completed task not yet past due. */
  function Points(completed: seq<Task>, now: Millis): (p: nat)
    ensures BasePoints * |completed| <= p <= 17 * |completed|
    ensures p == 0 <==> |completed| == 0
  {
    BasePoints * |completed|
    + HighPriorityBonus * Count(completed, (t: Task) => t.priority == High)
    + OnTimeBonus * Count(completed, (t: Task) => t.dueDate >= now)
  }

  /** The formula over counts agrees with scoring each task separately. */
  lemma {:induction false} PointsArePerTaskSum(completed: seq<Task>, now: Millis)
    ensures Points(completed, now) == SumTaskPoints(completed, now)
  {
    if |completed| > 0 {
      PointsArePerTaskSum(completed[1..], now);
    }
  }

  /** A member's row: the member, their task counts, completion rate and points. */
  datatype Entry = Entry(
    member: User,
    totalTasks: nat,
    completedTasks: nat,
    thisWeekTasks: nat,
    completionRate: nat,
    points: nat)

  /** Tasks created no earlier than seven days before `now`. */
  function CreatedThisWeek(tasks: seq<Task>, now: Millis): (r: seq<Task>)
    ensures forall i :: 0 <= i < |r| ==> r[i].createdAt >= now - WeekMillis
    ensures forall i :: 0 <= i < |tasks| && tasks[i].createdAt >= now - WeekMillis ==> tasks[i] in r
    ensures SubseqOf(r, tasks)
    ensures forall i {:trigger multiset(r)[tasks[i]]} :: 0 <= i < |tasks| ==>
      multiset(r)[tasks[i]] == if tasks[i].createdAt >= now - WeekMillis then multiset(tasks)[tasks[i]] else 0
  {
    FilterIsSubseq(tasks, (t: Task) => t.createdAt >= now - WeekMillis);
    Filter(tasks, (t: Task) => t.createdAt >= now - WeekMillis)
  }

  /** The row for `member`, computed from the tasks assigned to them. */
  function BuildEntry(member: User, tasks: seq<Task>, now: Millis): (e: Entry)
    ensures e.member == member
    ensures e.totalTasks == |AssignedTo(tasks, member.id)|
    ensures e.completedTasks == CountStatus(AssignedTo(tasks, member.id), Completed)
    ensures e.thisWeekTasks == |CreatedThisWeek(AssignedTo(tasks, member.id), now)|
    ensures e.completionRate == CompletionRate(e.completedTasks, e.totalTasks)
    ensures e.completedTasks <= e.totalTasks && e.thisWeekTasks <= e.totalTasks
    ensures e.completionRate <= 100
    ensures e.totalTasks == 0 ==> e.completionRate == 0
    ensures e.totalTasks > 0 && e.completedTasks == e.totalTasks ==> e.completionRate == 100
    ensures BasePoints * e.completedTasks <= e.points <= 17 * e.completedTasks
    ensures e.points == SumTaskPoints(WithStatus(AssignedTo(tasks, member.id), Completed), now)
  {
    var mine := AssignedTo(tasks, member.id);
    var completed := WithStatus(mine, Completed);
    PointsArePerTaskSum(completed, now);
    Entry(member, |mine|, |completed|, |CreatedThisWeek(mine, now)|,
          CompletionRate(|completed|, |mine|), Points(completed, now))
  }

  /** Non-increasing points from first to last. */
  predicate Descending(s: seq<Entry>) {
    forall i, j :: 0 <= i < j < |s| ==> s[i].points >= s[j].points
  }

  /** Places `e` before the first entry with no more points than it has. */
  function Insert(e: Entry, sorted: seq<Entry>): (r: seq<Entry>)
    requires Descending(sorted)
    ensures Descending(r)
    ensures multiset(r) == multiset(sorted) + multiset{e}
    ensures |r| == |sorted| + 1
    ensures r[0] == e || (|sorted| > 0 && r[0] == sorted[0])
  {
    if |sorted| == 0 || e.points >= sorted[0].points then
      ConsDescending(e, sorted);
      [e] + sorted
    else
      var rest := Insert(e, sorted[1..]);
      assert sorted == [sorted[0]] + sorted[1..];
      ConsDescending(sorted[0], rest);
      [sorted[0]] + rest
  }

  /** An entry scoring at least the head of a descending list can go in front. */
  lemma ConsDescending(x: Entry, s: seq<Entry>)
    requires Descending(s) && (|s| > 0 ==> x.points >= s[0].points)
    ensures Descending([x] + s)
  {
    var r := [x] + s;
    forall i, j | 0 <= i < j < |r|
      ensures r[i].points >= r[j].points
    {
      if i == 0 {
        assert r[j] == s[j - 1];
      } else {
        assert r[i] == s[i - 1] && r[j] == s[j - 1];
      }
    }
  }

  /** The sort by descending points. JavaScript's sort is stable, so members
      with equal points keep their relative order. */
  function SortByPoints(entries: seq<Entry>): (r: seq<Entry>)
    ensures Descending(r)
    ensures multiset(r) == multiset(entries)
    ensures |r| == |entries|
  {
    if |entries| == 0 then []
    else
      assert entries == [entries[0]] + entries[1..];
      Insert(entries[0], SortByPoints(entries[1..]))
  }

  predicate HasPoints(e: Entry, p: nat) {
    e.points == p
  }

  /** The test for the entries scoring exactly `p`. */
  function PointsIs(p: nat): Entry -> bool {
    (x: Entry) => HasPoints(x, p)
  }

  /** Inserting `e` puts it ahead of the entries it ties with and keeps their order. */
  lemma {:induction false} InsertKeepsTies(e: Entry, sorted: seq<Entry>, p: nat)
    requires Descending(sorted)
    ensures Filter(Insert(e, sorted), PointsIs(p))
         == (if e.points == p then [e] else []) + Filter(sorted, PointsIs(p))
  {
    if |sorted| > 0 && e.points < sorted[0].points {
      InsertKeepsTies(e, sorted[1..], p);
      InsertPassesHead(e, sorted);
      TiesStep(e, sorted, Insert(e, sorted[1..]), p);
    } else {
      InsertInFront(e, sorted);
      FilterCons(e, sorted, PointsIs(p));
    }
  }

  /** An entry scoring at least the head goes in front of it. */
  lemma InsertInFront(e: Entry, sorted: seq<Entry>)
    requires Descending(sorted) && (|sorted| > 0 ==> e.points >= sorted[0].points)
    ensures Insert(e, sorted) == [e] + sorted
  {
  }

  /** An entry scoring less than the head goes behind it. */
  lemma InsertPassesHead(e: Entry, sorted: seq<Entry>)
    requires Descending(sorted) && |sorted| > 0 && e.points < sorted[0].points
    ensures Insert(e, sorted) == [sorted[0]] + Insert(e, sorted[1..])
  {
  }

  /** One step of `Insert` passing over a higher-scoring head: the head cannot
      tie with `e`, so putting it back in front of both sides keeps them equal. */
  lemma TiesStep(e: Entry, sorted: seq<Entry>, rest: seq<Entry>, p: nat)
    requires |sorted| > 0 && e.points < sorted[0].points
    requires Filter(rest, PointsIs(p)) == (if e.points == p then [e] else []) + Filter(sorted[1..], PointsIs(p))
    ensures Filter([sorted[0]] + rest, PointsIs(p)) == (if e.points == p then [e] else []) + Filter(sorted, PointsIs(p))
  {
    assert sorted == [sorted[0]] + sorted[1..];
    FilterSharedHead(sorted[0], rest, sorted[1..], if e.points == p then [e] else [], PointsIs(p));
  }

  /** Stability: the entries with any given score appear in the same order as
      in the unsorted list. */
  lemma {:induction false} SortIsStable(entries: seq<Entry>, p: nat)
    ensures Filter(SortByPoints(entries), PointsIs(p))
         == Filter(entries, PointsIs(p))
  {
    if |entries| > 0 {
      SortIsStable(entries[1..], p);
      InsertKeepsTies(entries[0], SortByPoints(entries[1..]), p);
    }
  }

  /** One unsorted row per member, in member order. */
  function Entries(members: seq<User>, tasks: seq<Task>, now: Millis): (r: seq<Entry>)
    ensures |r| == |members|
    ensures forall i :: 0 <= i < |r| ==> r[i].member == members[i]
    ensures forall i :: 0 <= i < |r| ==> r[i] == BuildEntry(members[i], tasks, now)
    ensures forall i :: 0 <= i < |r| ==> r[i].completedTasks <= r[i].totalTasks
    ensures forall i :: 0 <= i < |r| ==> r[i].completionRate <= 100
  {
    seq(|members|, i requires 0 <= i < |members| => BuildEntry(members[i], tasks, now))
  }

  /** The leaderboard: one row per team member, highest points first. */
  function Ranking(members: seq<User>, tasks: seq<Task>, now: Millis): (r: seq<Entry>)
    ensures |r| == |members|
    ensures Descending(r)
    ensures multiset(r) == multiset(Entries(members, tasks, now))
    ensures forall i :: 0 <= i < |r| ==> r[i].completedTasks <= r[i].totalTasks
    ensures forall i :: 0 <= i < |r| ==> r[i].completionRate <= 100
  {
    var entries := Entries(members, tasks, now);
    var r := SortByPoints(entries);
    SameMultisetSameMembers(r, entries);
    r
  }

  lemma SameMultisetSameMembers(a: seq<Entry>, b: seq<Entry>)
    requires multiset(a) == multiset(b)
    ensures forall i :: 0 <= i < |a| ==> a[i] in b
  {
    forall i | 0 <= i < |a|
      ensures a[i] in b
    {
      assert a[i] in multiset(a);
    }
  }

  /** Every team member's row appears in the ranking. */
  lemma RankingHasEveryMember(members: seq<User>, tasks: seq<Task>, now: Millis, k: nat)
    requires k < |members|
    ensures BuildEntry(members[k], tasks, now) in Ranking(members, tasks, now)
  {
    var entries := Entries(members, tasks, now);
    assert entries[k] in multiset(entries);
  }

  /** Members with equal points keep their member order in the ranking, which
      decides who takes the crown and the podium places among ties. */
  lemma RankingIsStable(members: seq<User>, tasks: seq<Task>, now: Millis, p: nat)
    ensures Filter(Ranking(members, tasks, now), PointsIs(p)) == Filter(Entries(members, tasks, now), PointsIs(p))
  {
    SortIsStable(Entries(members, tasks, now), p);
  }

  /** The "Top Performers" podium: the first three rows. */
  function Podium(ranking: seq<Entry>): (top: seq<Entry>)
    requires Descending(ranking)
    ensures |top| == if |ranking| < 3 then |ranking| else 3
    ensures top == ranking[..|top|]
    ensures forall i, j :: 0 <= i < |top| <= j < |ranking| ==> top[i].points >= ranking[j].points
  {
    if |ranking| < 3 then ranking else ranking[..3]
  }

  datatype Icon = Crown | Medal | Star

  /** The mark next to a row: icon and colour by position. */
  datatype RankMark = RankMark(icon: Icon, color: string)

  function RankMarkAt(index: nat): (m: RankMark)
    ensures m.icon == Crown <==> index == 0
    ensures m.icon == Medal <==> index == 1 || index == 2
    ensures m.icon == Star <==> index >= 3
  {
    if index == 0 then RankMark(Crown, "#FFD700")
    else if index == 1 then RankMark(Medal, "#C0C0C0")
    else if index == 2 then RankMark(Medal, "#CD7F32")
    else RankMark(Star, "#6B7280")
  }

  datatype Achievement = Achievement(title: string, achieved: bool)

  /** The two badges a row can earn. */
  datatype Badge = TaskMaster | ConsistencyKing

  /** "Task Master": ten completed tasks; "Consistency King": a completion
      rate of at least 90. */
  predicate Earns(b: Badge, e: Entry) {
    match b
    case TaskMaster => e.completedTasks >= 10
    case ConsistencyKing => e.completionRate >= 90
  }

  /** The three badges under the rankings; "Team Player" is always shown as earned. */
  function Achievements(ranking: seq<Entry>): (a: seq<Achievement>)
    ensures |a| == 3
    ensures a[0].title == "Task Master" && a[1].title == "Consistency King" && a[2].title == "Team Player"
    ensures a[0].achieved <==> exists i :: 0 <= i < |ranking| && Earns(TaskMaster, ranking[i])
    ensures a[1].achieved <==> exists i :: 0 <= i < |ranking| && Earns(ConsistencyKing, ranking[i])
    ensures a[2].achieved
  {
    [Achievement("Task Master", AnySatisfies(ranking, (e: Entry) => Earns(TaskMaster, e))),
     Achievement("Consistency King", AnySatisfies(ranking, (e: Entry) => Earns(ConsistencyKing, e))),
     Achievement("Team Player", true)]
  }

  /** Reordering the rows does not change whether some row earns a badge. */
  lemma EarnedPermutation(ranking: seq<Entry>, entries: seq<Entry>, b: Badge)
    requires multiset(ranking) == multiset(entries)
    ensures (exists i :: 0 <= i < |ranking| && Earns(b, ranking[i]))
        <==> exists k :: 0 <= k < |entries| && Earns(b, entries[k])
  {
    if exists i :: 0 <= i < |ranking| && Earns(b, ranking[i]) {
      var i :| 0 <= i < |ranking| && Earns(b, ranking[i]);
      assert ranking[i] in multiset(entries);
      var k :| 0 <= k < |entries| && entries[k] == ranking[i];
    }
    if exists k :: 0 <= k < |entries| && Earns(b, entries[k]) {
      var k :| 0 <= k < |entries| && Earns(b, entries[k]);
      assert entries[k] in multiset(ranking);
      var i :| 0 <= i < |ranking| && ranking[i] == entries[k];
    }
  }

  /** The badges do not depend on the order of the rows: the sorted
      leaderboard earns exactly the badges its unsorted rows earn. */
  lemma BadgesIgnoreOrder(ranking: seq<Entry>, entries: seq<Entry>)
    requires multiset(ranking) == multiset(entries)
    ensures Achievements(ranking) == Achievements(entries)
  {
    EarnedPermutation(ranking, entries, TaskMaster);
    EarnedPermutation(ranking, entries, ConsistencyKing);
  }
}

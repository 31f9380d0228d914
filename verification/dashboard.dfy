/** The dashboard: the four task counters over the fetched rows (the signed-in
    user's five most recently created tasks), and the greeting chosen by the
    hour of the day. */
module Dashboard {
  import opened Types
  import opened Seqs
  import opened TaskStats

  datatype Stats = Stats(total: nat, completed: nat, inProgress: nat, overdue: nat)

  /** The counters before any data arrives. */
  const InitialStats: Stats := Stats(0, 0, 0, 0)

  /** Due before `now` and not yet completed. */
  predicate IsOverdue(t: Task, now: Millis) {
    t.dueDate < now && t.status != Completed
  }

  /** The counters for the fetched tasks at time `now`. */
  function ComputeStats(tasks: seq<Task>, now: Millis): (s: Stats)
    ensures s.total == |tasks|
    ensures s.completed == CountStatus(tasks, Completed)
    ensures s.inProgress == CountStatus(tasks, InProgress)
    ensures s.completed + s.inProgress <= s.total
    ensures s.overdue <= s.total - s.completed
    ensures s.overdue == Count(tasks, (t: Task) => IsOverdue(t, now))
  {
    CompletedPlusInProgress(tasks);
    CountMonotone(tasks, (t: Task) => IsOverdue(t, now), (t: Task) => t.status != Completed);
    CountComplement(tasks, (t: Task) => t.status == Completed, (t: Task) => t.status != Completed);
    Stats(|tasks|, CountStatus(tasks, Completed), CountStatus(tasks, InProgress),
          Count(tasks, (t: Task) => IsOverdue(t, now)))
  }

  /** A fetch: whenever the query returns a list, even an empty one, the
      counters are recomputed from it; only a failed query (no data) leaves the
      previous counters in place. */
  function Refresh(stats: Stats, fetched: Option<seq<Task>>, now: Millis): (r: Stats)
    ensures fetched.None? ==> r == stats
    ensures fetched.Some? ==> r.total == |fetched.value| && r.completed + r.inProgress <= r.total
    ensures fetched.Some? ==> r.completed == CountStatus(fetched.value, Completed)
    ensures fetched.Some? ==> r.inProgress == CountStatus(fetched.value, InProgress)
    ensures fetched.Some? ==> r.overdue == Count(fetched.value, (t: Task) => IsOverdue(t, now))
    ensures fetched.Some? ==> r.overdue <= r.total - r.completed
  {
    match fetched
    case None => stats
    case Some(tasks) => ComputeStats(tasks, now)
  }

  /** An empty result puts every counter back to its initial zero, whatever
      was shown before. */
  lemma EmptyFetchResets(stats: Stats, now: Millis)
    ensures Refresh(stats, Some([]), now) == InitialStats
  {
  }

  datatype Greeting = GoodMorning | GoodAfternoon | GoodEvening

  /** The greeting for a local hour of the day. */
  function GreetingFor(hour: int): (g: Greeting)
    ensures g == GoodMorning <==> hour < 12
    ensures g == GoodAfternoon <==> 12 <= hour < 17
    ensures g == GoodEvening <==> 17 <= hour
  {
    if hour < 12 then GoodMorning
    else if hour < 17 then GoodAfternoon
    else GoodEvening
  }
}

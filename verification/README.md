# Team collaboration app — a Dafny model of its screen logic

The app is a React client over a hosted database. Its screens are a dashboard,
a task board, a progress tracker, a leaderboard, a discussion feed, a team
calendar, a resource library and a profile page. Most of each screen
fetches rows and renders them. Each screen also holds a small amount of pure
logic, and that logic is what this project models, one Dafny module per screen:

- **TaskManagement**: the task list filter (a case-insensitive search plus status
  and priority selectors), the three-step status progression behind the
  "Start"/"Complete" button, and the row inserted for a new task.
- **Profile**: the skill and interest tag lists, which behave as a
  duplicate-free ordered set fed by trimmed input, and the user's task summary.
- **ProgressTracker**: per-member statistics, project-wide status counts and the
  kanban board.
- **Dashboard**: the counters (total, completed, in progress, overdue) and the
  greeting by hour. The counters are computed over the rows the dashboard
  fetches: the signed-in user's five most recently created tasks. The "total"
  card therefore never shows more than 5.
- **Leaderboard**: points per member, the stable sort by descending points, the
  podium, rank marks and achievement badges.
- **Discussion**: the per-emoji reaction toggle, the blank-message guard and the
  relative timestamp.
- **Calendar**: the Gregorian month grid, the events listed in each cell (at most
  two, then "+k more") and month navigation.
- **Resources**: the resource list filter and the category colours.

Shared modules:
- **Types**: the records of `src/types/index.ts`, with the string unions turned
  into datatypes.
- **Seqs**: order-preserving filter, subsequence and count.
- **Text**: ECMAScript `trim`, `toLowerCase` on ASCII letters, `includes`, and the
  search that the task and resource lists share.
- **TaskStats**: status counts and the rounded completion percentage.

Conventions:
- Timestamps are integer milliseconds since the epoch.
- "Now" and the current hour are parameters.
- Calendar dates are proleptic Gregorian dates with months numbered 0-11, as in
  JavaScript.
- A missing signed-in user, a missing optional column and a failed query (no data
  returned) are modelled with `Option`.

## Model

| member | source | states |
|---|---|---|
| Text.Trim | src/components/Discussion.tsx:65 | the result is a slice of the input with only white space (ECMAScript's set) before and after it, and it neither starts nor ends with white space |
| Text.TrimParts | src/components/Discussion.tsx:72 | stripping the front and then the back of a string leaves the slice that Trim promises |
| Text.TrimEmptyIffAllSpace | src/components/Profile.tsx:84 | the trimmed text is empty exactly when the input is all white space, which is when the add and send guards reject it |
| Text.TrimIdempotent | src/components/Profile.tsx:87 | trimming already-trimmed text changes nothing |
| Text.ToLower | src/components/TaskManagement.tsx:159 | lower-casing keeps the length and leaves no capital A-Z; each capital becomes the letter 32 code points above it and every other character is kept |
| Text.ToLowerIdempotent | src/components/TaskManagement.tsx:159-160 | lower-casing already lower-cased text changes nothing |
| Text.SearchIgnoresTermCase | src/components/TaskManagement.tsx:159-160 | the search matches the same rows whether or not the typed term is lower-cased first, because the term is lower-cased before `includes` |
| Text.Contains | src/components/TaskManagement.tsx:159-160 | `includes` holds exactly when the term occurs at some position |
| Text.EmptyTermMatches | src/components/TaskManagement.tsx:159-160 | the empty search term matches every title |
| Seqs.Filter | src/components/ProgressTracker.tsx:87 | a filter keeps only elements satisfying the predicate, and each of those as many times as the input holds it |
| Seqs.FilterIsSubseq | src/components/TaskManagement.tsx:158-165 | a filtered list is an order-preserving subsequence of its input |
| Seqs.Without | src/components/Profile.tsx:96 | filtering out a value drops every copy of it, keeps every other value with its multiplicity, and keeps their order |
| Seqs.AppendNew | src/components/Profile.tsx:87 | appending an element not yet present adds exactly that element and keeps the list duplicate-free |
| Seqs.WithoutAppended | src/components/Profile.tsx:83-98 | removing a value just appended to a list that lacked it gives the list back |
| TaskStats.AssignedTo | src/components/ProgressTracker.tsx:54 | exactly the tasks whose assignee is the given member, each as often as in the list, in list order |
| TaskStats.StatusCountsSum | src/components/ProgressTracker.tsx:68-73 | not-started, in-progress and completed counts add up to the number of tasks |
| TaskStats.StatusPartition | src/components/ProgressTracker.tsx:82-101 | the three status lists together hold each task exactly as often as the task list does |
| TaskStats.CompletionRate | src/components/Leaderboard.tsx:62 | 0 with no tasks; otherwise 100·completed/total rounded half up, in 0..100, and exactly 100 when every task is completed |
| TaskStats.Summarize | src/components/Profile.tsx:117-124 | the user's task summary: total is the task count, completed and in progress are the counts of those statuses, the rest are not started, and the rate is CompletionRate of completed over total |
| TaskManagement.FilterTasks | src/components/TaskManagement.tsx:158-165 | every listed task matches the search and both selectors, and every task that does is listed |
| TaskManagement.FilterTasksIsSubseq | src/components/TaskManagement.tsx:158-165 | the listed tasks keep the fetched order |
| TaskManagement.ShowAllKeepsEverything | src/components/TaskManagement.tsx:158-165 | with an empty search and both selectors on "all", every task is listed |
| TaskManagement.NextStatus | src/components/TaskManagement.tsx:295-299 | a completed task has no next status; otherwise the next status is one stage further |
| TaskManagement.AdvanceReachesCompleted | src/components/TaskManagement.tsx:295-299 | pressing the button repeatedly reaches completed exactly when there are enough presses for the stages left |
| TaskManagement.Advance | src/components/TaskManagement.tsx:122-127 | the update moves a task one stage on and stamps it with the current time, changes nothing else, and is not offered for a completed task |
| TaskManagement.CreateTask | src/components/TaskManagement.tsx:91-102 | nothing is inserted without a signed-in user; otherwise the form's fields are inserted unchanged, created by that user, with status not started |
| Profile.LoadEditor | src/components/Profile.tsx:24-41 | the name, skills and interests are the user's own, a missing tag list loads as empty, no user loads an empty profile, and the input boxes start empty |
| Profile.AddTag | src/components/Profile.tsx:83-91 | the list grows by one, the trimmed input, exactly when that is non-blank and not yet listed; earlier tags keep their place and order, and no duplicate appears |
| Profile.AddTagMembers | src/components/Profile.tsx:83-91 | after adding, a tag is listed exactly when it was listed before or it is the accepted trimmed input |
| Profile.RemoveTag | src/components/Profile.tsx:93-98 | every copy of the tag is gone, every other tag stays as often as it was listed, and a duplicate-free list stays duplicate-free |
| Profile.RemoveTagIsSubseq | src/components/Profile.tsx:96 | removing a tag keeps the other tags in order |
| Profile.AddThenRemove | src/components/Profile.tsx:83-98 | adding a value not yet listed and then removing it restores the list |
| Profile.AddSkill | src/components/Profile.tsx:83-91 | the add button changes only the skills; the input box is cleared only when the skill is accepted, and a rejected input leaves the editor untouched |
| Profile.RemoveSkill | src/components/Profile.tsx:93-98 | the remove button changes only the skills |
| Profile.AddInterest | src/components/Profile.tsx:100-108 | as AddSkill, for interests |
| Profile.RemoveInterest | src/components/Profile.tsx:110-115 | as RemoveSkill, for interests |
| Profile.AddSkillThenRemove | src/components/Profile.tsx:83-98 | adding a new skill and removing it restores the whole profile data |
| Profile.AddInterestThenRemove | src/components/Profile.tsx:100-115 | adding a new interest and removing it restores the whole profile data |
| ProgressTracker.TeamStats | src/components/ProgressTracker.tsx:53-65 | one row per member in member order, counting only that member's tasks: total, completed and in progress are those counts, and the rate is CompletionRate of completed over total |
| ProgressTracker.Overall | src/components/ProgressTracker.tsx:68-73 | total, completed, in progress and not started are the counts of all tasks and of each status, and every task is counted in exactly one status |
| ProgressTracker.Kanban | src/components/ProgressTracker.tsx:82-101 | three columns in status order; each holds only tasks of its status, in input order; the column sizes add up to the number of tasks |
| ProgressTracker.KanbanPartitions | src/components/ProgressTracker.tsx:82-101 | together the columns hold each task exactly as often as the list does |
| Dashboard.ComputeStats | src/components/Dashboard.tsx:52-57 | total, completed and in progress are the counts of the fetched tasks and of those statuses; overdue counts the tasks past due and not completed, so it is at most total − completed |
| Dashboard.Refresh | src/components/Dashboard.tsx:50-64 | a failed query leaves the counters as they were; any returned list, even an empty one, sets total, completed, in progress and overdue to its counts |
| Dashboard.EmptyFetchResets | src/components/Dashboard.tsx:50-64 | an empty result puts every counter back to zero, since an empty list still counts as data |
| Dashboard.GreetingFor | src/components/Dashboard.tsx:94-99 | morning before 12, afternoon from 12 to before 17, evening from 17 |
| Leaderboard.Points | src/components/Leaderboard.tsx:53-55 | between 10 and 17 points per completed task, and 0 exactly when nothing is completed |
| Leaderboard.PointsArePerTaskSum | src/components/Leaderboard.tsx:53-55 | the count-based formula equals the sum over completed tasks of 10, plus 5 when the task is high priority, plus 2 when it is not yet due |
| Leaderboard.CreatedThisWeek | src/components/Leaderboard.tsx:45-50 | exactly the tasks created no earlier than seven days before now, each as often as in the list, in list order |
| Leaderboard.BuildEntry | src/components/Leaderboard.tsx:42-64 | a member's row: total, completed and this-week are the counts of the member's tasks, of those completed and of those created this week; the rate is CompletionRate of completed over total; the points are the per-task sum over the completed tasks |
| Leaderboard.Insert | src/components/Leaderboard.tsx:65 | inserting into a descending list keeps it descending and adds exactly that one entry |
| Leaderboard.SortByPoints | src/components/Leaderboard.tsx:65 | the result is in non-increasing points order and is a permutation of the input |
| Leaderboard.SortIsStable | src/components/Leaderboard.tsx:65 | entries with equal points keep their original relative order |
| Leaderboard.Entries | src/components/Leaderboard.tsx:42-64 | one row per member, in member order, each the row built from that member's tasks |
| Leaderboard.Ranking | src/components/Leaderboard.tsx:42-65 | the leaderboard is a permutation of the members' rows, in non-increasing points order |
| Leaderboard.RankingIsStable | src/components/Leaderboard.tsx:65 | among members with equal points the ranking keeps the member order, which decides the crown and podium among ties |
| Leaderboard.RankingHasEveryMember | src/components/Leaderboard.tsx:42-65 | every member's row appears in the leaderboard |
| Leaderboard.Podium | src/components/Leaderboard.tsx:105 | the first three rows (fewer when the team is smaller); none has fewer points than any row left off |
| Leaderboard.RankMarkAt | src/components/Leaderboard.tsx:67-74 | a crown at index 0, medals at 1 and 2, a star everywhere else |
| Leaderboard.Achievements | src/components/Leaderboard.tsx:206-227 | three badges in the order "Task Master", "Consistency King", "Team Player": "Task Master" iff some row has ≥ 10 completed tasks, "Consistency King" iff some row has a rate ≥ 90, "Team Player" always |
| Leaderboard.EarnedPermutation | src/components/Leaderboard.tsx:212-219 | reordering the rows does not change whether some row earns a badge |
| Leaderboard.BadgesIgnoreOrder | src/components/Leaderboard.tsx:206-227 | the sorted leaderboard earns exactly the badges the unsorted per-member rows earn |
| Discussion.Toggle | src/components/Discussion.tsx:93-109 | a user not yet listed is appended once; a listed user is removed with every copy while every other user keeps their copies and order; other emojis are unaffected |
| Discussion.ToggleTwice | src/components/Discussion.tsx:97-109 | reacting and un-reacting restores the emoji's list, and the whole map when the emoji already had a key |
| Discussion.Find | src/components/Discussion.tsx:90 | the first message with the id, or none when no message has it |
| Discussion.HandleReaction | src/components/Discussion.tsx:86-109 | nothing is written without a signed-in user or for an unknown message id; otherwise that message's reactions, toggled |
| Discussion.ApplyUpdate | src/components/Discussion.tsx:111-118 | only messages with the updated id change, and only in their reactions |
| Discussion.React | src/components/Discussion.tsx:86-91 | with no user or an unknown id the feed is unchanged; other messages never change |
| Discussion.ReactFlips | src/components/Discussion.tsx:97-109 | a click flips whether the user is listed under that emoji and leaves the message's other emojis alone |
| Discussion.ReactionCount | src/components/Discussion.tsx:231 | the number of users listed, 0 when the message has no reactions or none for that emoji |
| Discussion.ClickFlipsHighlight | src/components/Discussion.tsx:232 | after a click by a user, the clicked emoji is highlighted for that user exactly when it was not before, and other emojis keep their highlight |
| Discussion.Compose | src/components/Discussion.tsx:63-74 | nothing is sent for blank input or without a user; otherwise the non-empty trimmed text, as a text message by that user |
| Discussion.SentContentIsTrimmed | src/components/Discussion.tsx:72 | the sent content needs no further trimming |
| Discussion.MinutesBetween | src/components/Discussion.tsx:127 | whole minutes elapsed, rounded down |
| Discussion.FormatMessageTime | src/components/Discussion.tsx:124-133 | "just now" under a minute (future stamps included), minutes 1-59 under an hour, hours 1-23 under a day, the date otherwise |
| Calendar.DaysInMonth | src/components/Calendar.tsx:116-117 | between 28 and 31; February has 29 days exactly in Gregorian leap years |
| Calendar.YearLength | src/components/Calendar.tsx:116-117 | the day count advances by 366 across a leap year and by 365 otherwise |
| Calendar.MonthsFillYear | src/components/Calendar.tsx:116-117 | the twelve month lengths add up to the year's length |
| Calendar.NextDay | src/components/Calendar.tsx:128-130 | consecutive days of a month, and a month's last day and the next month's first, are one day apart |
| Calendar.NextMonthStartDay | src/components/Calendar.tsx:115-118 | the next month starts on the weekday after this month's last day |
| Calendar.EpochIsThursday | src/components/Calendar.tsx:118 | the weekday numbering agrees with JavaScript's: 1 January 1970 is day 4 (Thursday) |
| Calendar.MonthGrid | src/components/Calendar.tsx:112-133 | startDay (0..6) blank cells followed by day d in cell startDay + d − 1 for every day of the month |
| Calendar.DayColumn | src/components/Calendar.tsx:118-130 | each day's cell lies in the column of its weekday |
| Calendar.EventsForDate | src/components/Calendar.tsx:135-141 | no events for a blank cell; otherwise exactly the events starting on that day, each as often as in the list |
| Calendar.EventsForDateIsSubseq | src/components/Calendar.tsx:135-141 | a cell's events keep the fetched order |
| Calendar.ViewCell | src/components/Calendar.tsx:236-246 | min(2, n) events are shown, the first ones, and "+(n−2) more" exactly when n > 2, so shown + hidden = n |
| Calendar.Normalize | src/components/Calendar.tsx:181 | an out-of-range month rolls into the neighbouring year without changing the absolute month |
| Calendar.NextMonth | src/components/Calendar.tsx:192 | one month on; December goes to January of the next year |
| Calendar.PrevMonth | src/components/Calendar.tsx:181 | one month back; January goes to December of the previous year |
| Calendar.NavigationRoundTrip | src/components/Calendar.tsx:181-192 | next then previous, and previous then next, return to the same month |
| Resources.FilterResources | src/components/Resources.tsx:124-130 | every listed resource matches the search and, unless the selector is "all", has the chosen category; every matching resource is listed |
| Resources.FilterResourcesIsSubseq | src/components/Resources.tsx:124-130 | the listed resources keep the fetched order |
| Resources.ShowAllKeepsEverything | src/components/Resources.tsx:124-130 | with an empty search and "all" categories every resource is listed |
| Resources.CategoryColor | src/components/Resources.tsx:142-149 | any name that is not a category gets the default grey |
| Resources.CategoryColorsDistinct | src/components/Resources.tsx:142-149 | each of the four categories has its own colour, none of them the grey |

## Left out

- Backend calls (select, insert, update, delete, ordering, `.limit`) and the realtime
  subscriptions: the database guarantees their ordering and limits, not this code.
  Fetched rows are inputs, and a write is modelled as the row or update it would send.
  After a reaction the feed is re-fetched; that re-fetch is modelled as `Discussion.ApplyUpdate`.
  The dashboard's query for the user's five newest tasks is one of these: `Dashboard.ComputeStats`
  takes the returned rows as given.
- Discussion.ApplyUpdate: a click computes the new reactions from the locally held feed and writes the
  whole column, so two concurrent clicks on one message can overwrite each other. The model
  assumes no other write lands between reading the feed and writing the update.
- Authentication, rendering, animation, routing and dark mode: they carry no local logic.
- Toasts, confirmation dialogs and error handling around the database calls.
- The random quote on the dashboard, which is drawn at random.
- Colour and class-name tables other than category colours and rank marks, for example
  event-type and priority colours and category icons.
- TaskStats.CompletionRate: the source computes `Math.round(c / t * 100)` in floating point.
  The model rounds the exact ratio half up. The two could differ only where floating-point
  error moves a value across a .5 boundary; the 0, ≤ 100 and "all done ⇒ 100" bounds hold either way.
- Text.ToLower: only ASCII A-Z are lower-cased. JavaScript's `toLowerCase` uses full Unicode case mapping.
- Leaderboard.CreatedThisWeek: "a week ago" is now minus exactly seven days of milliseconds.
  In local time across a daylight-saving change, the source's `setDate(getDate() - 7)` differs by an hour.
- Leaderboard.Points and Dashboard.IsOverdue: due dates are compared as instants. Date-only
  strings and the local time zone are not modelled.
- Calendar.EventsForDate: a cell is matched against the date part of an event's start.
  The source compares a local-midnight date rendered through UTC `toISOString`, which can fall on
  the neighbouring day in time zones east of UTC. Time zones are not modelled.
- Calendar.Normalize: JavaScript maps years 0-99 in `new Date(year, month)` to 1900-1999.
  The model keeps the year as given. The same remap applies to `new Date(year, month, 1)` and
  `new Date(year, month + 1, 0)`, so for those years the source draws the grid of year 1900 + year.
  Calendar.DaysInMonth, Calendar.StartDay and Calendar.MonthGrid also keep the year as given.
- Event creation and deletion, the upcoming-events list and the selected-date form are not
  modelled. They are form plumbing around database calls.

/** The team calendar: the month grid (blank cells up to the first weekday,
    then one cell per day), the events listed in each cell, and month
    navigation. Dates are proleptic Gregorian calendar days, free of time zones. */
module Calendar {
  import opened Types
  import opened Seqs

  predicate IsLeapYear(y: int) {
    y % 4 == 0 && (y % 100 != 0 || y % 400 == 0)
  }

  /** The length of month `m` of year `y` (the day number of its last day). */
  function DaysInMonth(y: int, m: Month): (n: int)
    ensures 28 <= n <= 31
    ensures m == 1 ==> (n == 29 <==> IsLeapYear(y))
  {
    if m == 1 then (if IsLeapYear(y) then 29 else 28)
    else if m == 3 || m == 5 || m == 8 || m == 10 then 30
    else 31
  }

  /** Days in the months of year `y` before month `m`. */
  function DaysBeforeMonth(y: int, m: int): int
    requires 0 <= m <= 12
  {
    if m == 0 then 0 else DaysBeforeMonth(y, m - 1) + DaysInMonth(y, m - 1)
  }

  /** Days from 1 January of year 1 to 1 January of year `y` (negative before year 1). */
  function DaysBeforeYear(y: int): int {
    365 * (y - 1) + (y - 1) / 4 - (y - 1) / 100 + (y - 1) / 400
  }

  /** Days from 1 January of year 1 to `d`. */
  function Ordinal(d: CivilDate): int {
    DaysBeforeYear(d.year) + DaysBeforeMonth(d.year, d.month) + d.day - 1
  }

  /** Day of the week, 0 for Sunday to 6 for Saturday; 1 January of year 1 was a Monday. */
  function Weekday(d: CivilDate): (w: int)
    ensures 0 <= w < 7
  {
    (Ordinal(d) + 1) % 7
  }

  /** 1 January 1970 was a Thursday. */
  lemma EpochIsThursday()
    ensures Weekday(CivilDate(1970, 0, 1)) == 4
  {
  }

  /** `(a + 1) / n - a / n` is 1 exactly when `n` divides `a + 1`. */
  lemma FloorStep(a: int, n: int)
    requires n > 0
    ensures (a + 1) / n - a / n == if (a + 1) % n == 0 then 1 else 0
  {
    var q := a / n;
    var r := a % n;
    assert a == q * n + r && 0 <= r < n;
    if r + 1 < n {
      assert a + 1 == q * n + (r + 1);
      DivModUnique(a + 1, n, q, r + 1);
    } else {
      assert a + 1 == (q + 1) * n + 0;
      DivModUnique(a + 1, n, q + 1, 0);
    }
  }

  lemma DivModUnique(a: int, n: int, q: int, r: int)
    requires n > 0 && 0 <= r < n && a == q * n + r
    ensures a / n == q && a % n == r
  {
    var q' := a / n;
    var r' := a % n;
    assert a == q' * n + r';
    if q' < q {
      assert (q - q') * n >= n by {
        MulAtLeast(q - q', n);
      }
    } else if q' > q {
      assert (q' - q) * n >= n by {
        MulAtLeast(q' - q, n);
      }
    }
  }

  lemma MulAtLeast(k: int, n: int)
    requires k >= 1 && n > 0
    ensures k * n >= n
  {
  }

  lemma DividesMultiple(y: int, k: int, n: int)
    requires n > 0 && k > 0 && y % (k * n) == 0
    ensures y % n == 0
  {
    var q := y / (k * n);
    assert y == q * (k * n);
    assert y == (q * k) * n + 0;
    DivModUnique(y, n, q * k, 0);
  }

  /** A year has 365 days, 366 in a leap year. */
  lemma YearLength(y: int)
    ensures DaysBeforeYear(y + 1) - DaysBeforeYear(y) == if IsLeapYear(y) then 366 else 365
  {
    FloorStep(y - 1, 4);
    FloorStep(y - 1, 100);
    FloorStep(y - 1, 400);
    if y % 400 == 0 {
      DividesMultiple(y, 4, 100);
      DividesMultiple(y, 100, 4);
    } else if y % 100 == 0 {
      DividesMultiple(y, 25, 4);
    }
  }

  /** The twelve months together make up the year. */
  lemma {:induction false} MonthsFillYear(y: int)
    ensures DaysBeforeMonth(y, 12) == if IsLeapYear(y) then 366 else 365
  {
    var feb := DaysInMonth(y, 1);
    assert DaysBeforeMonth(y, 1) == 31;
    assert DaysBeforeMonth(y, 2) == 31 + feb;
    assert DaysBeforeMonth(y, 3) == 62 + feb;
    assert DaysBeforeMonth(y, 4) == 92 + feb;
    assert DaysBeforeMonth(y, 5) == 123 + feb;
    assert DaysBeforeMonth(y, 6) == 153 + feb;
    assert DaysBeforeMonth(y, 7) == 184 + feb;
    assert DaysBeforeMonth(y, 8) == 215 + feb;
    assert DaysBeforeMonth(y, 9) == 245 + feb;
    assert DaysBeforeMonth(y, 10) == 276 + feb;
    assert DaysBeforeMonth(y, 11) == 306 + feb;
  }

  lemma ModAdd(a: int, n: int)
    ensures (a % 7 + n) % 7 == (a + n) % 7
  {
    var q := a / 7;
    var r := (a + n) % 7;
    var q' := (a + n) / 7;
    assert a % 7 + n == (q' - q) * 7 + r;
    DivModUnique(a % 7 + n, 7, q' - q, r);
  }

  /** The first day of the month after month `m` of year `y`. */
  function FirstOfNextMonth(y: int, m: Month): CivilDate {
    if m == 11 then CivilDate(y + 1, 0, 1) else CivilDate(y, m + 1, 1)
  }

  /** Days run on without gaps: within a month, and from a month's last day to
      the next month's first. */
  lemma NextDay(y: int, m: Month, d: int)
    requires 1 <= d <= DaysInMonth(y, m)
    ensures d < DaysInMonth(y, m) ==> Ordinal(CivilDate(y, m, d + 1)) == Ordinal(CivilDate(y, m, d)) + 1
    ensures d == DaysInMonth(y, m) ==> Ordinal(FirstOfNextMonth(y, m)) == Ordinal(CivilDate(y, m, d)) + 1
  {
    if m == 11 {
      YearLength(y);
      MonthsFillYear(y);
    }
  }

  /** The next month starts on the weekday after this month's last day. */
  lemma NextMonthStartDay(y: int, m: Month)
    ensures Weekday(FirstOfNextMonth(y, m)) == (Weekday(CivilDate(y, m, 1)) + DaysInMonth(y, m)) % 7
  {
    NextDay(y, m, DaysInMonth(y, m));
    ModAdd(Ordinal(CivilDate(y, m, 1)) + 1, DaysInMonth(y, m));
  }

  /** The column (Sunday first) of the first day of the month. */
  function StartDay(y: int, m: Month): (s: int)
    ensures 0 <= s < 7
  {
    Weekday(CivilDate(y, m, 1))
  }

  /** The grid as the screen builds it: `StartDay` blank cells, then days 1 to
      the month's length. */
  method MonthGrid(y: int, m: Month) returns (cells: seq<Option<CivilDate>>)
    ensures |cells| == StartDay(y, m) + DaysInMonth(y, m)
    ensures forall i :: 0 <= i < StartDay(y, m) ==> cells[i].None?
    ensures forall d :: 1 <= d <= DaysInMonth(y, m) ==> cells[StartDay(y, m) + d - 1] == Some(CivilDate(y, m, d))
  {
    var startDay := StartDay(y, m);
    var daysInMonth := DaysInMonth(y, m);
    cells := [];
    var i := 0;
    while i < startDay
      invariant 0 <= i <= startDay
      invariant |cells| == i
      invariant forall k :: 0 <= k < i ==> cells[k].None?
    {
      cells := cells + [None];
      i := i + 1;
    }
    var d := 1;
    while d <= daysInMonth
      invariant 1 <= d <= daysInMonth + 1
      invariant |cells| == startDay + d - 1
      invariant forall k :: 0 <= k < startDay ==> cells[k].None?
      invariant forall e :: 1 <= e < d ==> cells[startDay + e - 1] == Some(CivilDate(y, m, e))
    {
      cells := cells + [Some(CivilDate(y, m, d))];
      d := d + 1;
    }
  }

  /** Each day lands in the column of its weekday. */
  lemma {:induction false} DayColumn(y: int, m: Month, d: int)
    requires 1 <= d <= DaysInMonth(y, m)
    ensures (StartDay(y, m) + d - 1) % 7 == Weekday(CivilDate(y, m, d))
  {
    var first := Ordinal(CivilDate(y, m, 1));
    var day := Ordinal(CivilDate(y, m, d));
    assert day == first + d - 1;
    assert StartDay(y, m) == (first + 1) % 7;
    assert Weekday(CivilDate(y, m, d)) == (day + 1) % 7;
    ModAdd(first + 1, d - 1);
  }

  /** The events of a grid cell: none for a blank cell, otherwise those that
      start on the cell's day, in list order. */
  function EventsForDate(events: seq<CalendarEvent>, cell: Option<CivilDate>): (r: seq<CalendarEvent>)
    ensures cell.None? ==> r == []
    ensures cell.Some? ==> forall i :: 0 <= i < |r| ==> r[i].start.date == cell.value && r[i] in events
    ensures cell.Some? ==> forall i :: 0 <= i < |events| && events[i].start.date == cell.value ==> events[i] in r
    ensures cell.Some? ==> forall i {:trigger multiset(r)[events[i]]} :: 0 <= i < |events| ==>
      multiset(r)[events[i]] == if events[i].start.date == cell.value then multiset(events)[events[i]] else 0
  {
    match cell
    case None => []
    case Some(date) => Filter(events, (e: CalendarEvent) => e.start.date == date)
  }

  lemma EventsForDateIsSubseq(events: seq<CalendarEvent>, cell: Option<CivilDate>)
    ensures SubseqOf(EventsForDate(events, cell), events)
  {
    match cell
    case None => EmptyIsSubseq(events);
    case Some(date) => FilterIsSubseq(events, (e: CalendarEvent) => e.start.date == date);
  }

  /** What one cell shows: at most two event titles, then "+k more". */
  datatype CellView = CellView(shown: seq<CalendarEvent>, more: Option<nat>)

  function ViewCell(dayEvents: seq<CalendarEvent>): (v: CellView)
    ensures |v.shown| == if |dayEvents| < 2 then |dayEvents| else 2
    ensures v.shown == dayEvents[..|v.shown|]
    ensures v.more.Some? <==> |dayEvents| > 2
    ensures |v.shown| + v.more.GetOr(0) == |dayEvents|
  {
    if |dayEvents| <= 2 then CellView(dayEvents, None)
    else CellView(dayEvents[..2], Some(|dayEvents| - 2))
  }

  /** The month on display. */
  datatype MonthCursor = MonthCursor(year: int, month: Month)

  /** Months counted from January of year 0. */
  function MonthIndex(c: MonthCursor): int {
    12 * c.year + c.month
  }

  /** `new Date(year, month)` with an out-of-range month rolls over into the
      neighbouring years. */
  function Normalize(year: int, month: int): (c: MonthCursor)
    ensures MonthIndex(c) == 12 * year + month
  {
    MonthCursor(year + month / 12, month % 12)
  }

  /** The "next month" arrow. */
  function NextMonth(c: MonthCursor): (r: MonthCursor)
    ensures MonthIndex(r) == MonthIndex(c) + 1
    ensures c.month == 11 ==> r == MonthCursor(c.year + 1, 0)
    ensures c.month < 11 ==> r == MonthCursor(c.year, c.month + 1)
  {
    Normalize(c.year, c.month + 1)
  }

  /** The "previous month" arrow. */
  function PrevMonth(c: MonthCursor): (r: MonthCursor)
    ensures MonthIndex(r) == MonthIndex(c) - 1
    ensures c.month == 0 ==> r == MonthCursor(c.year - 1, 11)
    ensures c.month > 0 ==> r == MonthCursor(c.year, c.month - 1)
  {
    Normalize(c.year, c.month - 1)
  }

  /** The two arrows undo each other. */
  lemma NavigationRoundTrip(c: MonthCursor)
    ensures PrevMonth(NextMonth(c)) == c
    ensures NextMonth(PrevMonth(c)) == c
  {
  }
}

/**
 * Report schedules: the next run of a pack and the days it reports on. Dates are the civil
 * calendar's; months are numbered from January 1970, days from its first.
 */
module Schedule {
  import opened Wrappers

  datatype Cadence = Weekly | Monthly | Quarterly

  datatype PeriodKind = PreviousWeek | PreviousMonth | PreviousQuarter

  /** `runDay` is an ISO weekday for weekly packs and a day of the month for the others. */
  datatype Spec = Spec(cadence: Cadence, runDay: nat, minute: nat, kind: PeriodKind)

  /** First and last day. */
  datatype Period = Period(start: int, end: int)

  const DAY := 1440

  // ---- The civil calendar -----------------------------------------------------------------

  predicate Leap(year: int) { year % 4 == 0 && (year % 100 != 0 || year % 400 == 0) }

  function DaysIn(month: int): int {
    var m := month % 12 + 1;
    if m == 2 then (if Leap(1970 + month / 12) then 29 else 28)
    else if m in {4, 6, 9, 11} then 30
    else 31
  }

  function FirstOf(month: int): int
    decreases if month >= 0 then month else -month
  {
    if month == 0 then 0
    else if month > 0 then FirstOf(month - 1) + DaysIn(month - 1)
    else FirstOf(month + 1) - DaysIn(month)
  }

  lemma FirstOfNext(month: int)
    ensures FirstOf(month + 1) == FirstOf(month) + DaysIn(month)
  {
  }

  /** The month a day is in, looked for from another. */
  function MonthFrom(day: int, month: int): (r: int)
    ensures FirstOf(r) <= day < FirstOf(r + 1)
    decreases if day < FirstOf(month) then FirstOf(month) - day else if day >= FirstOf(month + 1) then day - FirstOf(month) else 0
  {
    FirstOfNext(month);
    FirstOfNext(month - 1);
    FirstOfNext(month + 1);
    if day < FirstOf(month) then MonthFrom(day, month - 1)
    else if day >= FirstOf(month + 1) then MonthFrom(day, month + 1)
    else month
  }

  function MonthOf(day: int): (r: int)
    ensures FirstOf(r) <= day < FirstOf(r + 1)
  {
    MonthFrom(day, 0)
  }

  lemma {:induction false} MonthsAscend(a: int, b: int)
    requires a <= b
    ensures FirstOf(a) + 28 * (b - a) <= FirstOf(b)
    decreases b - a
  {
    if a < b {
      MonthsAscend(a, b - 1);
      FirstOfNext(b - 1);
    }
  }

  lemma InOneMonth(day: int, month: int)
    requires FirstOf(month) <= day < FirstOf(month + 1)
    ensures MonthOf(day) == month
  {
    var r := MonthOf(day);
    if r < month { MonthsAscend(r + 1, month); }
    if month < r { MonthsAscend(month + 1, r); }
  }

  /** Monday is 1; the first of January 1970 was a Thursday. */
  function IsoWeekday(day: int): int { (day + 3) % 7 + 1 }

  /** Days before a year, counted by the leap years before it: every fourth, but for the hundreds, but for the four hundreds. */
  function DaysBefore(year: int): int {
    365 * (year - 1970) + (year - 1) / 4 - (year - 1) / 100 + (year - 1) / 400 - 477
  }

  lemma YearLength(year: int)
    ensures DaysBefore(year + 1) - DaysBefore(year) == if Leap(year) then 366 else 365
  {
    Quotient(year, 4);
    Quotient(year, 100);
    Quotient(year, 400);
  }

  lemma Quotient(n: int, d: int)
    requires d in {4, 100, 400}
    ensures n / d - (n - 1) / d == if n % d == 0 then 1 else 0
  {
  }

  /** Days of a year before its month `m`; from March on the lengths go 31, 30, 31, 30, 31 over and over. */
  function DaysIntoYear(year: int, m: int): int {
    if m == 0 then 0
    else if m == 1 then 31
    else (if DaysBefore(year + 1) - DaysBefore(year) == 366 then 60 else 59) + (153 * (m - 2) + 2) / 5
  }

  lemma NextMonthInYear(year: int, m: int)
    requires 0 <= m < 12
    ensures DaysIntoYear(year, m) + DaysIn(12 * (year - 1970) + m) == if m == 11 then DaysBefore(year + 1) - DaysBefore(year)
                                                                    else DaysIntoYear(year, m + 1)
  {
    var month := 12 * (year - 1970) + m;
    YearLength(year);
    assert month % 12 == m && month / 12 == year - 1970;
    hide DaysBefore, Leap;
  }

  function FirstDay(month: int): int {
    DaysBefore(1970 + month / 12) + DaysIntoYear(1970 + month / 12, month % 12)
  }

  lemma MonthTurns(month: int)
    ensures FirstDay(month + 1) == FirstDay(month) + DaysIn(month)
  {
    var year, m := 1970 + month / 12, month % 12;
    assert month == 12 * (year - 1970) + m;
    NextMonthInYear(year, m);
    if m == 11 {
      assert (month + 1) / 12 == month / 12 + 1 && (month + 1) % 12 == 0;
      assert DaysIntoYear(year + 1, 0) == 0;
    } else {
      assert (month + 1) / 12 == month / 12 && (month + 1) % 12 == m + 1;
    }
    hide DaysBefore, DaysIn;
  }

  lemma Epoch()
    ensures FirstOf(0) == 0 && FirstDay(0) == 0
  {
  }

  /** The first of every month, from the number of leap years and the pattern of lengths alone. */
  lemma {:induction false} FirstOfMeans(month: int)
    ensures FirstOf(month) == FirstDay(month)
    decreases if month >= 0 then month else -month
  {
    hide FirstOf, FirstDay, DaysIn;
    Epoch();
    if month > 0 {
      FirstOfMeans(month - 1);
      FirstOfNext(month - 1);
      MonthTurns(month - 1);
    } else if month < 0 {
      FirstOfMeans(month + 1);
      FirstOfNext(month);
      MonthTurns(month);
    }
  }

  /** The week turns day by day from that Thursday on. */
  lemma WeekdaysTurn(day: int)
    ensures IsoWeekday(0) == 4 && 1 <= IsoWeekday(day) <= 7
    ensures IsoWeekday(day + 1) == if IsoWeekday(day) == 7 then 1 else IsoWeekday(day) + 1
  {
  }

  // ---- Run instants ----------------------------------------------------------------------------

  /** The instant of a local minute, in a zone that is `offset` minutes ahead. */
  function InstantOf(day: int, minute: nat, offset: int): int { day * DAY + minute - offset }

  function LocalDay(instant: int, offset: int): int { (instant + offset) / DAY }

  function RunDayIn(spec: Spec, month: int): int {
    FirstOf(month) + (if spec.runDay <= DaysIn(month) then spec.runDay else DaysIn(month)) - 1
  }

  predicate Valid(spec: Spec) {
    && spec.minute < DAY
    && if spec.cadence.Weekly? then 1 <= spec.runDay <= 7 else 1 <= spec.runDay
  }

  method NextRunAt(spec: Spec, after: int, offset: int) returns (next: Option<int>)
    requires Valid(spec)
    ensures next == Some(NextRun(spec, after, offset))
  {
    var today := LocalDay(after, offset);
    if spec.cadence.Weekly? {
      var delta := (spec.runDay - IsoWeekday(today) + 7) % 7;
      var candidate := InstantOf(today + delta, spec.minute, offset);
      if candidate <= after {
        delta := delta + 7;
        candidate := InstantOf(today + delta, spec.minute, offset);
      }
      return Some(candidate);
    }
    var step := if spec.cadence.Monthly? then 1 else 3;
    var ahead := 0;
    FirstOfNext(MonthOf(today));
    MonthsAscend(MonthOf(today) + 1, MonthOf(today) + step);
    while ahead < 24
      invariant ahead == 0 || (ahead == step && InstantOf(RunDayIn(spec, MonthOf(today)), spec.minute, offset) <= after)
    {
      var candidate := InstantOf(RunDayIn(spec, MonthOf(today) + ahead), spec.minute, offset);
      if candidate > after { return Some(candidate); }
      ahead := ahead + step;
    }
    next := None;
  }

  function NextRun(spec: Spec, after: int, offset: int): int {
    var today := LocalDay(after, offset);
    if spec.cadence.Weekly? then
      var first := today + (spec.runDay - IsoWeekday(today) + 7) % 7;
      InstantOf(if InstantOf(first, spec.minute, offset) > after then first else first + 7, spec.minute, offset)
    else
      var step := if spec.cadence.Monthly? then 1 else 3;
      var here := InstantOf(RunDayIn(spec, MonthOf(today)), spec.minute, offset);
      if here > after then here else InstantOf(RunDayIn(spec, MonthOf(today) + step), spec.minute, offset)
  }

  // ---- Which instants are runs ---------------------------------------------------------------

  function Step(spec: Spec): int { if spec.cadence.Quarterly? then 3 else 1 }

  /** A run instant; a quarterly pack runs in the months that differ from `phase` by whole quarters. */
  predicate IsRun(spec: Spec, phase: int, t: int, offset: int) {
    var day := LocalDay(t, offset);
    && t == InstantOf(day, spec.minute, offset)
    && if spec.cadence.Weekly? then IsoWeekday(day) == spec.runDay
       else day == RunDayIn(spec, MonthOf(day)) && (MonthOf(day) - phase) % Step(spec) == 0
  }

  lemma RunDayIsThere(spec: Spec, month: int)
    requires Valid(spec) && !spec.cadence.Weekly?
    ensures MonthOf(RunDayIn(spec, month)) == month
  {
    FirstOfNext(month);
    InOneMonth(RunDayIn(spec, month), month);
  }

  lemma LocalDayOf(day: int, minute: nat, offset: int)
    requires minute < DAY
    ensures LocalDay(InstantOf(day, minute, offset), offset) == day
  {
  }

  lemma WeeklyIsLeast(spec: Spec, after: int, offset: int, t: int)
    requires Valid(spec) && spec.cadence.Weekly?
    ensures after < NextRun(spec, after, offset) && IsRun(spec, 0, NextRun(spec, after, offset), offset)
    ensures IsRun(spec, 0, t, offset) && after < t ==> NextRun(spec, after, offset) <= t
  {
    var today, day := LocalDay(after, offset), LocalDay(t, offset);
    var first := today + (spec.runDay - IsoWeekday(today) + 7) % 7;
    NextOfWeekday(today, spec.runDay, day);
    LocalDayOf(first, spec.minute, offset);
    LocalDayOf(first + 7, spec.minute, offset);
    OnItsDay(after, offset);
    OnItsDay(t, offset);
    hide LocalDay, IsoWeekday;
  }

  lemma OnItsDay(t: int, offset: int)
    ensures InstantOf(LocalDay(t, offset), 0, offset) <= t < InstantOf(LocalDay(t, offset) + 1, 0, offset)
  {
  }

  /** The day of a weekday from `today` on, and every later one is a week or more after it. */
  lemma NextOfWeekday(today: int, weekday: int, day: int)
    requires 1 <= weekday <= 7
    ensures var first := today + (weekday - IsoWeekday(today) + 7) % 7;
            && today <= first < today + 7 && IsoWeekday(first) == weekday && IsoWeekday(first + 7) == weekday
            && (IsoWeekday(day) == weekday && today <= day ==> day == first || first + 7 <= day)
  {
    var first := today + (weekday - IsoWeekday(today) + 7) % 7;
    WeekdayAhead(today, weekday);
    if IsoWeekday(day) == weekday && today <= day {
      SameWeekday(first, day);
      WholeWeeks(day - first);
    }
    hide IsoWeekday;
  }

  lemma WeekdayAhead(today: int, weekday: int)
    requires 1 <= weekday <= 7
    ensures var first := today + (weekday - IsoWeekday(today) + 7) % 7;
            today <= first < today + 7 && IsoWeekday(first) == weekday && IsoWeekday(first + 7) == weekday
  {
  }

  lemma WholeWeeks(days: int)
    requires days % 7 == 0 && days > -7
    ensures days == 0 || days >= 7
  {
  }

  lemma SameWeekday(a: int, b: int)
    requires IsoWeekday(a) == IsoWeekday(b)
    ensures (b - a) % 7 == 0
  {
  }

  lemma MonthlyIsLeast(spec: Spec, after: int, offset: int, t: int)
    requires Valid(spec) && !spec.cadence.Weekly?
    ensures var phase := MonthOf(LocalDay(after, offset));
            && after < NextRun(spec, after, offset)
            && IsRun(spec, phase, NextRun(spec, after, offset), offset)
            && (IsRun(spec, phase, t, offset) && after < t ==> NextRun(spec, after, offset) <= t)
  {
    hide FirstOf, DaysIn, RunDayIn;
    var today := LocalDay(after, offset);
    var here := MonthOf(today);
    var later := here + Step(spec);
    RunDayIsThere(spec, here);
    RunDayIsThere(spec, later);
    LocalDayOf(RunDayIn(spec, here), spec.minute, offset);
    LocalDayOf(RunDayIn(spec, later), spec.minute, offset);
    MonthsAscend(here + 1, later);
    var run := RunDayIn(spec, later);
    assert run >= FirstOf(later) > today;
    if IsRun(spec, here, t, offset) && after < t {
      var day := LocalDay(t, offset);
      assert today <= day;
      var month := MonthOf(day);
      if month < here { MonthsAscend(month + 1, here); }
      if month > later { MonthsAscend(later + 1, month); }
    }
  }

  /** The next run is after the instant given, and no run lies between; none is ever missing. */
  lemma NextRunIsLeast(spec: Spec, after: int, offset: int, t: int)
    requires Valid(spec)
    ensures var phase := if spec.cadence.Weekly? then 0 else MonthOf(LocalDay(after, offset));
            && after < NextRun(spec, after, offset)
            && IsRun(spec, phase, NextRun(spec, after, offset), offset)
            && (IsRun(spec, phase, t, offset) && after < t ==> NextRun(spec, after, offset) <= t)
  {
    if spec.cadence.Weekly? { WeeklyIsLeast(spec, after, offset, t); } else { MonthlyIsLeast(spec, after, offset, t); }
  }

  // ---- Periods ------------------------------------------------------------------------------------

  function PeriodBefore(kind: PeriodKind, runAt: int, offset: int): Period {
    var today := LocalDay(runAt, offset);
    match kind
    case PreviousWeek =>
      var monday := today - (IsoWeekday(today) - 1);
      Period(monday - 7, monday - 1)
    case PreviousMonth =>
      Period(FirstOf(MonthOf(today) - 1), FirstOf(MonthOf(today)) - 1)
    case PreviousQuarter =>
      var quarter := MonthOf(today) - MonthOf(today) % 3;
      Period(FirstOf(quarter - 3), FirstOf(quarter) - 1)
  }

  /** The week before a run's goes from Monday to Sunday and ends within the seven days before it. */
  lemma WeekMeans(runAt: int, offset: int)
    ensures var today := (runAt + offset) / 1440;
            var week := PeriodBefore(PreviousWeek, runAt, offset);
            IsoWeekday(week.start) == 1 && week.end == week.start + 6 && week.end < today <= week.end + 7
  {
    hide FirstOf, MonthOf;
  }

  /** The other periods are all the days of the civil month, or of the quarter, before that of the run. */
  lemma PeriodMeans(runAt: int, offset: int, day: int)
    ensures var today := (runAt + offset) / 1440;
            var month, quarter := PeriodBefore(PreviousMonth, runAt, offset), PeriodBefore(PreviousQuarter, runAt, offset);
            && (month.start <= day <= month.end <==> MonthOf(day) == MonthOf(today) - 1)
            && (quarter.start <= day <= quarter.end <==> MonthOf(day) / 3 == MonthOf(today) / 3 - 1)
  {
    var today := LocalDay(runAt, offset);
    hide FirstOf, DaysIn, MonthOf;
    InRange(MonthOf(today) - 1, MonthOf(today), day);
    QuarterDays(MonthOf(today), day);
    QuarterStarts(runAt, offset);
    hide PeriodBefore;
  }

  lemma QuarterStarts(runAt: int, offset: int)
    ensures var m := MonthOf(LocalDay(runAt, offset));
            PeriodBefore(PreviousQuarter, runAt, offset) == Period(FirstOf(m - m % 3 - 3), FirstOf(m - m % 3) - 1)
  {
    hide FirstOf, MonthOf;
  }

  lemma QuarterDays(m: int, day: int)
    ensures FirstOf(m - m % 3 - 3) <= day < FirstOf(m - m % 3) <==> MonthOf(day) / 3 == m / 3 - 1
  {
    hide FirstOf, DaysIn, MonthOf;
    InRange(m - m % 3 - 3, m - m % 3, day);
    Quarters(MonthOf(day), m);
  }

  lemma Quarters(n: int, m: int)
    ensures m - m % 3 - 3 <= n < m - m % 3 <==> n / 3 == m / 3 - 1
  {
  }

  lemma InRange(a: int, b: int, day: int)
    requires a <= b
    ensures FirstOf(a) <= day < FirstOf(b) <==> a <= MonthOf(day) < b
  {
    hide FirstOf, DaysIn;
    var n := MonthOf(day);
    if n < a { MonthsAscend(n + 1, a); } else { MonthsAscend(a, n); }
    if n < b { MonthsAscend(n + 1, b); } else { MonthsAscend(b, n); }
  }

  /** The run of a month is on its day of that number, or on its last day where it is shorter. */
  lemma RunDayMeans(spec: Spec, month: int)
    requires spec.runDay >= 1
    ensures var day := RunDayIn(spec, month);
            && MonthOf(day) == month
            && (day - FirstOf(month) + 1 == spec.runDay || (spec.runDay > day - FirstOf(month) + 1 && MonthOf(day + 1) == month + 1))
  {
    FirstOfNext(month);
    FirstOfNext(month + 1);
    InOneMonth(RunDayIn(spec, month), month);
    if spec.runDay > DaysIn(month) { InOneMonth(RunDayIn(spec, month) + 1, month + 1); }
  }

  predicate Matches(spec: Spec) {
    match spec.cadence
    case Weekly => spec.kind.PreviousWeek?
    case Monthly => spec.kind.PreviousMonth?
    case Quarterly => spec.kind.PreviousQuarter?
  }

  /** A run is one of those its schedule has, whatever the phase. */
  predicate SomeRun(spec: Spec, t: int, offset: int) {
    IsRun(spec, if spec.cadence.Weekly? then 0 else MonthOf(LocalDay(t, offset)), t, offset)
  }

  /** The run instant in the month of an instant. */
  function RunInMonthOf(spec: Spec, t: int, offset: int): int {
    InstantOf(RunDayIn(spec, MonthOf(LocalDay(t, offset))), spec.minute, offset)
  }

  function MonthIn(t: int, offset: int): int { MonthOf(LocalDay(t, offset)) }

  function QuarterOf(t: int, offset: int): int { MonthIn(t, offset) / 3 }

  /**
   * The pack due at `runAt` is made at `now`, and the next is counted from `now`. It is made in
   * time when the next run is still to come; by the quarter, the run of the month of `now` must
   * be past in the quarter of `runAt`, or still to come in the quarter after.
   */
  predicate InTime(spec: Spec, runAt: int, now: int, offset: int) {
    if spec.cadence.Quarterly? then
      || (QuarterOf(now, offset) == QuarterOf(runAt, offset) && RunInMonthOf(spec, now, offset) <= now)
      || (QuarterOf(now, offset) == QuarterOf(runAt, offset) + 1 && now < RunInMonthOf(spec, now, offset))
    else now < NextRun(spec, runAt, offset)
  }

  /** The next pack takes up where this one left off exactly when this one was made in time. */
  lemma PeriodsMeetExactlyWhen(spec: Spec, runAt: int, now: int, offset: int)
    requires Valid(spec) && Matches(spec) && SomeRun(spec, runAt, offset) && runAt <= now
    ensures SomeRun(spec, NextRun(spec, now, offset), offset) && now < NextRun(spec, now, offset)
    ensures PeriodBefore(spec.kind, NextRun(spec, now, offset), offset).start
            == PeriodBefore(spec.kind, runAt, offset).end + 1
            <==> InTime(spec, runAt, now, offset)
  {
    if spec.cadence.Weekly? {
      WeeklyIsLeast(spec, now, offset, now);
      WeeksMeet(spec, runAt, now, offset);
    } else {
      NextInMonths(spec, now, offset);
      if spec.cadence.Monthly? {
        MonthsMeet(spec, runAt, now, offset);
      } else {
        QuartersMeet(spec, runAt, now, offset);
      }
    }
  }

  /** The month of the next run; a run itself is the run of its own month. */
  lemma NextInMonths(spec: Spec, now: int, offset: int)
    requires Valid(spec) && !spec.cadence.Weekly?
    ensures var here := MonthIn(now, offset);
            MonthIn(NextRun(spec, now, offset), offset)
            == if RunInMonthOf(spec, now, offset) > now then here else here + Step(spec)
    ensures SomeRun(spec, NextRun(spec, now, offset), offset) && now < NextRun(spec, now, offset)
    ensures SomeRun(spec, now, offset) ==> RunInMonthOf(spec, now, offset) == now
  {
    hide FirstOf, DaysIn, RunDayIn;
    var here := MonthOf(LocalDay(now, offset));
    MonthlyIsLeast(spec, now, offset, now);
    RunDayIsThere(spec, here);
    RunDayIsThere(spec, here + Step(spec));
    LocalDayOf(RunDayIn(spec, here), spec.minute, offset);
    LocalDayOf(RunDayIn(spec, here + Step(spec)), spec.minute, offset);
  }

  lemma NextIsRun(spec: Spec, now: int, offset: int)
    requires Valid(spec)
    ensures SomeRun(spec, NextRun(spec, now, offset), offset) && now < NextRun(spec, now, offset)
  {
    if spec.cadence.Weekly? { WeeklyIsLeast(spec, now, offset, now); } else { NextInMonths(spec, now, offset); }
  }

  lemma WeeksMeet(spec: Spec, runAt: int, now: int, offset: int)
    requires Valid(spec) && Matches(spec) && SomeRun(spec, runAt, offset) && runAt <= now && spec.cadence.Weekly?
    ensures PeriodBefore(spec.kind, NextRun(spec, now, offset), offset).start
            == PeriodBefore(spec.kind, runAt, offset).end + 1
            <==> now < NextRun(spec, runAt, offset)
  {
    var today := LocalDay(runAt, offset);
    LocalDayOf(today + 7, spec.minute, offset);
    assert IsoWeekday(today + 7) == IsoWeekday(today);
    assert NextRun(spec, runAt, offset) == InstantOf(today + 7, spec.minute, offset);
    var next := NextRun(spec, now, offset);
    WeeklyIsLeast(spec, now, offset, InstantOf(today + 7, spec.minute, offset));
    var day := LocalDay(next, offset);
    assert next == InstantOf(day, spec.minute, offset) && IsoWeekday(day) == IsoWeekday(today);
    hide NextRun, IsRun;
  }

  lemma SameMonthStart(a: int, b: int)
    ensures FirstOf(a) == FirstOf(b) <==> a == b
  {
    if a < b { MonthsAscend(a, b); } else { MonthsAscend(b, a); }
  }

  lemma MonthPeriods(runAt: int, next: int, offset: int)
    ensures PeriodBefore(PreviousMonth, next, offset).start == PeriodBefore(PreviousMonth, runAt, offset).end + 1
            <==> MonthIn(next, offset) == MonthIn(runAt, offset) + 1
    ensures PeriodBefore(PreviousQuarter, next, offset).start == PeriodBefore(PreviousQuarter, runAt, offset).end + 1
            <==> QuarterOf(next, offset) == QuarterOf(runAt, offset) + 1
  {
    hide FirstOf, DaysIn, MonthOf, LocalDay;
    var a, b := MonthIn(runAt, offset), MonthIn(next, offset);
    SameMonthStart(b - 1, a);
    SameMonthStart(b - b % 3 - 3, a - a % 3);
  }

  lemma MonthsMeet(spec: Spec, runAt: int, now: int, offset: int)
    requires Valid(spec) && Matches(spec) && SomeRun(spec, runAt, offset) && runAt <= now && spec.cadence.Monthly?
    ensures PeriodBefore(spec.kind, NextRun(spec, now, offset), offset).start
            == PeriodBefore(spec.kind, runAt, offset).end + 1
            <==> now < NextRun(spec, runAt, offset)
  {
    NextInMonths(spec, now, offset);
    NextInMonths(spec, runAt, offset);
    var due := NextRun(spec, runAt, offset);
    NextInMonths(spec, due, offset);
    MonthPeriods(runAt, NextRun(spec, now, offset), offset);
    LaterMonth(runAt, now, offset);
    LaterMonth(due, now, offset);
    LaterMonth(now, due, offset);
    SameMonthRun(spec, runAt, now, offset);
    SameMonthRun(spec, due, now, offset);
    hide FirstOf, DaysIn, RunDayIn, MonthOf, LocalDay, NextRun, PeriodBefore, SomeRun, MonthIn, RunInMonthOf;
  }

  lemma SameMonthRun(spec: Spec, s: int, t: int, offset: int)
    ensures MonthIn(s, offset) == MonthIn(t, offset) ==> RunInMonthOf(spec, s, offset) == RunInMonthOf(spec, t, offset)
  {
  }

  lemma LaterMonth(s: int, t: int, offset: int)
    ensures s <= t ==> MonthIn(s, offset) <= MonthIn(t, offset)
  {
    hide FirstOf, DaysIn;
    var a, b := MonthOf(LocalDay(s, offset)), MonthOf(LocalDay(t, offset));
    if s <= t && b < a { MonthsAscend(b + 1, a); }
  }

  lemma QuartersMeet(spec: Spec, runAt: int, now: int, offset: int)
    requires Valid(spec) && Matches(spec) && SomeRun(spec, runAt, offset) && runAt <= now && spec.cadence.Quarterly?
    ensures PeriodBefore(spec.kind, NextRun(spec, now, offset), offset).start
            == PeriodBefore(spec.kind, runAt, offset).end + 1
            <==> InTime(spec, runAt, now, offset)
  {
    NextInMonths(spec, now, offset);
    MonthPeriods(runAt, NextRun(spec, now, offset), offset);
    LaterMonth(runAt, now, offset);
    hide FirstOf, DaysIn, RunDayIn, MonthOf, LocalDay, NextRun, PeriodBefore, SomeRun, MonthIn, RunInMonthOf;
  }

  // ---- Runs made one after another -------------------------------------------------------

  /** The run due after `k` packs, each next one counted from the instant its forerunner was made. */
  function RunNumber(spec: Spec, first: int, made: seq<int>, k: nat, offset: int): int
    requires k <= |made|
  {
    if k == 0 then first else NextRun(spec, made[k - 1], offset)
  }

  function PeriodAt(spec: Spec, first: int, made: seq<int>, k: nat, offset: int): Period
    requires k <= |made|
  {
    PeriodBefore(spec.kind, RunNumber(spec, first, made, k, offset), offset)
  }

  /** No pack is made before it is due. */
  predicate WhenDue(spec: Spec, first: int, made: seq<int>, offset: int) {
    forall k :: 0 <= k < |made| ==> RunNumber(spec, first, made, k, offset) <= made[k]
  }

  predicate AllInTime(spec: Spec, first: int, made: seq<int>, offset: int) {
    forall k :: 0 <= k < |made| ==> InTime(spec, RunNumber(spec, first, made, k, offset), made[k], offset)
  }

  predicate CoversAt(spec: Spec, first: int, made: seq<int>, k: nat, offset: int, day: int)
    requires k <= |made|
  {
    PeriodAt(spec, first, made, k, offset).start <= day <= PeriodAt(spec, first, made, k, offset).end
  }

  predicate CoveredOnce(spec: Spec, first: int, made: seq<int>, offset: int, day: int) {
    && (exists k :: 0 <= k <= |made| && CoversAt(spec, first, made, k, offset, day))
    && (forall i, j :: 0 <= i < j <= |made| ==>
          !(CoversAt(spec, first, made, i, offset, day) && CoversAt(spec, first, made, j, offset, day)))
  }

  /** No day from the first period to the last is left out or in two packs. */
  predicate EveryDayOnce(spec: Spec, first: int, made: seq<int>, offset: int) {
    forall day :: PeriodAt(spec, first, made, 0, offset).start <= day <= PeriodAt(spec, first, made, |made|, offset).end
                  ==> CoveredOnce(spec, first, made, offset, day)
  }

  lemma RunsAreRuns(spec: Spec, first: int, made: seq<int>, k: nat, offset: int)
    requires Valid(spec) && SomeRun(spec, first, offset) && k <= |made|
    ensures SomeRun(spec, RunNumber(spec, first, made, k, offset), offset)
  {
    if k > 0 { NextIsRun(spec, made[k - 1], offset); }
  }

  lemma PeriodNotEmpty(kind: PeriodKind, runAt: int, offset: int)
    ensures PeriodBefore(kind, runAt, offset).start <= PeriodBefore(kind, runAt, offset).end < LocalDay(runAt, offset)
  {
    hide FirstOf, DaysIn, LocalDay;
    var month := MonthOf(LocalDay(runAt, offset));
    MonthsAscend(month - 1, month);
    MonthsAscend(month - month % 3 - 3, month - month % 3);
    MonthsAscend(month - month % 3, month);
  }

  /** Periods are blocks: those of two instants are one and the same, or in order and apart. */
  lemma PeriodsAreBlocks(kind: PeriodKind, s: int, t: int, offset: int)
    requires s <= t
    ensures var p, q := PeriodBefore(kind, s, offset), PeriodBefore(kind, t, offset);
            p == q || p.end < q.start
  {
    hide FirstOf, DaysIn, MonthOf;
    LaterMonth(s, t, offset);
    var a, b := MonthIn(s, offset), MonthIn(t, offset);
    if a < b { MonthsAscend(a, b - 1); }
    var qa, qb := a - a % 3, b - b % 3;
    if qa < qb { MonthsAscend(qa, qb - 3); }
    if kind.PreviousWeek? { WeekBlocks(LocalDay(s, offset), LocalDay(t, offset)); }
  }

  lemma WeekBlocks(a: int, b: int)
    requires a <= b
    ensures var m, n := a - (IsoWeekday(a) - 1), b - (IsoWeekday(b) - 1);
            m == n || m + 7 <= n
  {
  }

  lemma {:induction false} RunsInOrder(spec: Spec, first: int, made: seq<int>, i: nat, j: nat, offset: int)
    requires Valid(spec) && SomeRun(spec, first, offset) && WhenDue(spec, first, made, offset) && i <= j <= |made|
    ensures RunNumber(spec, first, made, i, offset) <= RunNumber(spec, first, made, j, offset)
    decreases j - i
  {
    hide NextRun, SomeRun;
    if i < j {
      RunsInOrder(spec, first, made, i, j - 1, offset);
      NextIsRun(spec, made[j - 1], offset);
    }
  }

  lemma {:induction false} TiledPrefix(spec: Spec, first: int, made: seq<int>, k: nat, offset: int, day: int)
    requires Valid(spec) && Matches(spec) && SomeRun(spec, first, offset) && WhenDue(spec, first, made, offset)
    requires AllInTime(spec, first, made, offset) && k <= |made|
    requires PeriodAt(spec, first, made, 0, offset).start <= day <= PeriodAt(spec, first, made, k, offset).end
    ensures exists j :: 0 <= j <= k && CoversAt(spec, first, made, j, offset, day)
  {
    hide PeriodBefore, NextRun, SomeRun, InTime;
    if day < PeriodAt(spec, first, made, k, offset).start {
      RunsAreRuns(spec, first, made, k - 1, offset);
      PeriodsMeetExactlyWhen(spec, RunNumber(spec, first, made, k - 1, offset), made[k - 1], offset);
      TiledPrefix(spec, first, made, k - 1, offset, day);
    } else {
      assert CoversAt(spec, first, made, k, offset, day);
    }
  }

  lemma PeriodsApart(spec: Spec, first: int, made: seq<int>, i: nat, j: nat, offset: int)
    requires Valid(spec) && Matches(spec) && SomeRun(spec, first, offset) && WhenDue(spec, first, made, offset)
    requires AllInTime(spec, first, made, offset) && i < j <= |made|
    ensures PeriodAt(spec, first, made, i, offset).end < PeriodAt(spec, first, made, j, offset).start
  {
    hide PeriodBefore, NextRun, SomeRun, InTime;
    RunsAreRuns(spec, first, made, i, offset);
    PeriodsMeetExactlyWhen(spec, RunNumber(spec, first, made, i, offset), made[i], offset);
    PeriodNotEmpty(spec.kind, RunNumber(spec, first, made, i, offset), offset);
    RunsInOrder(spec, first, made, i + 1, j, offset);
    PeriodsAreBlocks(spec.kind, RunNumber(spec, first, made, i + 1, offset), RunNumber(spec, first, made, j, offset), offset);
    PeriodNotEmpty(spec.kind, RunNumber(spec, first, made, i + 1, offset), offset);
  }

  /** From a first run on, the packs cover every day once exactly when every one of them was made in time. */
  lemma EveryDayOnceExactlyWhen(spec: Spec, first: int, made: seq<int>, offset: int)
    requires Valid(spec) && Matches(spec) && SomeRun(spec, first, offset) && WhenDue(spec, first, made, offset)
    ensures EveryDayOnce(spec, first, made, offset) <==> AllInTime(spec, first, made, offset)
  {
    hide PeriodBefore, NextRun, SomeRun, InTime;
    if AllInTime(spec, first, made, offset) {
      forall day | PeriodAt(spec, first, made, 0, offset).start <= day <= PeriodAt(spec, first, made, |made|, offset).end
        ensures CoveredOnce(spec, first, made, offset, day)
      {
        TiledPrefix(spec, first, made, |made|, offset, day);
        forall i, j | 0 <= i < j <= |made|
          ensures !(CoversAt(spec, first, made, i, offset, day) && CoversAt(spec, first, made, j, offset, day))
        {
          PeriodsApart(spec, first, made, i, j, offset);
        }
      }
    } else {
      var k :| 0 <= k < |made| && !InTime(spec, RunNumber(spec, first, made, k, offset), made[k], offset);
      LateBreaks(spec, first, made, k, offset);
    }
  }

  /** After a pack made out of time some day is in two packs, or in none. */
  lemma LateBreaks(spec: Spec, first: int, made: seq<int>, k: nat, offset: int)
    requires Valid(spec) && Matches(spec) && SomeRun(spec, first, offset) && WhenDue(spec, first, made, offset)
    requires k < |made| && !InTime(spec, RunNumber(spec, first, made, k, offset), made[k], offset)
    ensures !EveryDayOnce(spec, first, made, offset)
  {
    hide PeriodBefore, NextRun, SomeRun, InTime;
    var a, b := RunNumber(spec, first, made, k, offset), RunNumber(spec, first, made, k + 1, offset);
    RunsAreRuns(spec, first, made, k, offset);
    PeriodsMeetExactlyWhen(spec, a, made[k], offset);
    RunsInOrder(spec, first, made, k, k + 1, offset);
    PeriodsAreBlocks(spec.kind, a, b, offset);
    PeriodNotEmpty(spec.kind, a, offset);
    var day := if PeriodAt(spec, first, made, k, offset) == PeriodAt(spec, first, made, k + 1, offset)
               then PeriodAt(spec, first, made, k, offset).start else PeriodAt(spec, first, made, k, offset).end + 1;
    forall j | 0 <= j <= |made|
      ensures j <= k ==> PeriodAt(spec, first, made, j, offset).end <= PeriodAt(spec, first, made, k, offset).end
      ensures j > k ==> PeriodAt(spec, first, made, k + 1, offset).start <= PeriodAt(spec, first, made, j, offset).start
    {
      PeriodOrder(spec, first, made, j, k, offset);
    }
    PeriodOrder(spec, first, made, 0, k, offset);
    PeriodOrder(spec, first, made, |made|, k, offset);
    assert PeriodAt(spec, first, made, 0, offset).start <= day <= PeriodAt(spec, first, made, |made|, offset).end;
    if PeriodAt(spec, first, made, k, offset) == PeriodAt(spec, first, made, k + 1, offset) {
      assert CoversAt(spec, first, made, k, offset, day) && CoversAt(spec, first, made, k + 1, offset, day);
    } else {
      forall j | 0 <= j <= |made| ensures !CoversAt(spec, first, made, j, offset, day) {}
    }
    assert !CoveredOnce(spec, first, made, offset, day);
  }

  lemma PeriodOrder(spec: Spec, first: int, made: seq<int>, j: nat, k: nat, offset: int)
    requires Valid(spec) && Matches(spec) && SomeRun(spec, first, offset) && WhenDue(spec, first, made, offset)
    requires k < |made| && j <= |made|
    ensures var at := PeriodAt(spec, first, made, j, offset);
            && at.start <= at.end
            && (j <= k ==> at.start <= PeriodAt(spec, first, made, k, offset).start && at.end <= PeriodAt(spec, first, made, k, offset).end)
            && (j > k ==> PeriodAt(spec, first, made, k + 1, offset).start <= at.start
                          && PeriodAt(spec, first, made, k + 1, offset).end <= at.end)
  {
    hide PeriodBefore, NextRun, SomeRun, InTime;
    PeriodNotEmpty(spec.kind, RunNumber(spec, first, made, j, offset), offset);
    PeriodNotEmpty(spec.kind, RunNumber(spec, first, made, k, offset), offset);
    PeriodNotEmpty(spec.kind, RunNumber(spec, first, made, k + 1, offset), offset);
    if j <= k {
      RunsInOrder(spec, first, made, j, k, offset);
      PeriodsAreBlocks(spec.kind, RunNumber(spec, first, made, j, offset), RunNumber(spec, first, made, k, offset), offset);
    } else {
      RunsInOrder(spec, first, made, k + 1, j, offset);
      PeriodsAreBlocks(spec.kind, RunNumber(spec, first, made, k + 1, offset), RunNumber(spec, first, made, j, offset), offset);
    }
  }

  /** A quarterly pack made in a later month of its quarter, before that month's run, is made again then. */
  lemma QuarterMadeTwice(spec: Spec, runAt: int, now: int, offset: int)
    requires Valid(spec) && spec.cadence.Quarterly? && QuarterOf(now, offset) == QuarterOf(runAt, offset)
    requires now < RunInMonthOf(spec, now, offset)
    ensures PeriodBefore(PreviousQuarter, NextRun(spec, now, offset), offset) == PeriodBefore(PreviousQuarter, runAt, offset)
  {
    NextInMonths(spec, now, offset);
    hide FirstOf, DaysIn, MonthOf, LocalDay, NextRun, RunInMonthOf;
    var a, b := MonthIn(runAt, offset), MonthIn(NextRun(spec, now, offset), offset);
    assert a - a % 3 == b - b % 3;
  }

  lemma StartOfYear(spec: Spec, january: int, day: int)
    requires spec.runDay == 31 && january == 0 && day == 30
    ensures MonthOf(day) == january && MonthOf(day + 1) == january + 1
    ensures RunDayIn(spec, january) == day && RunDayIn(spec, january + 1) == day + 28
  {
    assert FirstOf(1) == 31 && FirstOf(2) == 59;
    InOneMonth(30, 0);
    InOneMonth(31, 1);
  }

  /** So it is when a pack due on the last minute of January is made a minute late. */
  lemma AMinuteLateInJanuary(spec: Spec, january: int, day: int)
    requires spec == Spec(Quarterly, 31, 1439, PreviousQuarter) && january == 0 && day == 30
    ensures var due := InstantOf(day, 1439, 0);
            && SomeRun(spec, due, 0) && QuarterOf(due + 1, 0) == QuarterOf(due, 0)
            && due + 1 < RunInMonthOf(spec, due + 1, 0)
  {
    StartOfYear(spec, january, day);
    hide FirstOf, DaysIn, MonthOf, RunDayIn;
    LocalDayOf(day, 1439, 0);
    LocalDayOf(day + 1, 0, 0);
  }

  /** Made a week late, a weekly pack leaves a week out. */
  lemma WeekLeftOut()
    ensures var spec := Spec(Weekly, 1, 360, PreviousWeek);
            var due := InstantOf(4, 360, 0);
            && SomeRun(spec, due, 0)
            && PeriodBefore(PreviousWeek, NextRun(spec, due + 7 * DAY, 0), 0).start
               == PeriodBefore(PreviousWeek, due, 0).end + 8
  {
    LocalDayOf(4, 360, 0);
    LocalDayOf(18, 360, 0);
  }
}

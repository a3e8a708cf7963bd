/** The business calendar: working hours per weekday, a holiday set and the operations the SLA engine needs. */
module Calendars {
  // Instants are whole minutes; a zone is a fixed offset, which is the only order-preserving
  // bijection between local and absolute minutes. A local date is its day number, and day 0 is
  // 1 January 1970, a Thursday.

  import opened Wrappers

  const DAY := 1440
  const MAX_DAYS := 5000

  datatype Hours = Hours(weekday: int, startMinute: int, endMinute: int)

  datatype BusinessCalendar = BusinessCalendar(
    offset: int,
    byWeekday: map<int, seq<Hours>>,
    holidays: set<int>
  )

  /** The calendars the engine runs on: every minute, or business hours. */
  datatype Calendar = WallClock | Business(cal: BusinessCalendar)

  // ---- Zone arithmetic ------------------------------------------------------

  function DayOf(cal: BusinessCalendar, t: int): int { (t + cal.offset) / DAY }

  function MinuteOf(cal: BusinessCalendar, t: int): int { (t + cal.offset) % DAY }

  function InstantOf(cal: BusinessCalendar, day: int, minute: int): int { day * DAY + minute - cal.offset }

  /** 0 is Sunday. */
  function Weekday(day: int): int { (day + 4) % 7 }

  function Intervals(cal: BusinessCalendar, day: int): seq<Hours> {
    if day in cal.holidays || Weekday(day) !in cal.byWeekday then [] else cal.byWeekday[Weekday(day)]
  }

  predicate Open(list: seq<Hours>, minute: int) {
    exists i :: 0 <= i < |list| && list[i].startMinute <= minute < list[i].endMinute
  }

  predicate IsWorkingTime(cal: BusinessCalendar, t: int) {
    Open(Intervals(cal, DayOf(cal, t)), MinuteOf(cal, t))
  }

  /** A day's intervals in order, inside the day and not overlapping. */
  predicate Orderly(list: seq<Hours>) {
    && (forall i :: 0 <= i < |list| ==> 0 <= list[i].startMinute < list[i].endMinute <= DAY)
    && (forall i, j :: 0 <= i < j < |list| ==> list[i].endMinute <= list[j].startMinute)
  }

  predicate ValidCalendar(cal: BusinessCalendar) {
    forall w :: w in cal.byWeekday ==> Orderly(cal.byWeekday[w])
  }

  // ---- Counting working minutes one by one ---------------------------------

  predicate Working(c: Calendar, t: int) {
    c.Business? ==> IsWorkingTime(c.cal, t)
  }

  predicate Valid(c: Calendar) {
    c.Business? ==> ValidCalendar(c.cal)
  }

  /** The number of working minutes in [a, b). */
  function Count(c: Calendar, a: int, b: int): nat
    decreases b - a
  {
    if b <= a then 0 else Count(c, a, b - 1) + (if Working(c, b - 1) then 1 else 0)
  }

  lemma {:induction false} CountAdds(c: Calendar, a: int, m: int, b: int)
    requires a <= m <= b
    ensures Count(c, a, b) == Count(c, a, m) + Count(c, m, b)
    decreases b - m
  {
    if m < b {
      CountAdds(c, a, m, b - 1);
    }
  }

  lemma {:induction false} CountBounds(c: Calendar, a: int, b: int)
    requires a <= b
    ensures Count(c, a, b) <= b - a
    decreases b - a
  {
    if a < b {
      CountBounds(c, a, b - 1);
    }
  }

  lemma {:induction false} CountIdle(c: Calendar, a: int, b: int)
    requires forall t :: a <= t < b ==> !Working(c, t)
    ensures Count(c, a, b) == 0
    decreases b - a
  {
    if a < b {
      CountIdle(c, a, b - 1);
    }
  }

  lemma {:induction false} CountBusy(c: Calendar, a: int, b: int)
    requires a <= b
    requires forall t :: a <= t < b ==> Working(c, t)
    ensures Count(c, a, b) == b - a
    decreases b - a
  {
    if a < b {
      CountBusy(c, a, b - 1);
    }
  }

  // ---- The two operations, stated on the count -------------------------------

  /** Midnight at the end of the last local day a walk from `t` looks at. */
  function Horizon(cal: BusinessCalendar, t: int): int {
    InstantOf(cal, DayOf(cal, t) + MAX_DAYS, 0)
  }

  /** That is a local midnight, more than 4999 and at most 5000 days ahead. */
  lemma HorizonIsMidnight(cal: BusinessCalendar, t: int)
    ensures (Horizon(cal, t) + cal.offset) % 1440 == 0
    ensures 4999 * 1440 < Horizon(cal, t) - t <= 5000 * 1440
  {
  }

  /** The last instant up to which a walk from `a` towards `b` sees working time. */
  function Sight(c: Calendar, a: int, b: int): int {
    if c.Business? && Horizon(c.cal, a) < b then Horizon(c.cal, a) else b
  }

  /** `t` is the least instant with exactly `n` working minutes since `from`. */
  predicate IsDue(c: Calendar, from: int, n: int, t: int) {
    && from < t
    && Count(c, from, t) == n
    && Working(c, t - 1)
  }

  /** Working minutes between two instants, as far as the walk sees. */
  function Between(c: Calendar, a: int, b: int): nat {
    Count(c, a, Sight(c, a, b))
  }

  /** When `n` minutes will have been worked from `from` on; None where the walk gives up. */
  function Add(c: Calendar, from: int, n: int): (r: Option<int>)
    ensures n <= 0 ==> r == Some(from)
    ensures n > 0 && r.Some? ==> IsDue(c, from, n, r.value)
    ensures n > 0 ==> (r.None? <==> c.Business? && Count(c, from, Horizon(c.cal, from)) < n)
  {
    if n <= 0 then Some(from)
    else if c.Business? && Count(c, from, Horizon(c.cal, from)) < n then None
    else
      var hi := if c.Business? then Horizon(c.cal, from) else from + n;
      assert Count(c, from, hi) >= n by { if c.WallClock? { CountBusy(c, from, hi); } }
      Some(FirstReaching(c, from, n, hi))
  }

  function FirstReaching(c: Calendar, from: int, n: int, hi: int): (t: int)
    requires 0 < n <= Count(c, from, hi)
    ensures t <= hi && IsDue(c, from, n, t)
    decreases hi - from
  {
    if n <= Count(c, from, hi - 1) then FirstReaching(c, from, n, hi - 1) else hi
  }

  /** IsDue singles out one instant, and it is the least to reach the count. */
  lemma DueIsLeast(c: Calendar, from: int, n: int, t: int, u: int)
    requires IsDue(c, from, n, t)
    ensures u >= t <==> Count(c, from, u) >= n
    ensures IsDue(c, from, n, u) ==> u == t
  {
    Least(c, from, n, t, u);
    if IsDue(c, from, n, u) { Least(c, from, n, u, t); }
  }

  lemma Least(c: Calendar, from: int, n: int, t: int, u: int)
    requires IsDue(c, from, n, t)
    ensures u >= t <==> Count(c, from, u) >= n
  {
    if u >= t {
      CountAdds(c, from, t, u);
    } else if u > from {
      CountAdds(c, from, u, t - 1);
    }
  }

  // ---- Working time, from the fields alone ---------------------------------------------

  /** The local day is no holiday and an interval of its weekday covers the minute; 0 is Sunday and day 0 a Thursday. */
  predicate Worked(cal: BusinessCalendar, t: int) {
    var day, minute := (t + cal.offset) / 1440, (t + cal.offset) % 1440;
    && day !in cal.holidays
    && exists w, i :: FallsOn(day, w) && w in cal.byWeekday && 0 <= i < |cal.byWeekday[w]|
                      && cal.byWeekday[w][i].startMinute <= minute < cal.byWeekday[w][i].endMinute
  }

  lemma WorkingMeansWorked(cal: BusinessCalendar, t: int)
    ensures Working(Business(cal), t) <==> Worked(cal, t)
    ensures IsWorkingTime(cal, t) <==> Worked(cal, t)
  {
    var day := (t + cal.offset) / 1440;
    OneWeekday(day);
    if IsWorkingTime(cal, t) {
      var w := Weekday(day);
      var i :| 0 <= i < |cal.byWeekday[w]|
               && cal.byWeekday[w][i].startMinute <= MinuteOf(cal, t) < cal.byWeekday[w][i].endMinute;
    }
  }

  predicate FallsOn(day: int, w: int) { 0 <= w <= 6 && (day + 4 - w) % 7 == 0 }

  lemma OneWeekday(day: int)
    ensures forall w :: FallsOn(day, w) <==> w == Weekday(day)
  {
  }

  lemma DueIsWorked(cal: BusinessCalendar, from: int, n: int)
    requires n > 0 && Add(Business(cal), from, n).Some?
    ensures var due := Add(Business(cal), from, n).value;
            from < due && Worked(cal, due - 1)
  {
    WorkingMeansWorked(cal, Add(Business(cal), from, n).value - 1);
    hide Working, Worked;
  }

  lemma {:induction false} NothingWorked(cal: BusinessCalendar, a: int, b: int)
    requires forall t :: a <= t < b ==> !Worked(cal, t)
    ensures Count(Business(cal), a, b) == 0
    decreases b - a
  {
    if a < b {
      WorkingMeansWorked(cal, b - 1);
      assert !Worked(cal, b - 1);
      NothingWorked(cal, a, b - 1);
    }
  }

  /** A holiday is worth nothing, from its first minute to the next day's, whatever the weekday's hours. */
  lemma HolidayIsWorthNothing(cal: BusinessCalendar, day: int, a: int, b: int)
    requires day in cal.holidays && day * 1440 - cal.offset <= a <= b <= (day + 1) * 1440 - cal.offset
    ensures Between(Business(cal), a, b) == 0
  {
    forall t | a <= t < b ensures !Worked(cal, t) { assert (t + cal.offset) / 1440 == day; }
    NothingWorked(cal, a, Sight(Business(cal), a, b));
  }

  // ---- One local day -----------------------------------------------------------

  /** How far into the day the first `k` intervals take a walk that starts at minute `m`. */
  function Reach(list: seq<Hours>, k: nat, m: int): int
    requires k <= |list|
  {
    if k == 0 then m else Max(m, list[k - 1].endMinute)
  }

  function Max(a: int, b: int): int { if a >= b then a else b }

  function Min(a: int, b: int): int { if a <= b then a else b }

  lemma DayPartsOf(cal: BusinessCalendar, t: int)
    ensures 0 <= MinuteOf(cal, t) < DAY
    ensures InstantOf(cal, DayOf(cal, t), MinuteOf(cal, t)) == t
    ensures forall u :: u <= t ==> Count(Business(cal), t, u) == 0
  {}

  lemma WorkingOnDay(cal: BusinessCalendar, day: int, minute: int)
    requires 0 <= minute < DAY
    ensures Working(Business(cal), InstantOf(cal, day, minute)) == Open(Intervals(cal, day), minute)
  {
    assert DayOf(cal, InstantOf(cal, day, minute)) == day;
    assert MinuteOf(cal, InstantOf(cal, day, minute)) == minute;
  }

  /** No interval covers [lo, hi): the stretch holds no working minute. */
  lemma IdleStretch(cal: BusinessCalendar, day: int, lo: int, hi: int)
    requires 0 <= lo && hi <= DAY
    requires forall m :: lo <= m < hi ==> !Open(Intervals(cal, day), m)
    ensures Count(Business(cal), InstantOf(cal, day, lo), InstantOf(cal, day, hi)) == 0
  {
    forall t | InstantOf(cal, day, lo) <= t < InstantOf(cal, day, hi) ensures !Working(Business(cal), t) {
      WorkingOnDay(cal, day, t - InstantOf(cal, day, 0));
    }
    CountIdle(Business(cal), InstantOf(cal, day, lo), InstantOf(cal, day, hi));
  }

  /** One interval covers [lo, hi): every minute of the stretch is working time. */
  lemma BusyStretch(cal: BusinessCalendar, day: int, k: nat, lo: int, hi: int)
    requires k < |Intervals(cal, day)| && ValidCalendar(cal)
    requires Intervals(cal, day)[k].startMinute <= lo <= hi <= Intervals(cal, day)[k].endMinute
    ensures Count(Business(cal), InstantOf(cal, day, lo), InstantOf(cal, day, hi)) == hi - lo
    ensures lo < hi ==> Working(Business(cal), InstantOf(cal, day, hi - 1))
  {
    forall t | InstantOf(cal, day, lo) <= t < InstantOf(cal, day, hi) ensures Working(Business(cal), t) {
      WorkingOnDay(cal, day, t - InstantOf(cal, day, 0));
    }
    CountBusy(Business(cal), InstantOf(cal, day, lo), InstantOf(cal, day, hi));
  }

  /** The gap in front of interval `k` (or in front of midnight) is idle. */
  lemma IdleGap(cal: BusinessCalendar, day: int, k: nat, m: int)
    requires ValidCalendar(cal) && 0 <= m < DAY
    requires k <= |Intervals(cal, day)|
    ensures var list := Intervals(cal, day);
            var lo := Reach(list, k, m);
            var hi := if k < |list| then list[k].startMinute else DAY;
            0 <= lo <= DAY && Count(Business(cal), InstantOf(cal, day, lo), InstantOf(cal, day, hi)) == 0
  {
    var list := Intervals(cal, day);
    var lo := Reach(list, k, m);
    var hi := if k < |list| then list[k].startMinute else DAY;
    forall x | lo <= x < hi ensures !Open(list, x) {
      forall i | 0 <= i < |list| ensures !(list[i].startMinute <= x < list[i].endMinute) {
        if i < k - 1 { assert list[i].endMinute <= list[k - 1].startMinute; }
        if k < i { assert list[k].endMinute <= list[i].startMinute; }
      }
    }
    IdleStretch(cal, day, lo, hi);
  }

  /** What the walk knows when it meets interval `k` with `x` of its minutes behind it. */
  lemma IntervalStep(cal: BusinessCalendar, from: int, day: int, m: int, k: nat, x: int)
    requires ValidCalendar(cal) && 0 <= m < DAY
    requires k < |Intervals(cal, day)| && from <= InstantOf(cal, day, m)
    requires Intervals(cal, day)[k].endMinute > m
    requires Max(Intervals(cal, day)[k].startMinute, m) <= x <= Intervals(cal, day)[k].endMinute
    ensures var c, list := Business(cal), Intervals(cal, day);
            var start := Max(list[k].startMinute, m);
            && Count(c, from, InstantOf(cal, day, x))
               == Count(c, from, InstantOf(cal, day, Reach(list, k, m))) + x - start
            && (start < x ==> Working(c, InstantOf(cal, day, x) - 1))
  {
    var c, list := Business(cal), Intervals(cal, day);
    var start := Max(list[k].startMinute, m);
    if k > 0 { assert list[k - 1].endMinute <= list[k].startMinute; }
    var reached, begun := InstantOf(cal, day, Reach(list, k, m)), InstantOf(cal, day, start);
    assert Count(c, reached, begun) == 0 by { IdleGap(cal, day, k, m); }
    CountAdds(c, from, reached, begun);
    BusyStretch(cal, day, k, start, x);
    CountAdds(c, from, begun, InstantOf(cal, day, x));
  }

  /** Past the last interval nothing is left of the day. */
  lemma DayEnds(cal: BusinessCalendar, from: int, day: int, m: int)
    requires ValidCalendar(cal) && 0 <= m < DAY && from <= InstantOf(cal, day, m)
    ensures var list := Intervals(cal, day);
            && m <= Reach(list, |list|, m) <= DAY
            && Count(Business(cal), from, InstantOf(cal, day + 1, 0))
               == Count(Business(cal), from, InstantOf(cal, day, Reach(list, |list|, m)))
  {
    var list := Intervals(cal, day);
    IdleGap(cal, day, |list|, m);
    assert InstantOf(cal, day + 1, 0) == InstantOf(cal, day, DAY);
    CountAdds(Business(cal), from, InstantOf(cal, day, Reach(list, |list|, m)), InstantOf(cal, day, DAY));
  }

  /** A due instant inside the horizon is the one `Add` names. */
  lemma DueIsAdd(cal: BusinessCalendar, from: int, n: int, t: int)
    requires n > 0 && IsDue(Business(cal), from, n, t) && t <= Horizon(cal, from)
    ensures Add(Business(cal), from, n) == Some(t)
  {
    var c := Business(cal);
    CountAdds(c, from, t, Horizon(cal, from));
    DueIsLeast(c, from, n, t, Add(c, from, n).value);
  }

  /** The walk stops inside interval `k`: where it stops is the due instant. */
  lemma DueInInterval(cal: BusinessCalendar, from: int, n: int, day: int, m: int, k: nat, remaining: int)
    requires ValidCalendar(cal) && 0 <= m < DAY
    requires k < |Intervals(cal, day)| && from <= InstantOf(cal, day, m)
    requires Intervals(cal, day)[k].endMinute > m
    requires 0 < remaining <= Intervals(cal, day)[k].endMinute - Max(Intervals(cal, day)[k].startMinute, m)
    requires remaining + Count(Business(cal), from, InstantOf(cal, day, Reach(Intervals(cal, day), k, m))) == n
    requires day < DayOf(cal, from) + MAX_DAYS
    ensures Add(Business(cal), from, n)
            == Some(InstantOf(cal, day, Max(Intervals(cal, day)[k].startMinute, m) + remaining))
  {
    var x := Max(Intervals(cal, day)[k].startMinute, m) + remaining;
    IntervalStep(cal, from, day, m, k, x);
    DueIsAdd(cal, from, n, InstantOf(cal, day, x));
  }

  // ---- The loops ---------------------------------------------------------------

  /** Walks the days and uses up their intervals; None where the source throws. */
  method AddMinutes(cal: BusinessCalendar, from: int, minutes: int) returns (r: Option<int>)
    requires ValidCalendar(cal)
    ensures r == Add(Business(cal), from, minutes)
    ensures minutes > 0 && r.Some? ==> from < r.value && Worked(cal, r.value - 1)
  {
    hide Count, DayOf, MinuteOf, Worked;
    var remaining := minutes;
    if remaining <= 0 { return Some(from); }
    ghost var c := Business(cal);
    if Add(c, from, minutes).Some? { DueIsWorked(cal, from, minutes); }
    var day, minuteOfDay := DayOf(cal, from), MinuteOf(cal, from);
    DayPartsOf(cal, from);
    for steps := 0 to MAX_DAYS
      invariant day == DayOf(cal, from) + steps
      invariant 0 <= minuteOfDay < DAY && from <= InstantOf(cal, day, minuteOfDay)
      invariant steps > 0 ==> minuteOfDay == 0
      invariant remaining > 0
      invariant remaining + Count(c, from, InstantOf(cal, day, minuteOfDay)) == minutes
    {
      var list := Intervals(cal, day);
      for k := 0 to |list|
        invariant remaining > 0
        invariant remaining + Count(c, from, InstantOf(cal, day, Reach(list, k, minuteOfDay))) == minutes
      {
        var hours := list[k];
        if hours.endMinute <= minuteOfDay { continue; }
        var start := Max(hours.startMinute, minuteOfDay);
        var available := hours.endMinute - start;
        if remaining <= available {
          var due := InstantOf(cal, day, start + remaining);
          DueInInterval(cal, from, minutes, day, minuteOfDay, k, remaining);
          return Some(due);
        }
        IntervalStep(cal, from, day, minuteOfDay, k, hours.endMinute);
        remaining := remaining - available;
      }
      DayEnds(cal, from, day, minuteOfDay);
      day := day + 1;
      minuteOfDay := 0;
    }
    assert InstantOf(cal, day, minuteOfDay) == Horizon(cal, from);
    return None;
  }

  /** Working minutes between two instants. */
  method MinutesBetween(cal: BusinessCalendar, a: int, b: int) returns (total: nat)
    requires ValidCalendar(cal)
    ensures total == Between(Business(cal), a, b)
  {
    hide Count, DayOf, MinuteOf;
    DayPartsOf(cal, a);
    if b <= a { return 0; }
    ghost var c := Business(cal);
    var endDay, endMinute := DayOf(cal, b), MinuteOf(cal, b);
    DayPartsOf(cal, b);
    var day, from := DayOf(cal, a), MinuteOf(cal, a);
    total := 0;
    for steps := 0 to MAX_DAYS
      invariant day == DayOf(cal, a) + steps <= endDay
      invariant 0 <= from < DAY && a <= InstantOf(cal, day, from) <= b
      invariant steps > 0 ==> from == 0
      invariant total == Count(c, a, InstantOf(cal, day, from))
    {
      var last := day == endDay;
      var to := if last then endMinute else DAY;
      var list := Intervals(cal, day);
      for k := 0 to |list|
        invariant total == Count(c, a, InstantOf(cal, day, Clip(from, Reach(list, k, from), to)))
      {
        var hours := list[k];
        var overlap := Min(hours.endMinute, to) - Max(hours.startMinute, from);
        OverlapStep(cal, a, day, from, to, k);
        if overlap > 0 { total := total + overlap; }
      }
      DayClips(cal, a, day, from, to);
      // Past the end date the walk would stop; with a fixed offset it meets the end date first.
      if last { return; }
      day := day + 1;
      from := 0;
    }
  }

  function Clip(lo: int, x: int, hi: int): int { Max(lo, Min(x, hi)) }

  lemma OverlapStep(cal: BusinessCalendar, a: int, day: int, from: int, to: int, k: nat)
    requires ValidCalendar(cal) && 0 <= from < DAY && from <= to <= DAY
    requires k < |Intervals(cal, day)| && a <= InstantOf(cal, day, from)
    ensures var c, list := Business(cal), Intervals(cal, day);
            var overlap := Min(list[k].endMinute, to) - Max(list[k].startMinute, from);
            Count(c, a, InstantOf(cal, day, Clip(from, Reach(list, k + 1, from), to)))
            == Count(c, a, InstantOf(cal, day, Clip(from, Reach(list, k, from), to))) + Max(overlap, 0)
  {
    var c, list := Business(cal), Intervals(cal, day);
    var start, end := Max(list[k].startMinute, from), Min(list[k].endMinute, to);
    if k > 0 { assert list[k - 1].endMinute <= list[k].startMinute; }
    if start < end {
      IntervalStep(cal, a, day, from, k, end);
    } else if list[k].endMinute > from && Reach(list, k, from) < to {
      // The interval starts at or after `to`: the walk is cut inside the idle gap.
      IdleGap(cal, day, k, from);
      var reached, cut := InstantOf(cal, day, Reach(list, k, from)), InstantOf(cal, day, to);
      CountAdds(c, a, reached, cut);
      CountAdds(c, reached, cut, InstantOf(cal, day, list[k].startMinute));
    }
  }

  lemma DayClips(cal: BusinessCalendar, a: int, day: int, from: int, to: int)
    requires ValidCalendar(cal) && 0 <= from < DAY && from <= to <= DAY
    requires a <= InstantOf(cal, day, from)
    ensures var list := Intervals(cal, day);
            Count(Business(cal), a, InstantOf(cal, day, to))
            == Count(Business(cal), a, InstantOf(cal, day, Clip(from, Reach(list, |list|, from), to)))
  {
    var c, list := Business(cal), Intervals(cal, day);
    var reached, cut := InstantOf(cal, day, Reach(list, |list|, from)), InstantOf(cal, day, to);
    IdleGap(cal, day, |list|, from);
    if reached < cut {
      CountAdds(c, a, reached, cut);
      CountAdds(c, reached, cut, InstantOf(cal, day, DAY));
    }
  }

  /** The first working instant at or after `at`; None is the thrown CalendarError. */
  method NextWorkingInstant(cal: BusinessCalendar, at: int) returns (r: Option<int>)
    requires ValidCalendar(cal)
    ensures r.Some? ==> at <= r.value && Worked(cal, r.value) && Count(Business(cal), at, r.value) == 0
    ensures r.None? <==> Count(Business(cal), at, Horizon(cal, at)) == 0
  {
    hide Count, DayOf, MinuteOf, Worked;
    ghost var c := Business(cal);
    var day, minuteOfDay := DayOf(cal, at), MinuteOf(cal, at);
    DayPartsOf(cal, at);
    for steps := 0 to MAX_DAYS
      invariant day == DayOf(cal, at) + steps
      invariant 0 <= minuteOfDay < DAY && at <= InstantOf(cal, day, minuteOfDay)
      invariant steps == 0 ==> at == InstantOf(cal, day, minuteOfDay)
      invariant steps > 0 ==> minuteOfDay == 0
      invariant Count(c, at, InstantOf(cal, day, minuteOfDay)) == 0
    {
      var list := Intervals(cal, day);
      for k := 0 to |list|
        invariant Reach(list, k, minuteOfDay) == minuteOfDay
      {
        var hours := list[k];
        if hours.endMinute <= minuteOfDay { continue; }
        var start := Max(hours.startMinute, minuteOfDay);
        IntervalStep(cal, at, day, minuteOfDay, k, start);
        IntervalStep(cal, at, day, minuteOfDay, k, start + 1);
        CountAdds(c, at, InstantOf(cal, day, start + 1), Horizon(cal, at));
        WorkingMeansWorked(cal, InstantOf(cal, day, start));
        if hours.startMinute <= minuteOfDay && steps == 0 { return Some(at); }
        return Some(InstantOf(cal, day, start));
      }
      DayEnds(cal, at, day, minuteOfDay);
      day := day + 1;
      minuteOfDay := 0;
    }
    return None;
  }
}

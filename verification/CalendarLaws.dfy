/** The algebra of adding and counting working minutes. */
module CalendarLaws {
  import opened Wrappers
  import opened Calendars

  lemma HorizonMonotone(cal: BusinessCalendar, a: int, b: int)
    requires a <= b
    ensures a < Horizon(cal, a) <= Horizon(cal, b)
  {}

  /** What `Between` is told to measure, it measures: nothing works beyond its sight. */
  predicate Measures(c: Calendar, a: int, b: int) {
    Between(c, a, b) == Count(c, a, b)
  }

  /** The walk is right exactly when no working minute lies past its 5000 days. */
  lemma MeasuresExactlyWhen(c: Calendar, a: int, b: int)
    ensures Measures(c, a, b) <==> Count(c, Sight(c, a, b), b) == 0
    ensures Between(c, a, b) <= Count(c, a, b)
    ensures c.Business? && b <= Horizon(c.cal, a) ==> Measures(c, a, b)
  {
    if c.Business? {
      HorizonMonotone(c.cal, a, a);
      if Horizon(c.cal, a) < b { CountAdds(c, a, Horizon(c.cal, a), b); }
    }
  }

  /** A calendar open one Thursday only: the second Thursday in sight is too far away to count. */
  lemma MeasuresFails()
    ensures var cal := BusinessCalendar(0, map[4 := [Hours(4, 0, 1)]], {});
            Count(Business(cal), 1, 5005 * DAY + 1) > Between(Business(cal), 1, 5005 * DAY + 1)
  {
    var cal := BusinessCalendar(0, map[4 := [Hours(4, 0, 1)]], {});
    var c := Business(cal);
    assert Horizon(cal, 1) == 5000 * DAY;
    CountAdds(c, 1, 5000 * DAY, 5005 * DAY + 1);
    CountAdds(c, 5000 * DAY, 5005 * DAY, 5005 * DAY + 1);
    assert Intervals(cal, 5005)[0] == Hours(4, 0, 1);
    WorkingOnDay(cal, 5005, 0);
    assert Count(c, 5005 * DAY, 5005 * DAY + 1) == 1;
  }

  /** Adding then measuring gives the minutes back. */
  lemma MeasureUndoesAdd(c: Calendar, from: int, n: nat)
    requires Add(c, from, n).Some?
    ensures Between(c, from, Add(c, from, n).value) == n
    ensures from <= Add(c, from, n).value
  {
    var t := Add(c, from, n).value;
    if n > 0 && c.Business? {
      HorizonMonotone(c.cal, from, from);
      DueIsLeast(c, from, n, t, Horizon(c.cal, from));
    }
  }

  /** Measuring then adding stops at the end of the last minute worked. */
  lemma AddUndoesMeasure(c: Calendar, from: int, t: int)
    requires from <= t && (c.Business? ==> t <= Horizon(c.cal, from))
    ensures var r := Add(c, from, Between(c, from, t));
            && r.Some? && from <= r.value <= t
            && Count(c, r.value, t) == 0
            && (r.value == t <==> t == from || Working(c, t - 1))
  {
    var n := Between(c, from, t);
    if c.Business? { CountAdds(c, from, t, Horizon(c.cal, from)); }
    if n > 0 {
      var r := Add(c, from, n).value;
      DueIsLeast(c, from, n, r, t);
      CountAdds(c, from, r, t);
      if r < t { CountAdds(c, r, t - 1, t); }
    } else if from < t {
      CountAdds(c, from, t - 1, t);
    }
  }

  /** Adding m + n in one go is adding m and then n. */
  lemma AddSplits(c: Calendar, from: int, m: nat, n: nat)
    requires Add(c, from, m + n).Some?
    ensures Add(c, from, m).Some?
    ensures Add(c, Add(c, from, m).value, n) == Add(c, from, m + n)
  {
    if m > 0 && n > 0 {
      var t, u := Add(c, from, m + n).value, Add(c, from, m).value;
      DueIsLeast(c, from, m, u, t);
      CountAdds(c, from, u, t);
      if c.Business? {
        HorizonMonotone(c.cal, from, u);
        DueIsLeast(c, from, m + n, t, Horizon(c.cal, from));
        DueIsAdd(c.cal, u, n, t);
      } else {
        DueIsLeast(c, u, n, t, Add(c, u, n).value);
      }
    }
  }

  /** Two steps may reach further than one: one step gives up exactly past its own horizon. */
  lemma AddJoins(c: Calendar, from: int, m: nat, n: nat)
    requires Add(c, from, m).Some? && Add(c, Add(c, from, m).value, n).Some?
    requires m + n > 0
    ensures var t := Add(c, Add(c, from, m).value, n).value;
            && IsDue(c, from, m + n, t)
            && (Add(c, from, m + n) == Some(t) <==> c.Business? ==> t <= Horizon(c.cal, from))
  {
    var u := Add(c, from, m).value;
    var t := Add(c, u, n).value;
    if m > 0 && n > 0 { CountAdds(c, from, u, t); }
    if c.Business? {
      DueIsLeast(c, from, m + n, t, Horizon(c.cal, from));
      if t <= Horizon(c.cal, from) { DueIsAdd(c.cal, from, m + n, t); }
    } else {
      DueIsLeast(c, from, m + n, t, Add(c, from, m + n).value);
    }
  }

  /** A later start or more minutes never end earlier. */
  lemma AddMonotone(c: Calendar, from: int, from': int, n: nat, n': nat)
    requires from <= from' && n <= n'
    requires Add(c, from, n).Some? && Add(c, from', n').Some?
    ensures Add(c, from, n).value <= Add(c, from', n').value
  {
    var t, t' := Add(c, from, n).value, Add(c, from', n').value;
    if n > 0 {
      CountAdds(c, from, from', t');
      DueIsLeast(c, from, n, t, t');
    } else if n' > 0 {
      assert from' < t';
    }
  }
}

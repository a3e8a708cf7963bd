/** What every history of a clock keeps, and where the day horizon breaks it. */
module SlaTheorems {
  import opened Wrappers
  import opened Calendars
  import opened CalendarLaws
  import opened SlaClock

  /** A clock as the service first stores it. */
  predicate Started(k: Clock, c: Calendar) {
    k.targetMinutes > 0 && StartClock(c, k.kind, k.policyRef, k.targetMinutes, k.startedAt) == Some(k)
  }

  /** `k` and its stopwatch `w` after a history of events since `k0` was started, the last one at `last`. */
  ghost predicate History(k0: Clock, c: Calendar, events: seq<Event>, k: Clock, w: Watch, last: int) {
    && Started(k0, c) && InOrder(k0.startedAt, events) && RunInSight(k0, c, events)
    && k == Run(k0, c, events) && w == WatchRun(k0, c, events) && last == LastTime(k0.startedAt, events)
  }

  lemma HistoryFollows(k0: Clock, c: Calendar, events: seq<Event>, k: Clock, w: Watch, last: int)
    requires History(k0, c, events, k, w, last) && IsLive(k)
    ensures Follows(k, w, c, last) && k.startedAt == k0.startedAt
  {
    StartFollows(c, k0.kind, k0.policyRef, k0.targetMinutes, k0.startedAt);
    RunFollowsExactlyWhen(k0, c, events);
    RunKeepsStart(k0, c, events);
  }

  // ---- The due date is a refinement of counting consumed time ------------------------

  lemma DueDateIsConsumedTime(
    k0: Clock, c: Calendar, events: seq<Event>, k: Clock, w: Watch, last: int, now: int)
    requires History(k0, c, events, k, w, last) && last <= now
    requires IsLive(k) && k.pausedAt.None?
    ensures now >= k.dueAt <==> Consumed(w, c, now) >= k.targetMinutes
    ensures Latch(k, now).1 <==> Consumed(w, c, now) >= k.targetMinutes
    ensures Consumed(w, c, now) == Count(c, k0.startedAt, now) - k.pausedTotalMinutes
  {
    HistoryFollows(k0, c, events, k, w, last);
    hide History;
    FollowsDue(k, w, c, last, now);
    FollowsConsumed(k, w, c, last, now);
  }

  lemma {:induction false} RunKeepsStart(k: Clock, c: Calendar, events: seq<Event>)
    ensures Run(k, c, events).startedAt == k.startedAt
  {
    if events != [] { RunKeepsStart(k, c, events[..|events| - 1]); }
  }

  /**
   * Restamping forgets every earlier target, only the start, the pauses and the new target count:
   * exactly when the restamp saw all that was consumed or asks for no more than it saw.
   */
  lemma RestampForgetsTargets(
    k0: Clock, c: Calendar, events: seq<Event>, k: Clock, w: Watch, last: int, target: int, now: int)
    requires History(k0, c, events, k, w, last) && last <= now && IsLive(k) && Restamp(k, target, c, now).Some?
    ensures var due := Restamp(k, target, c, now).value.dueAt;
            && (target > Consumed(w, c, now) ==> DuesFrom(c, k0.startedAt, target + k.pausedTotalMinutes, due))
            && (target <= Consumed(w, c, now) ==> due == Reference(k, now))
            <==> Measured(k, c, now) == Consumed(w, c, now) || target <= Measured(k, c, now)
  {
    HistoryFollows(k0, c, events, k, w, last);
    hide History, Follows, Consumed, Measured, DuesFrom, Between, Add;
    RestampDue(k, w, c, last, now, target);
  }

  lemma RestampDue(k: Clock, w: Watch, c: Calendar, last: int, now: int, target: int)
    requires Follows(k, w, c, last) && last <= now && IsLive(k) && Restamp(k, target, c, now).Some?
    ensures var due := Restamp(k, target, c, now).value.dueAt;
            && (target > Consumed(w, c, now) ==> DuesFrom(c, k.startedAt, target + k.pausedTotalMinutes, due))
            && (target <= Consumed(w, c, now) ==> due == Reference(k, now))
            <==> Measured(k, c, now) == Consumed(w, c, now) || target <= Measured(k, c, now)
  {
    MeasuredIsNoMore(k, w, c, last, now);
    RestampedDue(k, w, c, last, now, target);
    assert k.startedAt <= Reference(k, now);
    hide Measured, Consumed, Follows, Restamp;
    var due := Restamp(k, target, c, now).value.dueAt;
    var total := target + k.pausedTotalMinutes;
    if target > Consumed(w, c, now) && IsDue(c, k.startedAt, total, due) && Add(c, k.startedAt, total).Some? {
      DueIsLeast(c, k.startedAt, total, Add(c, k.startedAt, total).value, due);
    }
  }

  /** `due` is `n` working minutes after `from`, whether or not one addition reaches that far. */
  predicate DuesFrom(c: Calendar, from: int, n: int, due: int) {
    IsDue(c, from, n, due) && (Add(c, from, n).Some? ==> Add(c, from, n) == Some(due))
  }

  /** Everything between the reference and the due date is in sight of the earlier of the two. */
  predicate RemainderInSight(k: Clock, c: Calendar, now: int) {
    if k.dueAt >= Reference(k, now) then Measures(c, Reference(k, now), k.dueAt)
    else Measures(c, k.dueAt, Reference(k, now))
  }

  /**
   * The remaining minutes shown are the level minus what was consumed, sign included, exactly when
   * the 5000 days cut nothing off them; and the target minus it exactly when level and target agree too.
   */
  lemma RemainingIsSigned(
    k0: Clock, c: Calendar, events: seq<Event>, k: Clock, w: Watch, last: int, now: int)
    requires History(k0, c, events, k, w, last) && last <= now && IsLive(k)
    ensures Remaining(k, c, now) == w.level - Consumed(w, c, now) <==> RemainderInSight(k, c, now)
    ensures Remaining(k, c, now) == k.targetMinutes - Consumed(w, c, now)
            <==> RemainderInSight(k, c, now) && w.level == k.targetMinutes
  {
    HistoryFollows(k0, c, events, k, w, last);
    hide History, Follows, Consumed, Measures, Between;
    RemainingFollows(k, w, c, last, now);
  }

  lemma RemainingFollows(k: Clock, w: Watch, c: Calendar, last: int, now: int)
    requires Follows(k, w, c, last) && last <= now
    ensures Remaining(k, c, now) == w.level - Consumed(w, c, now) <==> RemainderInSight(k, c, now)
    ensures Remaining(k, c, now) == k.targetMinutes - Consumed(w, c, now)
            <==> RemainderInSight(k, c, now) && w.level == k.targetMinutes
  {
    FollowsConsumed(k, w, c, last, now);
    FollowsLater(k, w, c, last, now);
    var reference := Reference(k, now);
    hide Working, Sight;
    if k.dueAt >= reference {
      CountAdds(c, k.startedAt, reference, k.dueAt);
      MeasuresExactlyWhen(c, reference, k.dueAt);
    } else {
      CountAdds(c, k.startedAt, k.dueAt, reference);
      MeasuresExactlyWhen(c, k.dueAt, reference);
    }
  }

  /** The level is the target unless the latest saved restamp asked for less than was already consumed. */
  lemma LevelIsTarget(k: Clock, c: Calendar, init: seq<Event>, e: Event)
    requires Step(Run(k, c, init), c, e).Some?
    ensures WatchRun(k, c, []).level == WatchRun(k, c, []).target
    ensures var w, w' := WatchRun(k, c, init), WatchRun(k, c, init + [e]);
            (w'.level == w'.target)
            <==> if e.op.DoRestamp? then e.op.target >= Consumed(w, c, e.at) else w.level == w.target
  {
    assert (init + [e])[..|init|] == init;
  }

  // ---- Exactly when a step keeps the two together ---------------------------------------

  ghost predicate Tracks(k: Clock, w: Watch, c: Calendar, last: int) {
    forall now :: last <= now ==> (now >= k.dueAt <==> Consumed(w, c, now) >= w.target)
  }

  /** A resume keeps them together exactly when it measured the pause in full or the clock was due anyway. */
  lemma ResumeTracksExactlyWhen(k: Clock, w: Watch, c: Calendar, last: int, now: int)
    requires Follows(k, w, c, last) && last <= now && k.pausedAt.Some? && Resume(k, c, now).Some?
    ensures Tracks(Resume(k, c, now).value.0, WatchStep(w, c, Event(DoResume, now)), c, now)
            <==> Measures(c, k.pausedAt.value, now) || Consumed(w, c, last) >= w.target
  {
    var w' := WatchStep(w, c, Event(DoResume, now));
    var k' := Resume(k, c, now).value.0;
    var paused := k.pausedAt.value;
    var excluded := Between(c, paused, now);
    CountAdds(c, k.startedAt, paused, now);
    MeasuresExactlyWhen(c, paused, now);
    if Measures(c, paused, now) {
      ResumeFollows(k, w, c, last, now);
      forall u | now <= u ensures u >= k'.dueAt <==> Consumed(w', c, u) >= w'.target {
        FollowsDue(k', w', c, now, u);
      }
    } else if Consumed(w, c, last) >= w.target {
      // Due before the pause: the shifted date is still behind the resume.
      FollowsAtPause(k, w, c, last);
      CountAdds(c, k.dueAt, paused, now);
      if excluded > 0 { DueIsLeast(c, k.dueAt, excluded, k'.dueAt, now); }
    } else {
      FollowsAtPause(k, w, c, last);
      CountAdds(c, k.startedAt, paused, k.dueAt);
      if excluded > 0 { CountAdds(c, k.startedAt, k.dueAt, k'.dueAt); }
      var u := Max(now, k'.dueAt);
      CountAdds(c, k.startedAt, now, u);
      assert u >= k'.dueAt && Consumed(w', c, u) < w'.target;
    }
  }

  lemma FollowsAtPause(k: Clock, w: Watch, c: Calendar, last: int)
    requires Follows(k, w, c, last) && k.pausedAt.Some?
    ensures k.dueAt <= k.pausedAt.value <==> Consumed(w, c, last) >= w.target
    ensures Consumed(w, c, last) < w.target ==> w.level == w.target
  {
    var paused := k.pausedAt.value;
    if k.dueAt <= paused {
      CountAdds(c, k.startedAt, k.dueAt, paused);
    } else {
      CountAdds(c, k.startedAt, paused, k.dueAt - 1);
    }
  }

  /** A restamp of a running clock keeps them together exactly when it follows. */
  lemma RestampTracksExactlyWhen(k: Clock, w: Watch, c: Calendar, last: int, now: int, target: int)
    requires Follows(k, w, c, last) && last <= now && IsLive(k) && k.pausedAt.None?
    requires Restamp(k, target, c, now).Some?
    ensures Tracks(Restamp(k, target, c, now).value, WatchStep(w, c, Event(DoRestamp(target), now)), c, now)
            <==> Measured(k, c, now) == Consumed(w, c, now) || target <= Measured(k, c, now)
  {
    var k', w' := Restamp(k, target, c, now).value, WatchStep(w, c, Event(DoRestamp(target), now));
    MeasuredIsNoMore(k, w, c, last, now);
    RestampFollows(k, w, c, last, now, target);
    RestampedDue(k, w, c, last, now, target);
    if Measured(k, c, now) == Consumed(w, c, now) || target <= Measured(k, c, now) {
      forall u | now <= u ensures u >= k'.dueAt <==> Consumed(w', c, u) >= w'.target {
        FollowsDue(k', w', c, now, u);
      }
    } else {
      // One minute before the late due date the target has been consumed.
      var u := k'.dueAt - 1;
      CountAdds(c, k.startedAt, w.runningSince.value, u);
      CountAdds(c, k.startedAt, u, k'.dueAt);
      assert u < k'.dueAt && Consumed(w', c, u) >= w'.target;
    }
  }

  /** Open every minute of every day, as a business calendar. */
  function AlwaysOpen(): BusinessCalendar {
    BusinessCalendar(0, map w | 0 <= w <= 6 :: [Hours(w, 0, 1440)], {})
  }

  lemma AlwaysOpenCounts(a: int, b: int)
    requires a <= b
    ensures Count(Business(AlwaysOpen()), a, b) == b - a
  {
    forall t ensures Working(Business(AlwaysOpen()), t) {
      assert Intervals(AlwaysOpen(), DayOf(AlwaysOpen(), t))[0] == Hours(Weekday(DayOf(AlwaysOpen(), t)), 0, 1440);
    }
    CountBusy(Business(AlwaysOpen()), a, b);
  }

  /** A pause longer than 5000 days is cut short: the clock comes back overdue with nothing consumed. */
  lemma LongPauseLosesTheClock()
    ensures var c := Business(AlwaysOpen());
            var k := StartClock(c, Response, "p", DAY, 0);
            && k.Some?
            && var back := Resume(Pause(k.value, 0), c, 5002 * DAY);
            var w := WatchStep(WatchStep(WatchRun(k.value, c, []), c, Event(DoPause, 0)), c, Event(DoResume, 5002 * DAY));
            && back.Some? && IsLive(back.value.0) && Latch(back.value.0, 5002 * DAY).1
            && Consumed(w, c, 5002 * DAY) == 0 < w.target
  {
    hide Working, AlwaysOpen, Count, Horizon, Add;
    var cal := AlwaysOpen();
    assert Horizon(cal, 0) == 5000 * DAY by { AlwaysOpenHorizon(0); }
    assert Horizon(cal, DAY) == 5001 * DAY by { AlwaysOpenHorizon(DAY); }
    AlwaysOpenAdds(0, DAY);
    AlwaysOpenCounts(0, 5000 * DAY);
    AlwaysOpenAdds(DAY, 5000 * DAY);
    AlwaysOpenCounts(0, 0);
    AlwaysOpenCounts(5002 * DAY, 5002 * DAY);
  }

  /** A restamp after more than 5000 days of work gives two of them back: the clock is not due when the target is reached. */
  lemma LateRestampLosesTime()
    ensures var c := Business(AlwaysOpen());
            var k := StartClock(c, Resolution, "p", 5000 * DAY, 0);
            && k.Some?
            && var back := Restamp(k.value, 5003 * DAY, c, 5002 * DAY);
            var w := WatchStep(WatchRun(k.value, c, []), c, Event(DoRestamp(5003 * DAY), 5002 * DAY));
            && back.Some? && !Latch(back.value, 5003 * DAY).1 && Consumed(w, c, 5003 * DAY) == w.target
  {
    hide Working, AlwaysOpen, Count, Horizon, Add;
    var cal := AlwaysOpen();
    assert Horizon(cal, 0) == 5000 * DAY by { AlwaysOpenHorizon(0); }
    assert Horizon(cal, 5002 * DAY) == 10002 * DAY by { AlwaysOpenHorizon(5002 * DAY); }
    AlwaysOpenAdds(0, 5000 * DAY);
    AlwaysOpenCounts(0, 5000 * DAY);
    AlwaysOpenAdds(5002 * DAY, 3 * DAY);
    AlwaysOpenCounts(0, 5002 * DAY);
    AlwaysOpenCounts(0, 5003 * DAY);
  }

  lemma AlwaysOpenHorizon(t: int)
    ensures Horizon(AlwaysOpen(), t) == (t / DAY + 5000) * DAY
  {}

  lemma AlwaysOpenAdds(from: int, n: nat)
    requires from + n <= Horizon(AlwaysOpen(), from)
    ensures Add(Business(AlwaysOpen()), from, n) == Some(from + n)
  {
    hide Working, AlwaysOpen, Horizon;
    AlwaysOpenCounts(from, from + n);
    HorizonMonotone(AlwaysOpen(), from, from);
    AlwaysOpenCounts(from, Horizon(AlwaysOpen(), from));
    if n > 0 {
      AlwaysOpenCounts(from, Add(Business(AlwaysOpen()), from, n).value);
    }
  }

  // ---- Breaches ---------------------------------------------------------------------------

  /** Never breached and paused at once, and never breached before due. */
  predicate Sound(k: Clock) {
    k.breachedAt.Some? ==> k.pausedAt.None? && k.breachedAt.value >= k.dueAt
  }

  /** After a breach the clock keeps its dates; only being met can still be recorded. */
  lemma BreachFreezes(k: Clock, c: Calendar, e: Event)
    requires Sound(k)
    ensures Step(k, c, e).Some? ==> Sound(Step(k, c, e).value)
    ensures k.breachedAt.Some? && Step(k, c, e).Some? ==> Step(k, c, e).value == k.(metAt := Step(k, c, e).value.metAt)
  {}

  /** How many events of the history latched the clock. */
  function LatchEvents(k: Clock, c: Calendar, events: seq<Event>): nat {
    if events == [] then 0
    else
      var init, e := events[..|events| - 1], events[|events| - 1];
      LatchEvents(k, c, init) + if e.op.DoLatch? && Latch(Run(k, c, init), e.at).1 then 1 else 0
  }

  lemma {:induction false} OneLatchEvent(k: Clock, c: Calendar, events: seq<Event>)
    requires k.breachedAt.None?
    ensures Sound(Run(k, c, events))
    ensures LatchEvents(k, c, events) == if Run(k, c, events).breachedAt.Some? then 1 else 0
  {
    if events != [] {
      var init, e := events[..|events| - 1], events[|events| - 1];
      OneLatchEvent(k, c, init);
      BreachFreezes(Run(k, c, init), c, e);
    }
  }

  /** The service latches before it pauses: a pause cannot save a clock that is due. */
  lemma PauseCannotSave(k: Clock, now: int)
    requires IsLive(k) && k.pausedAt.None? && now >= k.dueAt
    ensures var after := Pause(Latch(k, now).0, now);
            after.breachedAt == Some(now) && after.pausedAt.None?
  {}

  /**
   * A priority change does not latch first: a clock that is due and not yet swept escapes its
   * breach exactly when the new target is more than the restamp takes to be consumed.
   */
  lemma RestampSavesExactlyWhen(k: Clock, c: Calendar, now: int, target: int)
    requires IsLive(k) && k.pausedAt.None? && now >= k.dueAt && Restamp(k, target, c, now).Some?
    ensures !Latch(Restamp(k, target, c, now).value, now).1 <==> target > Measured(k, c, now)
  {
    hide Working, Count, Sight;
  }
}

/** The SLA engine: a clock carries one due date that pauses and priority changes move. */
module SlaClock {
  // The reference it is measured against is a stopwatch that knows nothing of due dates: it adds
  // up the working minutes of the stretches in which it ran.

  import opened Wrappers
  import opened Calendars
  import opened CalendarLaws

  datatype ClockKind = Response | Resolution

  datatype Clock = Clock(
    kind: ClockKind,
    policyRef: string,
    targetMinutes: int,
    startedAt: int,
    dueAt: int,
    pausedAt: Option<int>,
    pausedTotalMinutes: int,
    metAt: Option<int>,
    breachedAt: Option<int>
  )

  datatype Targets = Targets(response: Option<int>, resolution: Option<int>)

  // ---- The engine -------------------------------------------------------------

  /** None is a CalendarError thrown by the calendar, here and below. */
  function StartClock(c: Calendar, kind: ClockKind, policyRef: string, minutes: int, now: int): Option<Clock> {
    match Add(c, now, minutes)
    case None => None
    case Some(due) => Some(Clock(kind, policyRef, minutes, now, due, None, 0, None, None))
  }

  function StartClocks(targets: Targets, policyRef: string, c: Calendar, now: int): Option<seq<Clock>> {
    var wantsResponse := targets.response.Some? && targets.response.value > 0;
    var wantsResolution := targets.resolution.Some? && targets.resolution.value > 0;
    var response := if wantsResponse then StartClock(c, Response, policyRef, targets.response.value, now) else None;
    var resolution :=
      if wantsResolution then StartClock(c, Resolution, policyRef, targets.resolution.value, now) else None;
    if (wantsResponse && response.None?) || (wantsResolution && resolution.None?) then None
    else Some((if wantsResponse then [response.value] else []) + (if wantsResolution then [resolution.value] else []))
  }

  predicate IsLive(k: Clock) { k.metAt.None? && k.breachedAt.None? }

  /** A running clock that has come due is breached now; the flag tells whether it was this call that did it. */
  function Latch(k: Clock, now: int): (Clock, bool) {
    if !IsLive(k) || k.pausedAt.Some? then (k, false)
    else if now < k.dueAt then (k, false)
    else (k.(breachedAt := Some(now)), true)
  }

  /** What a resume says it excluded is what the clock has been paused for more than before. */
  lemma ResumeSays(k: Clock, c: Calendar, now: int)
    requires Resume(k, c, now).Some?
    ensures var (after, excluded) := Resume(k, c, now).value;
            && after.pausedTotalMinutes == k.pausedTotalMinutes + excluded
            && (k.pausedAt.None? ==> after == k)
            && (k.pausedAt.Some? ==> excluded == Between(c, k.pausedAt.value, now))
  {
  }

  function Pause(k: Clock, now: int): Clock {
    if !IsLive(k) || k.pausedAt.Some? then k else k.(pausedAt := Some(now))
  }

  /** The clock and the working minutes excluded. */
  function Resume(k: Clock, c: Calendar, now: int): Option<(Clock, nat)> {
    if k.pausedAt.None? then Some((k, 0))
    else
      var excluded := Between(c, k.pausedAt.value, now);
      match Add(c, k.dueAt, excluded)
      case None => None
      case Some(due) =>
        Some((k.(pausedAt := None, pausedTotalMinutes := k.pausedTotalMinutes + excluded, dueAt := due), excluded))
  }

  function MarkMet(k: Clock, now: int): Clock {
    if k.metAt.Some? then k else k.(metAt := Some(now))
  }

  /** The instant a clock is read at: where it stopped, or now. */
  function Reference(k: Clock, now: int): int {
    if k.pausedAt.Some? then k.pausedAt.value else now
  }

  function Restamp(k: Clock, newTarget: int, c: Calendar, now: int): Option<Clock> {
    if !IsLive(k) then Some(k)
    else
      var consumed := Between(c, k.startedAt, Reference(k, now)) - k.pausedTotalMinutes;
      var remaining := Max(0, newTarget - Max(0, consumed));
      match Add(c, Reference(k, now), remaining)
      case None => None
      case Some(due) => Some(k.(targetMinutes := newTarget, dueAt := due))
  }

  function Remaining(k: Clock, c: Calendar, now: int): int {
    var reference := Reference(k, now);
    if k.dueAt >= reference then Between(c, reference, k.dueAt) else 0 - Between(c, k.dueAt, reference)
  }

  // ---- Runs ---------------------------------------------------------------------

  datatype Op = DoLatch | DoPause | DoResume | DoMarkMet | DoRestamp(target: int)
  datatype Event = Event(op: Op, at: int)

  /** None where the calendar throws: the caller's transaction is rolled back and nothing is saved. */
  function Step(k: Clock, c: Calendar, e: Event): Option<Clock> {
    match e.op
    case DoLatch => Some(Latch(k, e.at).0)
    case DoPause => Some(Pause(k, e.at))
    case DoResume => (match Resume(k, c, e.at) case None => None case Some(r) => Some(r.0))
    case DoMarkMet => Some(MarkMet(k, e.at))
    case DoRestamp(target) => Restamp(k, target, c, e.at)
  }

  /** The stored clock after a history of events; an event that throws leaves no trace. */
  function Run(k: Clock, c: Calendar, events: seq<Event>): Clock {
    if events == [] then k
    else
      var before := Run(k, c, events[..|events| - 1]);
      var after := Step(before, c, events[|events| - 1]);
      if after.None? then before else after.value
  }

  /** Times never go back, and nothing happens before the start. */
  predicate InOrder(start: int, events: seq<Event>) {
    forall i :: 0 <= i < |events| ==>
      start <= events[i].at && forall j :: 0 <= j < i ==> events[j].at <= events[i].at
  }

  function LastTime(start: int, events: seq<Event>): int {
    if events == [] then start else events[|events| - 1].at
  }

  /** What a restamp takes the consumed minutes to be. */
  function Measured(k: Clock, c: Calendar, now: int): int {
    Max(0, Between(c, k.startedAt, Reference(k, now)) - k.pausedTotalMinutes)
  }

  /**
   * The 5000 days cut nothing off that matters to a step: a resume sees its whole pause, and a
   * restamp sees all that was consumed or is to a target no more than what it sees.
   */
  predicate StepInSight(k: Clock, c: Calendar, e: Event) {
    && (e.op.DoResume? && k.pausedAt.Some? ==> Measures(c, k.pausedAt.value, e.at))
    && (e.op.DoRestamp? && IsLive(k) ==>
          || Measured(k, c, e.at) == Count(c, k.startedAt, Reference(k, e.at)) - k.pausedTotalMinutes
          || e.op.target <= Measured(k, c, e.at))
  }

  predicate RunInSight(k: Clock, c: Calendar, events: seq<Event>) {
    events != [] ==>
      && RunInSight(k, c, events[..|events| - 1])
      && (var before, last := Run(k, c, events[..|events| - 1]), events[|events| - 1];
          Step(before, c, last).Some? ==> StepInSight(before, c, last))
  }

  /**
   * What each step records: a clock that was met or breached keeps its breach and its pause, the
   * first instant it was met stays, and only a running clock that has come due is breached.
   */
  lemma StepRecords(k: Clock, c: Calendar, e: Event)
    requires Step(k, c, e).Some?
    ensures var after := Step(k, c, e).value;
            && after.kind == k.kind && after.policyRef == k.policyRef && after.startedAt == k.startedAt
            && after.metAt == (if e.op.DoMarkMet? && k.metAt == None then Some(e.at) else k.metAt)
            && after.breachedAt
               == (if e.op.DoLatch? && k.metAt == None && k.breachedAt == None && k.pausedAt == None && k.dueAt <= e.at
                   then Some(e.at) else k.breachedAt)
            && after.pausedAt
               == (if e.op.DoResume? then None
                   else if e.op.DoPause? && k.metAt == None && k.breachedAt == None && k.pausedAt == None then Some(e.at)
                   else k.pausedAt)
            && after.targetMinutes
               == (if e.op.DoRestamp? && k.metAt == None && k.breachedAt == None then e.op.target else k.targetMinutes)
            && (after.pausedTotalMinutes != k.pausedTotalMinutes ==> e.op.DoResume? && k.pausedAt.Some?)
            && (after.dueAt != k.dueAt ==> (e.op.DoResume? && k.pausedAt.Some?) || (e.op.DoRestamp? && IsLive(k)))
  {
    hide Add, Between;
  }

  // ---- The stopwatch ------------------------------------------------------------------

  /**
   * `accumulated` working minutes of finished stretches, and when the current one began.
   * `level` is the consumption the clock is due at: the target, or what had already been
   * consumed when a shorter target was asked for.
   */
  datatype Watch = Watch(accumulated: int, runningSince: Option<int>, target: int, level: int)

  function Consumed(w: Watch, c: Calendar, now: int): int {
    w.accumulated + if w.runningSince.Some? then Count(c, w.runningSince.value, now) else 0
  }

  function WatchStep(w: Watch, c: Calendar, e: Event): Watch {
    match e.op
    case DoPause => w.(accumulated := Consumed(w, c, e.at), runningSince := None)
    case DoResume => if w.runningSince.None? then w.(runningSince := Some(e.at)) else w
    case DoRestamp(target) => w.(target := target, level := Max(target, Consumed(w, c, e.at)))
    case DoLatch => w
    case DoMarkMet => w
  }

  /** The stopwatch follows the events that were saved. */
  function WatchRun(k: Clock, c: Calendar, events: seq<Event>): Watch {
    if events == [] then Watch(0, Some(k.startedAt), k.targetMinutes, k.targetMinutes)
    else
      var init, last := events[..|events| - 1], events[|events| - 1];
      if Step(Run(k, c, init), c, last).None? then WatchRun(k, c, init)
      else WatchStep(WatchRun(k, c, init), c, last)
  }

  // ---- The clock follows the stopwatch ------------------------------------------------

  /** What ties a live clock to its stopwatch after an event at `last`. */
  predicate Follows(k: Clock, w: Watch, c: Calendar, last: int) {
    var at := Reference(k, last);
    && k.startedAt <= at <= last && k.startedAt <= k.dueAt
    && k.targetMinutes == w.target
    && (k.pausedAt.None? <==> w.runningSince.Some?)
    && (w.runningSince.Some? ==> k.startedAt <= w.runningSince.value <= last)
    && Count(c, k.startedAt, if w.runningSince.Some? then w.runningSince.value else at)
       == w.accumulated + k.pausedTotalMinutes
    && w.accumulated >= 0
    && Count(c, k.startedAt, k.dueAt) == w.level + k.pausedTotalMinutes
    && (k.dueAt <= at || Working(c, k.dueAt - 1))
    && w.level >= w.target
    && (w.level > w.target ==> Consumed(w, c, at) >= w.level)
  }

  lemma FollowsConsumed(k: Clock, w: Watch, c: Calendar, last: int, now: int)
    requires Follows(k, w, c, last) && last <= now
    ensures Count(c, k.startedAt, Reference(k, now)) == Consumed(w, c, now) + k.pausedTotalMinutes
    ensures Consumed(w, c, now) >= Consumed(w, c, last) >= 0
  {
    if w.runningSince.Some? {
      CountAdds(c, k.startedAt, w.runningSince.value, now);
      CountAdds(c, w.runningSince.value, last, now);
    }
  }

  /** Comparing dates is comparing consumption with the level. */
  lemma FollowsDue(k: Clock, w: Watch, c: Calendar, last: int, now: int)
    requires Follows(k, w, c, last) && last <= now && k.pausedAt.None?
    ensures now >= k.dueAt <==> Consumed(w, c, now) >= w.level
    ensures now >= k.dueAt <==> Consumed(w, c, now) >= w.target
  {
    FollowsConsumed(k, w, c, last, now);
    if now >= k.dueAt {
      CountAdds(c, k.startedAt, k.dueAt, now);
    } else {
      assert Working(c, k.dueAt - 1);
      CountAdds(c, k.startedAt, now, k.dueAt - 1);
    }
  }

  /** Time passing by itself changes nothing between the two. */
  lemma FollowsLater(k: Clock, w: Watch, c: Calendar, last: int, now: int)
    requires Follows(k, w, c, last) && last <= now
    ensures Follows(k, w, c, now)
  {
    FollowsConsumed(k, w, c, last, now);
    if w.runningSince.Some? { CountAdds(c, w.runningSince.value, last, now); }
  }

  lemma StartFollows(c: Calendar, kind: ClockKind, policyRef: string, minutes: int, now: int)
    requires minutes > 0 && StartClock(c, kind, policyRef, minutes, now).Some?
    ensures var k := StartClock(c, kind, policyRef, minutes, now).value;
            Follows(k, WatchRun(k, c, []), c, now)
  {}

  /** A clock as the service starts it for a target. */
  predicate IsStarted(k: Clock, kind: ClockKind, policyRef: string, c: Calendar, minutes: int, now: int) {
    && k.kind == kind && k.policyRef == policyRef && k.targetMinutes == minutes && k.startedAt == now
    && Add(c, now, minutes) == Some(k.dueAt)
    && k.pausedAt.None? && k.pausedTotalMinutes == 0 && k.metAt.None? && k.breachedAt.None?
  }

  predicate Wanted(target: Option<int>) { target.Some? && target.value > 0 }

  /**
   * One clock for each positive target, due that many working minutes from now and in step with
   * its stopwatch, the response clock first; none at all when a due date is out of reach.
   */
  lemma StartClocksFollow(targets: Targets, policyRef: string, c: Calendar, now: int)
    ensures var r := StartClocks(targets, policyRef, c, now);
            && (r.Some? ==>
                  && |r.value| == (if Wanted(targets.response) then 1 else 0) + (if Wanted(targets.resolution) then 1 else 0)
                  && (Wanted(targets.response) ==>
                        IsStarted(r.value[0], Response, policyRef, c, targets.response.value, now))
                  && (Wanted(targets.resolution) ==>
                        IsStarted(r.value[|r.value| - 1], Resolution, policyRef, c, targets.resolution.value, now))
                  && (forall i :: 0 <= i < |r.value| ==> Follows(r.value[i], WatchRun(r.value[i], c, []), c, now)))
            && (r.None? <==>
                  || (Wanted(targets.response) && Add(c, now, targets.response.value).None?)
                  || (Wanted(targets.resolution) && Add(c, now, targets.resolution.value).None?))
  {
    hide Follows, WatchRun, Add;
    if Wanted(targets.response) && StartClock(c, Response, policyRef, targets.response.value, now).Some? {
      StartFollows(c, Response, policyRef, targets.response.value, now);
    }
    if Wanted(targets.resolution) && StartClock(c, Resolution, policyRef, targets.resolution.value, now).Some? {
      StartFollows(c, Resolution, policyRef, targets.resolution.value, now);
    }
  }

  /** A resume keeps the two in step exactly when it saw the whole pause. */
  lemma ResumeFollows(k: Clock, w: Watch, c: Calendar, last: int, now: int)
    requires Follows(k, w, c, last) && last <= now && k.pausedAt.Some? && Resume(k, c, now).Some?
    ensures Follows(Resume(k, c, now).value.0, WatchStep(w, c, Event(DoResume, now)), c, now)
            <==> Measures(c, k.pausedAt.value, now)
  {
    hide Working, Sight, Horizon;
    var excluded := Between(c, k.pausedAt.value, now);
    var due := Add(c, k.dueAt, excluded).value;
    CountAdds(c, k.startedAt, k.pausedAt.value, now);
    if excluded > 0 { CountAdds(c, k.startedAt, k.dueAt, due); }
    assert Count(c, now, now) == 0;
  }

  lemma MeasuredIsNoMore(k: Clock, w: Watch, c: Calendar, last: int, now: int)
    requires Follows(k, w, c, last) && last <= now
    ensures 0 <= Measured(k, c, now) <= Consumed(w, c, now)
    ensures Count(c, k.startedAt, Reference(k, now)) - k.pausedTotalMinutes == Consumed(w, c, now)
  {
    FollowsConsumed(k, w, c, last, now);
    MeasuresExactlyWhen(c, k.startedAt, Reference(k, now));
    hide Working, Sight, Horizon;
  }

  /** A restamp does exactly when it saw all that was consumed, or the target is no more than it saw. */
  lemma RestampFollows(k: Clock, w: Watch, c: Calendar, last: int, now: int, target: int)
    requires Follows(k, w, c, last) && last <= now && IsLive(k) && Restamp(k, target, c, now).Some?
    ensures Follows(Restamp(k, target, c, now).value, WatchStep(w, c, Event(DoRestamp(target), now)), c, now)
            <==> Measured(k, c, now) == Consumed(w, c, now) || target <= Measured(k, c, now)
  {
    hide Working, Between, Add, Measured, Restamp, IsLive;
    MeasuredIsNoMore(k, w, c, last, now);
    FollowsLater(k, w, c, last, now);
    RestampedDue(k, w, c, last, now, target);
    assert Consumed(w, c, Reference(k, now)) == Consumed(w, c, now);
    hide Consumed;
    if Measured(k, c, now) < Consumed(w, c, now) && Measured(k, c, now) < target {
      assert !Follows(Restamp(k, target, c, now).value, WatchStep(w, c, Event(DoRestamp(target), now)), c, now);
    }
  }

  /** Where a restamp puts the due date, counted from the start. */
  lemma RestampedDue(k: Clock, w: Watch, c: Calendar, last: int, now: int, target: int)
    requires Follows(k, w, c, last) && last <= now && IsLive(k) && Restamp(k, target, c, now).Some?
    ensures var due, at := Restamp(k, target, c, now).value.dueAt, Reference(k, now);
            && Restamp(k, target, c, now).value == k.(targetMinutes := target, dueAt := due)
            && at <= due && (due == at || Working(c, due - 1)) && (due == at <==> target <= Measured(k, c, now))
            && Count(c, k.startedAt, due)
               == Consumed(w, c, now) + k.pausedTotalMinutes + Max(0, target - Measured(k, c, now))
  {
    MeasuredIsNoMore(k, w, c, last, now);
    hide Working, Sight, Horizon, Consumed, Between;
    var at := Reference(k, now);
    var due := Restamp(k, target, c, now).value.dueAt;
    if due > at { CountAdds(c, k.startedAt, at, due); }
  }

  /** Any step on a clock that stays live keeps the two in step exactly when nothing it needs is out of sight. */
  lemma StepFollows(k: Clock, w: Watch, c: Calendar, last: int, e: Event)
    requires Follows(k, w, c, last) && last <= e.at && IsLive(k)
    requires Step(k, c, e).Some? && IsLive(Step(k, c, e).value)
    ensures Follows(Step(k, c, e).value, WatchStep(w, c, e), c, e.at) <==> StepInSight(k, c, e)
  {
    MeasuredIsNoMore(k, w, c, last, e.at);
    if e.op.DoResume? && k.pausedAt.Some? {
      ResumeFollows(k, w, c, last, e.at);
    } else if e.op.DoRestamp? {
      RestampFollows(k, w, c, last, e.at, e.op.target);
    } else if e.op.DoPause? && k.pausedAt.None? {
      PauseFollows(k, w, c, last, e.at);
    } else {
      // The clock and the stopwatch keep their values; a met or latched clock would not be live.
      FollowsLater(k, w, c, last, e.at);
      if e.op.DoPause? { assert Consumed(w, c, e.at) == w.accumulated; }
    }
  }

  lemma PauseFollows(k: Clock, w: Watch, c: Calendar, last: int, now: int)
    requires Follows(k, w, c, last) && last <= now && k.pausedAt.None? && IsLive(k)
    ensures Follows(Pause(k, now), WatchStep(w, c, Event(DoPause, now)), c, now)
  {
    FollowsLater(k, w, c, last, now);
    FollowsConsumed(k, w, c, last, now);
  }

  /** A clock that is no longer live never was again. */
  lemma {:induction false} LiveRunPrefix(k: Clock, c: Calendar, events: seq<Event>)
    requires events != [] && IsLive(Run(k, c, events))
    ensures IsLive(Run(k, c, events[..|events| - 1]))
  {}

  /** A clock that is live after a history was in step with its stopwatch at every event of it. */
  predicate FollowsThroughout(k: Clock, c: Calendar, events: seq<Event>) {
    && Follows(Run(k, c, events), WatchRun(k, c, events), c, LastTime(k.startedAt, events))
    && (events != [] ==> FollowsThroughout(k, c, events[..|events| - 1]))
  }

  lemma {:induction false} RunFollowsExactlyWhen(k: Clock, c: Calendar, events: seq<Event>)
    requires Follows(k, WatchRun(k, c, []), c, k.startedAt)
    requires InOrder(k.startedAt, events) && IsLive(Run(k, c, events))
    ensures FollowsThroughout(k, c, events) <==> RunInSight(k, c, events)
  {
    hide Follows, StepInSight, Step;
    if events != [] {
      var init, e := events[..|events| - 1], events[|events| - 1];
      LiveRunPrefix(k, c, events);
      RunFollowsExactlyWhen(k, c, init);
      var before, w, last := Run(k, c, init), WatchRun(k, c, init), LastTime(k.startedAt, init);
      if FollowsThroughout(k, c, init) {
        if Step(before, c, e).Some? {
          StepFollows(before, w, c, last, e);
        } else {
          FollowsLater(before, w, c, last, e.at);
        }
      }
    }
  }
}

/**
 * The fixed-window rate limiter with pruning, for one window length, a limit that each call
 * brings with it and a clock that never goes back. Times are milliseconds.
 */
module RateLimiter {
  import opened Wrappers

  datatype Window = Window(count: nat, startedAt: int, refused: bool)
  datatype Decision = Decision(allowed: bool, remaining: int, retryAfterSeconds: int, firstRefusal: bool)

  type Windows = map<string, Window>

  function Max(a: int, b: int): int { if a >= b then a else b }

  /** Rounded up to whole seconds. */
  function CeilSeconds(ms: int): int { (ms + 999) / 1000 }

  predicate Expired(w: Window, at: int, windowMs: int) { at - w.startedAt >= windowMs }

  function Pruned(windows: Windows, at: int, windowMs: int): Windows {
    map k | k in windows && !Expired(windows[k], at, windowMs) :: windows[k]
  }

  /** The window a hit falls in, before it is counted. */
  function Opened(windows: Windows, key: string, at: int, windowMs: int): Window {
    if key in windows && !Expired(windows[key], at, windowMs) then windows[key] else Window(0, at, false)
  }

  /** The window after the hit is counted. */
  function Counted(w: Window, max: nat): Window {
    Window(w.count + 1, w.startedAt, w.refused || w.count + 1 > max)
  }

  function Decide(w: Window, at: int, max: nat, windowMs: int): Decision {
    var retry := Max(1, CeilSeconds(w.startedAt + windowMs - at));
    if w.count + 1 > max then Decision(false, 0, retry, !w.refused)
    else Decision(true, max - (w.count + 1), retry, false)
  }

  class RateLimiter {
    var windows: Windows
    var lastPrune: int

    constructor ()
      ensures windows == map[] && lastPrune == 0
    {
      windows := map[];
      lastPrune := 0;
    }

    method Prune(at: int, windowMs: int)
      modifies this
      ensures at - old(lastPrune) < windowMs ==> windows == old(windows) && lastPrune == old(lastPrune)
      ensures at - old(lastPrune) >= windowMs ==> windows == Pruned(old(windows), at, windowMs) && lastPrune == at
    {
      if at - lastPrune < windowMs { return; }
      lastPrune := at;
      var keys := windows.Keys;
      while keys != {}
        invariant keys <= old(windows).Keys && lastPrune == at
        invariant windows == map k | k in old(windows) && (k in keys || !Expired(old(windows)[k], at, windowMs)) :: old(windows)[k]
        decreases |keys|
      {
        assert (forall k :: k !in keys) ==> keys == {};
        var key :| key in keys;
        if Expired(windows[key], at, windowMs) { windows := windows - {key}; }
        keys := keys - {key};
      }
    }

    /** `at` is what the clock shows. */
    method Hit(key: string, max: nat, windowMs: int, at: int) returns (d: Decision)
      modifies this
      ensures State(windows, lastPrune) == AfterHit(State(old(windows), old(lastPrune)), key, at, max, windowMs)
      ensures d == Decide(Opened(old(windows), key, at, windowMs), at, max, windowMs)
    {
      Prune(at, windowMs);
      PruneUnnoticed(old(windows), key, at, windowMs);
      var window := Window(0, at, false);
      if key in windows && at - windows[key].startedAt < windowMs { window := windows[key]; }
      window := window.(count := window.count + 1);
      var retryAfterSeconds := Max(1, CeilSeconds(window.startedAt + windowMs - at));
      if window.count > max {
        var firstRefusal := !window.refused;
        window := window.(refused := true);
        windows := windows[key := window];
        return Decision(false, 0, retryAfterSeconds, firstRefusal);
      }
      windows := windows[key := window];
      return Decision(true, max - window.count, retryAfterSeconds, false);
    }
  }

  datatype State = State(windows: Windows, lastPrune: int)

  function AfterPrune(s: State, at: int, windowMs: int): State {
    if at - s.lastPrune < windowMs then s else State(Pruned(s.windows, at, windowMs), at)
  }

  function AfterHit(s: State, key: string, at: int, max: nat, windowMs: int): State {
    var pruned := AfterPrune(s, at, windowMs);
    pruned.(windows := pruned.windows[key := Counted(Opened(pruned.windows, key, at, windowMs), max)])
  }

  lemma PruneUnnoticed(windows: Windows, key: string, at: int, windowMs: int)
    ensures Opened(Pruned(windows, at, windowMs), key, at, windowMs) == Opened(windows, key, at, windowMs)
  {}

  // ---- Runs --------------------------------------------------------------------------

  datatype Call = Call(key: string, at: int, max: nat)

  predicate InOrder(calls: seq<Call>) {
    calls != [] ==>
      && InOrder(calls[..|calls| - 1])
      && 0 <= calls[|calls| - 1].at
      && (|calls| > 1 ==> calls[|calls| - 2].at <= calls[|calls| - 1].at)
  }

  function Run(calls: seq<Call>, windowMs: int): State {
    if calls == [] then State(map[], 0)
    else AfterHit(Run(calls[..|calls| - 1], windowMs), calls[|calls| - 1].key, calls[|calls| - 1].at, calls[|calls| - 1].max, windowMs)
  }

  /** The same limiter with nothing ever pruned. */
  function Kept(calls: seq<Call>, windowMs: int): Windows {
    if calls == [] then map[]
    else
      var windows, c := Kept(calls[..|calls| - 1], windowMs), calls[|calls| - 1];
      windows[c.key := Counted(Opened(windows, c.key, c.at, windowMs), c.max)]
  }

  /** What call number `i` of the run was told. */
  function DecisionAt(calls: seq<Call>, i: nat, windowMs: int): Decision
    requires i < |calls|
  {
    Decide(Opened(Run(calls[..i], windowMs).windows, calls[i].key, calls[i].at, windowMs), calls[i].at, calls[i].max, windowMs)
  }

  function DecisionKept(calls: seq<Call>, i: nat, windowMs: int): Decision
    requires i < |calls|
  {
    Decide(Opened(Kept(calls[..i], windowMs), calls[i].key, calls[i].at, windowMs), calls[i].at, calls[i].max, windowMs)
  }

  // ---- Pruning -------------------------------------------------------------------------

  /** The pruned table is the kept one without some windows that had expired by `at`. */
  predicate Thinned(pruned: Windows, kept: Windows, at: int, windowMs: int) {
    && (forall k :: k in pruned ==> k in kept && pruned[k] == kept[k])
    && (forall k :: k in kept && k !in pruned ==> Expired(kept[k], at, windowMs))
  }

  function LastAt(calls: seq<Call>): int {
    if calls == [] then 0 else calls[|calls| - 1].at
  }

  lemma {:induction false} RunIsThinned(calls: seq<Call>, windowMs: int)
    requires InOrder(calls)
    ensures Thinned(Run(calls, windowMs).windows, Kept(calls, windowMs), LastAt(calls), windowMs)
  {
    if calls != [] { RunIsThinned(calls[..|calls| - 1], windowMs); }
  }

  /** Pruning changes no decision of any run. */
  lemma PruningIsInvisible(calls: seq<Call>, i: nat, windowMs: int)
    requires InOrder(calls) && i < |calls|
    ensures DecisionAt(calls, i, windowMs) == DecisionKept(calls, i, windowMs)
  {
    InOrderPrefix(calls, i + 1);
    assert calls[..i + 1][..i] == calls[..i];
    RunIsThinned(calls[..i], windowMs);
  }

  lemma {:induction false} InOrderPrefix(calls: seq<Call>, n: nat)
    requires InOrder(calls) && n <= |calls|
    ensures InOrder(calls[..n])
    decreases |calls|
  {
    if n < |calls| {
      InOrderPrefix(calls[..|calls| - 1], n);
      assert calls[..|calls| - 1][..n] == calls[..n];
    } else {
      assert calls[..n] == calls;
    }
  }

  /** After any call no window is left that began two window lengths ago. */
  lemma {:induction false} NoOldWindows(calls: seq<Call>, windowMs: int)
    requires InOrder(calls) && windowMs > 0
    ensures var s := Run(calls, windowMs);
            && s.lastPrune <= LastAt(calls) < s.lastPrune + windowMs
            && forall k :: k in s.windows ==> s.lastPrune - windowMs < s.windows[k].startedAt <= LastAt(calls)
    ensures forall k :: k in Run(calls, windowMs).windows ==>
              LastAt(calls) - Run(calls, windowMs).windows[k].startedAt < 2 * windowMs
  {
    if calls != [] { NoOldWindows(calls[..|calls| - 1], windowMs); }
  }

  // ---- How much gets through -----------------------------------------------------------

  /** Allowed calls of one key with `lo <= at < hi`. */
  function Allowed(calls: seq<Call>, key: string, lo: int, hi: int, windowMs: int): nat {
    if calls == [] then 0
    else
      var c := calls[|calls| - 1];
      Allowed(calls[..|calls| - 1], key, lo, hi, windowMs)
      + if c.key == key && lo <= c.at < hi && DecisionKept(calls, |calls| - 1, windowMs).allowed then 1 else 0
  }

  lemma {:induction false} AllowedSplits(calls: seq<Call>, key: string, lo: int, mid: int, hi: int, windowMs: int)
    requires lo <= mid <= hi
    ensures Allowed(calls, key, lo, hi, windowMs)
            == Allowed(calls, key, lo, mid, windowMs) + Allowed(calls, key, mid, hi, windowMs)
  {
    if calls != [] { AllowedSplits(calls[..|calls| - 1], key, lo, mid, hi, windowMs); }
  }

  /** No call of the key asks for more than `most`. */
  predicate AtMost(calls: seq<Call>, key: string, most: nat) {
    forall i :: 0 <= i < |calls| && calls[i].key == key ==> calls[i].max <= most
  }

  /** What the window `w` of a key has let through, and what the time just before it. */
  ghost predicate Throughput(calls: seq<Call>, key: string, w: Window, most: nat, windowMs: int) {
    && w.count >= 1 && w.startedAt <= LastAt(calls)
    && (forall lo, hi :: w.startedAt <= lo ==> Allowed(calls, key, lo, hi, windowMs) <= Min(w.count, most))
    && (forall lo, hi :: w.startedAt < lo ==> Allowed(calls, key, lo, hi, windowMs) <= Min(w.count, most) - 1)
    && (forall lo, hi :: w.startedAt + windowMs <= lo ==> Allowed(calls, key, lo, hi, windowMs) == 0)
    && (forall lo :: w.startedAt - windowMs < lo ==> Allowed(calls, key, lo, w.startedAt, windowMs) <= most - 1)
  }

  ghost predicate KeyThroughput(calls: seq<Call>, key: string, most: nat, windowMs: int) {
    if key in Kept(calls, windowMs) then Throughput(calls, key, Kept(calls, windowMs)[key], most, windowMs)
    else forall lo, hi :: Allowed(calls, key, lo, hi, windowMs) == 0
  }

  function Min(a: int, b: int): int { if a <= b then a else b }

  /** Any stretch of one window length lets at most 2 * most - 1 calls of a key through. */
  ghost predicate Bounded(calls: seq<Call>, key: string, most: nat, windowMs: int) {
    forall lo, hi :: hi <= lo + windowMs ==> Allowed(calls, key, lo, hi, windowMs) <= 2 * most - 1
  }

  /** One more call of the key in the window it has. */
  lemma SameWindow(init: seq<Call>, calls: seq<Call>, w: Window, most: nat, windowMs: int)
    requires calls != [] && init == calls[..|calls| - 1] && InOrder(calls) && windowMs > 0
    requires var c := calls[|calls| - 1];
             && c.max <= most && c.key in Kept(init, windowMs) && Kept(init, windowMs)[c.key] == w
             && !Expired(w, c.at, windowMs) && Throughput(init, c.key, w, most, windowMs)
    ensures var c := calls[|calls| - 1];
            && Throughput(calls, c.key, Counted(w, c.max), most, windowMs)
            && forall lo, hi :: !(lo <= c.at < hi) ==>
                 Allowed(calls, c.key, lo, hi, windowMs) == Allowed(init, c.key, lo, hi, windowMs)
  {
    var c := calls[|calls| - 1];
    assert DecisionKept(calls, |calls| - 1, windowMs).allowed <==> w.count + 1 <= c.max;
    forall lo, hi
      ensures Allowed(calls, c.key, lo, hi, windowMs)
              == Allowed(init, c.key, lo, hi, windowMs) + if lo <= c.at < hi && w.count + 1 <= c.max then 1 else 0
    {}
    hide Allowed, InOrder, Kept, DecisionKept;
  }

  /** A stretch that reaches into the window starts after the one before it began. */
  lemma SameBound(calls: seq<Call>, key: string, w: Window, at: int, lo: int, hi: int, most: nat, windowMs: int)
    requires Throughput(calls, key, w, most, windowMs) && !Expired(w, at, windowMs) && w.startedAt <= at
    requires lo <= at < hi <= lo + windowMs && most >= 1
    ensures Allowed(calls, key, lo, hi, windowMs) <= 2 * most - 1
  {
    if lo <= w.startedAt { AllowedSplits(calls, key, lo, w.startedAt, hi, windowMs); }
  }

  /** A call that opens a new window for its key. */
  lemma NewWindow(init: seq<Call>, calls: seq<Call>, most: nat, windowMs: int)
    requires calls != [] && init == calls[..|calls| - 1] && InOrder(calls) && windowMs > 0 && most >= 1
    requires var c := calls[|calls| - 1];
             && c.max <= most && (c.key in Kept(init, windowMs) ==> Expired(Kept(init, windowMs)[c.key], c.at, windowMs))
             && KeyThroughput(init, c.key, most, windowMs) && Bounded(init, c.key, most, windowMs)
    ensures var c := calls[|calls| - 1];
            && Throughput(calls, c.key, Kept(calls, windowMs)[c.key], most, windowMs)
            && Bounded(calls, c.key, most, windowMs)
  {
    var c := calls[|calls| - 1];
    var key := c.key;
    assert Opened(Kept(init, windowMs), key, c.at, windowMs) == Window(0, c.at, false);
    forall lo, hi
      ensures Allowed(calls, key, lo, hi, windowMs)
              <= Allowed(init, key, lo, hi, windowMs) + if lo <= c.at < hi then 1 else 0
      ensures lo > c.at - windowMs ==> Allowed(init, key, lo, hi, windowMs) <= most - 1
      ensures lo >= c.at ==> Allowed(init, key, lo, hi, windowMs) == 0
    {}
  }

  lemma {:induction false} BurstBound(calls: seq<Call>, key: string, most: nat, windowMs: int)
    requires InOrder(calls) && windowMs > 0 && most >= 1 && AtMost(calls, key, most)
    ensures KeyThroughput(calls, key, most, windowMs) && Bounded(calls, key, most, windowMs)
  {
    if calls != [] {
      var init, c := calls[..|calls| - 1], calls[|calls| - 1];
      BurstBound(init, key, most, windowMs);
      if c.key == key {
        if key in Kept(init, windowMs) && !Expired(Kept(init, windowMs)[key], c.at, windowMs) {
          var w := Kept(init, windowMs)[key];
          SameWindow(init, calls, w, most, windowMs);
          assert Kept(calls, windowMs)[key] == Counted(w, c.max);
          forall lo, hi | hi <= lo + windowMs && lo <= c.at < hi
            ensures Allowed(calls, key, lo, hi, windowMs) <= 2 * most - 1
          {
            SameBound(calls, key, Counted(w, c.max), c.at, lo, hi, most, windowMs);
          }
        } else {
          NewWindow(init, calls, most, windowMs);
        }
      } else {
        forall lo, hi ensures Allowed(calls, key, lo, hi, windowMs) == Allowed(init, key, lo, hi, windowMs) {}
      }
    }
  }

  // ---- The bound is met -------------------------------------------------------------------

  lemma OneMore(calls: seq<Call>, c: Call, lo: int, hi: int, windowMs: int)
    ensures var w := Opened(Kept(calls, windowMs), c.key, c.at, windowMs);
            && Kept(calls + [c], windowMs) == Kept(calls, windowMs)[c.key := Counted(w, c.max)]
            && Allowed(calls + [c], c.key, lo, hi, windowMs)
               == Allowed(calls, c.key, lo, hi, windowMs) + (if lo <= c.at < hi && w.count + 1 <= c.max then 1 else 0)
            && (InOrder(calls + [c]) <==> InOrder(calls) && 0 <= c.at && (calls != [] ==> LastAt(calls) <= c.at))
  {
    assert (calls + [c])[..|calls|] == calls;
  }

  function Again(calls: seq<Call>, c: Call, n: nat): seq<Call> {
    if n == 0 then calls else Again(calls, c, n - 1) + [c]
  }

  function Facing(calls: seq<Call>, key: string, at: int, windowMs: int): Window {
    Opened(Kept(calls, windowMs), key, at, windowMs)
  }

  /** The window a later call faces: the same while it lasts, and then a new one. */
  lemma FacingLater(calls: seq<Call>, key: string, at: int, later: int, windowMs: int)
    requires Facing(calls, key, at, windowMs).count >= 1
    ensures var w := Facing(calls, key, at, windowMs);
            Facing(calls, key, later, windowMs) == if later - w.startedAt < windowMs then w else Window(0, later, false)
  {
    hide Kept;
  }

  predicate Next(calls: seq<Call>, c: Call) {
    InOrder(calls) && 0 <= c.at && (calls != [] ==> LastAt(calls) <= c.at)
  }

  lemma OneAllowed(calls: seq<Call>, c: Call, lo: int, hi: int, windowMs: int)
    requires Next(calls, c) && windowMs > 0
    requires var w := Facing(calls, c.key, c.at, windowMs); w.count < c.max && !w.refused
    ensures var w := Facing(calls, c.key, c.at, windowMs);
            && Next(calls + [c], c)
            && Allowed(calls + [c], c.key, lo, hi, windowMs)
               == Allowed(calls, c.key, lo, hi, windowMs) + (if lo <= c.at < hi then 1 else 0)
            && Facing(calls + [c], c.key, c.at, windowMs) == Window(w.count + 1, w.startedAt, false)
  {
    OneMore(calls, c, lo, hi, windowMs);
    hide InOrder, Kept, Allowed;
  }

  /** The same call again and again, as often as its window still has room for. */
  lemma {:induction false} AgainAllowed(calls: seq<Call>, c: Call, n: nat, lo: int, hi: int, windowMs: int)
    requires Next(calls, c) && windowMs > 0
    requires var w := Facing(calls, c.key, c.at, windowMs); w.count + n <= c.max && !w.refused
    ensures var all := Again(calls, c, n);
            var w := Facing(calls, c.key, c.at, windowMs);
            && Next(all, c)
            && Allowed(all, c.key, lo, hi, windowMs)
               == Allowed(calls, c.key, lo, hi, windowMs) + (if lo <= c.at < hi then n else 0)
            && Facing(all, c.key, c.at, windowMs) == Window(w.count + n, w.startedAt, false)
  {
    hide Next, Allowed, Facing;
    if n > 0 {
      AgainAllowed(calls, c, n - 1, lo, hi, windowMs);
      OneAllowed(Again(calls, c, n - 1), c, lo, hi, windowMs);
    }
  }

  /** One call, the rest of its window's share a moment before it ends, and a whole share when it has. */
  function Burst(key: string, max: nat, windowMs: int): seq<Call>
    requires max >= 1
  {
    Again(Again(Again([], Call(key, 0, max), 1), Call(key, windowMs - 1, max), max - 1), Call(key, windowMs, max), max)
  }

  /** For every limit, and every window of two milliseconds or more, the bound is reached. */
  lemma BurstReached(key: string, max: nat, windowMs: int)
    requires max >= 1 && windowMs >= 2
    ensures InOrder(Burst(key, max, windowMs)) && AtMost(Burst(key, max, windowMs), key, max)
    ensures Allowed(Burst(key, max, windowMs), key, 1, 1 + windowMs, windowMs) == 2 * max - 1
  {
    var none: seq<Call> := [];
    var first, late, next := Call(key, 0, max), Call(key, windowMs - 1, max), Call(key, windowMs, max);
    NothingYet(first, 1, 1 + windowMs, windowMs);
    hide Facing, Allowed, Next, Again, AtMost;
    AgainAllowed(none, first, 1, 1, 1 + windowMs, windowMs);
    var one := Again(none, first, 1);
    FacingLater(one, key, 0, windowMs - 1, windowMs);
    NextLater(one, first, late);
    AgainAllowed(one, late, max - 1, 1, 1 + windowMs, windowMs);
    var two := Again(one, late, max - 1);
    FacingLater(two, key, windowMs - 1, windowMs, windowMs);
    NextLater(two, late, next);
    AgainAllowed(two, next, max, 1, 1 + windowMs, windowMs);
    NextLater(Again(two, next, max), next, next);
    BurstAtMost(key, max, windowMs);
  }

  lemma BurstAtMost(key: string, max: nat, windowMs: int)
    requires max >= 1
    ensures AtMost(Burst(key, max, windowMs), key, max)
  {
    var first, late, next := Call(key, 0, max), Call(key, windowMs - 1, max), Call(key, windowMs, max);
    assert AtMost([], key, max);
    hide Again, AtMost;
    AgainAtMost([], first, 1);
    AgainAtMost(Again([], first, 1), late, max - 1);
    AgainAtMost(Again(Again([], first, 1), late, max - 1), next, max);
  }

  lemma NextLater(calls: seq<Call>, c: Call, d: Call)
    requires Next(calls, c) && c.at <= d.at
    ensures Next(calls, d) && InOrder(calls)
  {
    hide InOrder;
  }

  lemma NothingYet(c: Call, lo: int, hi: int, windowMs: int)
    requires 0 <= c.at
    ensures Next([], c) && Facing([], c.key, c.at, windowMs) == Window(0, c.at, false)
    ensures Allowed([], c.key, lo, hi, windowMs) == 0 && AtMost([], c.key, c.max)
  {
  }

  lemma {:induction false} AgainAtMost(calls: seq<Call>, c: Call, n: nat)
    requires AtMost(calls, c.key, c.max)
    ensures AtMost(Again(calls, c, n), c.key, c.max)
  {
    if n > 0 { AgainAtMost(calls, c, n - 1); }
  }

  /** In a window of a single millisecond no more than the limit gets through. */
  lemma {:induction false} OneMillisecond(calls: seq<Call>, key: string, most: nat, lo: int)
    requires InOrder(calls) && most >= 1 && AtMost(calls, key, most)
    ensures Allowed(calls, key, lo, lo + 1, 1) <= most
  {
    if calls != [] {
      var init, c := calls[..|calls| - 1], calls[|calls| - 1];
      OneMillisecond(init, key, most, lo);
      BurstBound(calls, key, most, 1);
      if c.key == key && c.at == lo { KeptRecent(calls, 1); }
      hide InOrder;
    }
  }

  lemma KeptRecent(calls: seq<Call>, windowMs: int)
    requires calls != [] && InOrder(calls) && windowMs > 0
    ensures var c := calls[|calls| - 1];
            c.key in Kept(calls, windowMs) && c.at - Kept(calls, windowMs)[c.key].startedAt < windowMs
  {
  }

  // ---- Refusals --------------------------------------------------------------------------

  /** The window that call `i` falls in, as it finds it. */
  function Found(calls: seq<Call>, i: nat, windowMs: int): Window
    requires i < |calls|
  {
    Opened(Kept(calls[..i], windowMs), calls[i].key, calls[i].at, windowMs)
  }

  /** Call `j` was refused in the window of the key that began at an instant. */
  predicate RefusedIn(calls: seq<Call>, j: nat, key: string, startedAt: int, windowMs: int)
    requires j < |calls|
  {
    && calls[j].key == key && Found(calls, j, windowMs).startedAt == startedAt
    && !DecisionKept(calls, j, windowMs).allowed
  }

  predicate SomeRefused(calls: seq<Call>, n: nat, key: string, startedAt: int, windowMs: int)
    requires n <= |calls|
  {
    exists j :: 0 <= j < n && RefusedIn(calls, j, key, startedAt, windowMs)
  }

  /** No window of the key began later than the one kept, whose flag tells of refusals in it. */
  predicate FlagTells(calls: seq<Call>, n: nat, key: string, windowMs: int)
    requires n <= |calls|
  {
    var kept := Kept(calls[..n], windowMs);
    && (forall j :: 0 <= j < n && calls[j].key == key ==>
          key in kept && Found(calls, j, windowMs).startedAt <= kept[key].startedAt)
    && (key in kept ==> (kept[key].refused <==> SomeRefused(calls, n, key, kept[key].startedAt, windowMs)))
  }

  lemma DecidedOn(calls: seq<Call>, i: nat, windowMs: int)
    requires i < |calls|
    ensures DecisionKept(calls, i, windowMs) == Decide(Found(calls, i, windowMs), calls[i].at, calls[i].max, windowMs)
    ensures Kept(calls[..i + 1], windowMs)
            == Kept(calls[..i], windowMs)[calls[i].key := Counted(Found(calls, i, windowMs), calls[i].max)]
  {
    assert calls[..i + 1][..i] == calls[..i];
  }

  lemma SomeRefusedNext(calls: seq<Call>, n: nat, key: string, startedAt: int, windowMs: int)
    requires n < |calls|
    ensures SomeRefused(calls, n + 1, key, startedAt, windowMs)
            <==> SomeRefused(calls, n, key, startedAt, windowMs) || RefusedIn(calls, n, key, startedAt, windowMs)
  {
    hide RefusedIn;
  }

  lemma {:induction false} FlagAlwaysTells(calls: seq<Call>, n: nat, key: string, windowMs: int)
    requires n <= |calls| && windowMs > 0
    ensures FlagTells(calls, n, key, windowMs)
  {
    if n > 0 {
      var i := n - 1;
      FlagAlwaysTells(calls, i, key, windowMs);
      DecidedOn(calls, i, windowMs);
      var w := Found(calls, i, windowMs);
      hide Kept, DecisionKept;
      if calls[i].key == key {
        NewWindowIsLater(calls, i, windowMs);
        SomeRefusedNext(calls, i, key, w.startedAt, windowMs);
        hide SomeRefused;
      } else if key in Kept(calls[..i], windowMs) {
        SomeRefusedNext(calls, i, key, Kept(calls[..i], windowMs)[key].startedAt, windowMs);
        hide SomeRefused;
      }
    }
  }

  /** A call that opens a window finds none that began when it does, and no refusal in it. */
  lemma NewWindowIsLater(calls: seq<Call>, i: nat, windowMs: int)
    requires i < |calls| && windowMs > 0 && FlagTells(calls, i, calls[i].key, windowMs)
    ensures var w := Found(calls, i, windowMs);
            && (forall j :: 0 <= j < i && calls[j].key == calls[i].key ==> Found(calls, j, windowMs).startedAt <= w.startedAt)
            && (w.refused <==> SomeRefused(calls, i, calls[i].key, w.startedAt, windowMs))
  {
    hide Kept, DecisionKept;
  }

  /**
   * A call is allowed while its window has room for it, and is a first refusal exactly when it is
   * refused and none before it in its window was.
   */
  lemma FirstRefusalOnce(calls: seq<Call>, i: nat, windowMs: int)
    requires i < |calls| && windowMs > 0
    ensures var w := Found(calls, i, windowMs);
            && DecisionKept(calls, i, windowMs).allowed == (w.count < calls[i].max)
            && (DecisionKept(calls, i, windowMs).firstRefusal
                <==> w.count >= calls[i].max && !SomeRefused(calls, i, calls[i].key, w.startedAt, windowMs))
  {
    FlagAlwaysTells(calls, i, calls[i].key, windowMs);
    NewWindowIsLater(calls, i, windowMs);
    DecidedOn(calls, i, windowMs);
    hide Found, DecisionKept, SomeRefused;
  }

  /** A refused caller that stays away for the announced seconds is let through, whatever others do. */
  lemma WaitingHelps(calls: seq<Call>, i: nat, j: nat, windowMs: int)
    requires InOrder(calls) && i < j < |calls| && windowMs > 0 && calls[j].max >= 1
    requires calls[j].key == calls[i].key && forall k :: i < k < j ==> calls[k].key != calls[i].key
    requires calls[j].at >= calls[i].at + 1000 * DecisionAt(calls, i, windowMs).retryAfterSeconds
    ensures DecisionAt(calls, j, windowMs).allowed
  {
    PruningIsInvisible(calls, i, windowMs);
    PruningIsInvisible(calls, j, windowMs);
    KeptWhileAway(calls, i, j, windowMs);
  }

  /** The window of a key is still the one its last call left. */
  lemma {:induction false} KeptWhileAway(calls: seq<Call>, i: nat, j: nat, windowMs: int)
    requires i < j <= |calls| && forall k :: i < k < j ==> calls[k].key != calls[i].key
    ensures calls[i].key in Kept(calls[..j], windowMs)
    ensures Kept(calls[..j], windowMs)[calls[i].key] == Counted(Found(calls, i, windowMs), calls[i].max)
    decreases j
  {
    assert calls[..j][..j - 1] == calls[..j - 1];
    if j > i + 1 { KeptWhileAway(calls, i, j - 1, windowMs); }
  }

  /** What is told besides: how many more calls the window has room for, and the fewest whole seconds, one at least, until it ends. */
  lemma ToldMeans(calls: seq<Call>, i: nat, windowMs: int)
    requires i < |calls| && windowMs > 0
    ensures var d, w := DecisionKept(calls, i, windowMs), Found(calls, i, windowMs);
            var wait := w.startedAt + windowMs - calls[i].at;
            && (d.allowed ==> d.remaining + w.count + 1 == calls[i].max) && (!d.allowed ==> d.remaining == 0)
            && d.retryAfterSeconds >= 1 && 1000 * d.retryAfterSeconds >= wait
            && (d.retryAfterSeconds == 1 || 1000 * (d.retryAfterSeconds - 1) < wait)
  {
    DecidedOn(calls, i, windowMs);
    hide Found;
  }
}

/** Budget rules: minutes carried from period to period, overage of entries and threshold alerts. */
module Budget {
  import opened Wrappers

  function Max(a: int, b: int): int { if a >= b then a else b }

  function Min(a: int, b: int): int { if a <= b then a else b }

  // ---- Carry-over -----------------------------------------------------------------

  datatype Rollover = NoRollover | CarryMonth | CarryTerm | Cap(minutes: nat)

  /** Days are day numbers. */
  datatype Period = Period(startsOn: int, endsOn: int, contracted: int, consumed: int)

  /** What the next period opens with, given the previous one and what that had been carried. */
  function CarryOver(rule: Rollover, previous: Option<(Period, int)>, nextStartsOn: int): int {
    if rule.NoRollover? || previous.None? then 0
    else
      var (period, carried) := previous.value;
      if rule.CarryMonth? then
        if period.endsOn + 1 != nextStartsOn then 0 else Max(period.contracted - period.consumed, 0)
      else
        var cumulative := Max(period.contracted + carried - period.consumed, 0);
        if rule.Cap? then Min(cumulative, rule.minutes) else cumulative
  }

  /** Rolling over a term: what is carried out of the last period, `initial` having been carried into the first. */
  function Carried(rule: Rollover, initial: int, periods: seq<Period>, nextStartsOn: int): int {
    if periods == [] then initial
    else
      var last := periods[|periods| - 1];
      CarryOver(rule, Some((last, Carried(rule, initial, periods[..|periods| - 1], last.startsOn))), nextStartsOn)
  }

  /** Unused minutes of the periods from `k` on; the full sum counts what was carried in. */
  function Unused(initial: int, periods: seq<Period>, k: nat): int
    requires k <= |periods|
  {
    if k == |periods| then (if k == 0 then initial else 0)
    else
      var last := periods[|periods| - 1];
      Unused(initial, periods[..|periods| - 1], k) + last.contracted - last.consumed
  }

  /** Carrying a term is the greatest sum of unused minutes over any run of latest periods, none included. */
  lemma {:induction false} TermCarriesGreatestSuffix(initial: int, periods: seq<Period>, nextStartsOn: int)
    ensures forall k :: 0 <= k <= |periods| ==>
              Carried(CarryTerm, initial, periods, nextStartsOn) >= Unused(initial, periods, k)
    ensures exists k :: 0 <= k <= |periods|
              && Carried(CarryTerm, initial, periods, nextStartsOn) == Unused(initial, periods, k)
  {
    var carried := Carried(CarryTerm, initial, periods, nextStartsOn);
    if periods == [] {
      assert carried == Unused(initial, periods, 0);
    } else {
      var init, last := periods[..|periods| - 1], periods[|periods| - 1];
      TermCarriesGreatestSuffix(initial, init, last.startsOn);
      var before := Carried(CarryTerm, initial, init, last.startsOn);
      var j :| 0 <= j <= |init| && before == Unused(initial, init, j);
      assert carried == Max(before + last.contracted - last.consumed, 0);
      forall k | 0 <= k <= |periods| ensures carried >= Unused(initial, periods, k) {
        if k < |periods| { assert before >= Unused(initial, init, k); }
      }
      assert carried == Unused(initial, periods, j) || carried == Unused(initial, periods, |periods|);
    }
  }

  /** What each rule lets through of one period: its unused minutes alone, or with what it was carried, capped or not. */
  lemma CarriesWhat(rule: Rollover, period: Period, carried: int, nextStartsOn: int)
    ensures var out, unused := CarryOver(rule, Some((period, carried)), nextStartsOn), period.contracted - period.consumed;
            && out >= 0
            && (rule.NoRollover? ==> out == 0)
            && (rule.CarryMonth? ==>
                  (out > 0 <==> unused > 0 && nextStartsOn - period.endsOn == 1) && (out > 0 ==> out == unused))
            && (rule.CarryTerm? ==> (out > 0 <==> unused + carried > 0) && (out > 0 ==> out == unused + carried))
            && (rule.Cap? ==> out <= rule.minutes && (out < rule.minutes ==> out == CarryOver(CarryTerm, Some((period, carried)), nextStartsOn)))
    ensures CarryOver(rule, None, nextStartsOn) == 0
  {
  }

  /** Carrying a month never looks past the period before. */
  lemma MonthForgets(initial: int, other: int, periods: seq<Period>, more: seq<Period>, last: Period, nextStartsOn: int)
    ensures Carried(CarryMonth, initial, periods + [last], nextStartsOn) == Carried(CarryMonth, other, more + [last], nextStartsOn)
  {
    assert (periods + [last])[..|periods|] == periods && (more + [last])[..|more|] == more;
  }

  /** The other rules never carry more than the term does, and a cap is never passed. */
  lemma {:induction false} RulesBelowTerm(rule: Rollover, initial: nat, periods: seq<Period>, nextStartsOn: int)
    ensures 0 <= Carried(rule, initial, periods, nextStartsOn) <= Carried(CarryTerm, initial, periods, nextStartsOn)
    ensures rule.Cap? && periods != [] ==> Carried(rule, initial, periods, nextStartsOn) <= rule.minutes
  {
    if periods != [] {
      RulesBelowTerm(rule, initial, periods[..|periods| - 1], periods[|periods| - 1].startsOn);
    }
  }

  // ---- Overage ----------------------------------------------------------------------

  datatype OverageRule = Block | AllowFlag | AllowRate

  datatype OverageDecision = OverageDecision(blocked: bool, overBudget: bool, overageMinutes: int, multiplier: real)

  function Decide(rule: OverageRule, available: int, consumed: int, minutes: int, multiplier: Option<real>)
    : OverageDecision
  {
    if available <= 0 || consumed + minutes <= available then OverageDecision(false, false, 0, 1.0)
    else
      var overage := Min(minutes, consumed + minutes - available);
      match rule
      case Block => OverageDecision(true, true, overage, 1.0)
      case AllowRate =>
        OverageDecision(false, true, overage,
          if multiplier.Some? && multiplier.value >= 1.0 then multiplier.value else 1.0)
      case AllowFlag => OverageDecision(false, true, overage, 1.0)
  }

  /** Minutes consumed and minutes over budget so far. */
  datatype Ledger = Ledger(consumed: int, overage: int)

  /** A blocked entry is not saved. */
  function Save(rule: OverageRule, available: int, ledger: Ledger, minutes: int): Ledger {
    var d := Decide(rule, available, ledger.consumed, minutes, None);
    if d.blocked then ledger else Ledger(ledger.consumed + minutes, ledger.overage + d.overageMinutes)
  }

  function Over(available: int, consumed: int): int {
    if available <= 0 then 0 else Max(0, consumed - available)
  }

  /** An entry adds to the overage what it adds to the part over budget, unless it takes consumption back under it. */
  lemma OneEntryExactlyWhen(rule: OverageRule, available: int, consumed: int, minutes: int)
    ensures Decide(rule, available, consumed, minutes, None).overageMinutes
            == Over(available, consumed + minutes) - Over(available, consumed)
            <==> !(0 < available < consumed && consumed + minutes <= available)
  {}

  /** Over budget are exactly the minutes of the entry past it; a block saves nothing then, a rate multiplies by no less than one. */
  lemma DecisionMeans(rule: OverageRule, available: int, consumed: int, minutes: nat, multiplier: Option<real>)
    ensures var d := Decide(rule, available, consumed, minutes, multiplier);
            && (d.overBudget <==> available > 0 && consumed + minutes > available)
            && (d.blocked <==> d.overBudget && rule.Block?)
            && (d.overBudget ==> 0 <= d.overageMinutes <= minutes && (minutes > 0 ==> d.overageMinutes > 0))
            && (d.overBudget && consumed <= available ==> consumed + minutes - d.overageMinutes == available)
            && (d.overBudget && consumed > available ==> d.overageMinutes == minutes)
            && (!d.overBudget ==> d.overageMinutes == 0)
            && d.multiplier >= 1.0
            && (d.multiplier != 1.0 ==> d.overBudget && rule.AllowRate? && multiplier == Some(d.multiplier))
            && (d.overBudget && rule.AllowRate? && multiplier.Some? && multiplier.value > 1.0 ==> d.multiplier == multiplier.value)
  {
  }

  /** What moves consumption: an entry, which the rule decides on, or the adjustment of one, which it does not see. */
  datatype Move = Entry(minutes: nat) | Adjustment(delta: int)

  function Take(rule: OverageRule, available: int, ledger: Ledger, move: Move): Ledger {
    match move
    case Entry(minutes) => Save(rule, available, ledger, minutes)
    case Adjustment(delta) => ledger.(consumed := ledger.consumed + delta)
  }

  function TakeAll(rule: OverageRule, available: int, start: int, moves: seq<Move>): Ledger {
    if moves == [] then Ledger(start, 0)
    else Take(rule, available, TakeAll(rule, available, start, moves[..|moves| - 1]), moves[|moves| - 1])
  }

  /** By how much the adjustments themselves moved the part over budget, upwards and downwards. */
  function AdjustedOver(rule: OverageRule, available: int, start: int, moves: seq<Move>): int {
    if moves == [] then 0
    else
      var init, last := moves[..|moves| - 1], moves[|moves| - 1];
      var before := TakeAll(rule, available, start, init).consumed;
      AdjustedOver(rule, available, start, init)
      + if last.Adjustment? then Over(available, before + last.delta) - Over(available, before) else 0
  }

  /** What the adjustments added, those that took away left out. */
  function Added(moves: seq<Move>): nat {
    if moves == [] then 0
    else Added(moves[..|moves| - 1]) + if moves[|moves| - 1].Adjustment? then Max(0, moves[|moves| - 1].delta) else 0
  }

  /**
   * The overage recorded is what consumption went over budget by between start and end, less what
   * the adjustments moved of that. A block lets nothing but an adjustment take it over the budget.
   */
  lemma {:induction false} OverageOfAnyHistory(rule: OverageRule, available: int, start: int, moves: seq<Move>)
    ensures var end := TakeAll(rule, available, start, moves);
            && end.overage == Over(available, end.consumed) - Over(available, start)
                              - AdjustedOver(rule, available, start, moves)
            && (rule.Block? && 0 < available ==> end.consumed <= Max(start, available) + Added(moves))
  {
    if moves != [] {
      var init, last := moves[..|moves| - 1], moves[|moves| - 1];
      OverageOfAnyHistory(rule, available, start, init);
      if last.Entry? {
        OneEntryExactlyWhen(rule, available, TakeAll(rule, available, start, init).consumed, last.minutes);
      }
    }
  }

  predicate OnlyEntries(moves: seq<Move>) { forall i :: 0 <= i < |moves| ==> moves[i].Entry? }

  /** Where nothing is adjusted the overage depends on start and end alone, and a block keeps within the budget. */
  lemma {:induction false} OverageTelescopes(rule: OverageRule, available: int, start: int, moves: seq<Move>)
    requires OnlyEntries(moves)
    ensures var end := TakeAll(rule, available, start, moves);
            && end.overage == Over(available, end.consumed) - Over(available, start)
            && start <= end.consumed
            && (rule.Block? && 0 < available ==> end.consumed <= Max(start, available))
  {
    OverageOfAnyHistory(rule, available, start, moves);
    EntriesOnlyAdd(rule, available, start, moves);
  }

  lemma {:induction false} EntriesOnlyAdd(rule: OverageRule, available: int, start: int, moves: seq<Move>)
    requires OnlyEntries(moves)
    ensures AdjustedOver(rule, available, start, moves) == 0 && Added(moves) == 0
    ensures start <= TakeAll(rule, available, start, moves).consumed
  {
    if moves != [] { EntriesOnlyAdd(rule, available, start, moves[..|moves| - 1]); }
  }

  // ---- Thresholds -----------------------------------------------------------------------

  /** `consumed` has reached `percent` of `available`. */
  predicate Reached(percent: int, consumed: int, available: int) {
    consumed * 100 >= available * percent
  }

  /** That is the share of the budget consumed, in whole numbers. */
  lemma ReachedMeans(percent: int, consumed: int, available: int)
    requires available > 0
    ensures Reached(percent, consumed, available) <==> consumed as real / available as real >= percent as real / 100.0
  {
    var share := consumed as real / available as real;
    assert share * available as real == consumed as real;
    assert (available * percent) as real == available as real * percent as real;
    assert share >= percent as real / 100.0 <==> share * available as real >= percent as real / 100.0 * available as real;
  }

  /** Into ascending order, each value once. */
  function InsertOnce(x: int, sorted: seq<int>): seq<int> {
    if sorted == [] || x < sorted[0] then [x] + sorted
    else if x == sorted[0] then sorted
    else [sorted[0]] + InsertOnce(x, sorted[1..])
  }

  function ThresholdsToFire(percents: seq<int>, fired: set<int>, consumed: int, available: int): seq<int> {
    if available <= 0 || percents == [] then []
    else
      var rest := ThresholdsToFire(percents[1..], fired, consumed, available);
      if percents[0] > 0 && percents[0] !in fired && Reached(percents[0], consumed, available)
      then InsertOnce(percents[0], rest) else rest
  }

  predicate Ascending(s: seq<int>) {
    forall i, j :: 0 <= i < j < |s| ==> s[i] < s[j]
  }

  predicate Below(x: int, s: seq<int>) { forall i :: 0 <= i < |s| ==> x < s[i] }

  lemma Cons(x: int, s: seq<int>)
    ensures Ascending([x] + s) <==> Below(x, s) && Ascending(s)
    ensures forall y :: y in [x] + s <==> y == x || y in s
  {
    if Ascending([x] + s) {
      forall i | 0 <= i < |s| ensures x < s[i] { assert ([x] + s)[0] < ([x] + s)[i + 1]; }
      forall i, j | 0 <= i < j < |s| ensures s[i] < s[j] { assert ([x] + s)[i + 1] < ([x] + s)[j + 1]; }
    }
  }

  lemma {:induction false} InsertOnceKeeps(x: int, sorted: seq<int>)
    requires Ascending(sorted)
    ensures Ascending(InsertOnce(x, sorted))
    ensures forall y :: y in InsertOnce(x, sorted) <==> y == x || y in sorted
  {
    if sorted == [] || x <= sorted[0] {
      Cons(x, sorted);
    } else {
      var first, rest := sorted[0], sorted[1..];
      assert sorted == [first] + rest;
      Cons(first, rest);
      InsertOnceKeeps(x, rest);
      hide Ascending;
      BelowInserted(first, x, rest);
      Cons(first, InsertOnce(x, rest));
    }
  }

  lemma {:induction false} BelowInserted(first: int, x: int, s: seq<int>)
    requires first < x && Below(first, s)
    ensures Below(first, InsertOnce(x, s))
  {
    if s != [] && x > s[0] { BelowInserted(first, x, s[1..]); }
  }

  lemma {:induction false} FiresMeaning(percents: seq<int>, fired: set<int>, consumed: int, available: int)
    ensures Ascending(ThresholdsToFire(percents, fired, consumed, available))
    ensures forall p :: p in ThresholdsToFire(percents, fired, consumed, available)
              <==> available > 0 && p in percents && p > 0 && p !in fired && Reached(p, consumed, available)
  {
    if available > 0 && percents != [] {
      FiresMeaning(percents[1..], fired, consumed, available);
      InsertOnceKeeps(percents[0], ThresholdsToFire(percents[1..], fired, consumed, available));
      assert percents == [percents[0]] + percents[1..];
    }
  }

  /** Consumption and budget as an evaluation finds them; the budget may be changed in between. */
  datatype Reading = Reading(consumed: int, available: int)

  /** The thresholds fired by a history of readings. */
  function Fired(percents: seq<int>, readings: seq<Reading>): set<int> {
    if readings == [] then {}
    else
      var before, last := Fired(percents, readings[..|readings| - 1]), readings[|readings| - 1];
      before + Elements(ThresholdsToFire(percents, before, last.consumed, last.available))
  }

  function Elements(s: seq<int>): set<int> { set i | 0 <= i < |s| :: s[i] }

  predicate ReachedAt(percent: int, r: Reading) { r.available > 0 && Reached(percent, r.consumed, r.available) }

  predicate EverReached(percent: int, readings: seq<Reading>) {
    exists i :: 0 <= i < |readings| && ReachedAt(percent, readings[i])
  }

  lemma EverReachedLast(percent: int, readings: seq<Reading>)
    requires readings != []
    ensures EverReached(percent, readings)
            <==> EverReached(percent, readings[..|readings| - 1]) || ReachedAt(percent, readings[|readings| - 1])
  {
    hide ReachedAt;
    var init := readings[..|readings| - 1];
    if EverReached(percent, readings) {
      var i :| 0 <= i < |readings| && ReachedAt(percent, readings[i]);
      if i < |init| { assert ReachedAt(percent, init[i]); }
    }
    if EverReached(percent, init) {
      var i :| 0 <= i < |init| && ReachedAt(percent, init[i]);
      assert ReachedAt(percent, readings[i]);
    }
  }

  lemma {:induction false} FiredMeansReached(percents: seq<int>, readings: seq<Reading>, p: int)
    requires p in percents && p > 0
    ensures p in Fired(percents, readings) <==> EverReached(p, readings)
  {
    if readings != [] {
      var init, last := readings[..|readings| - 1], readings[|readings| - 1];
      FiredMeansReached(percents, init, p);
      FiresMeaning(percents, Fired(percents, init), last.consumed, last.available);
      EverReachedLast(p, readings);
      hide Reached, EverReached, ThresholdsToFire;
    }
  }

  /** A threshold fires with the first reading that reaches it and with no other, even if consumption drops later. */
  lemma FiresAtFirstReach(percents: seq<int>, readings: seq<Reading>, p: int, i: nat)
    requires p in percents && p > 0 && i < |readings|
    ensures p in ThresholdsToFire(percents, Fired(percents, readings[..i]), readings[i].consumed, readings[i].available)
            <==> ReachedAt(p, readings[i]) && !EverReached(p, readings[..i])
  {
    FiredMeansReached(percents, readings[..i], p);
    FiresMeaning(percents, Fired(percents, readings[..i]), readings[i].consumed, readings[i].available);
  }
}

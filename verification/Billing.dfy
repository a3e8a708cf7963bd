/**
 * What a period bills and what it leaves: the summary kept at submit, the finance export and
 * the margin by role and by person. Money is in whole cents, rates in cents an hour and
 * multipliers in thousandths.
 */
module Billing {
  import opened Wrappers

  datatype Line = Line(
    isEntry: bool, contract: string, class_: string, person: string, role: Option<string>, performedOn: int,
    minutes: int, rate: Option<int>, multiplier: int, currency: string)

  datatype CostRate = CostRate(person: string, effectiveFrom: int, rate: int, currency: string)

  /** What a set of lines comes to; an unknown revenue or cost is counted in minutes and not as nothing. */
  datatype Figures = Figures(
    minutes: int, revenue: int, hasRevenue: bool, unrated: int, cost: int, hasCost: bool, uncosted: int)

  datatype Bucket = Bucket(key: string, figures: Figures)

  const NONE := Figures(0, 0, false, 0, 0, false, 0)

  // ---- Amounts -----------------------------------------------------------------------------

  /** The whole number nearest to n/d, halves upwards. */
  function Rounded(n: int, d: int): int
    requires d > 0
  {
    (2 * n + d) / (2 * d)
  }

  /** Cents for the minutes of a line, signed with them. */
  function Amount(minutes: int, rate: int, multiplier: int): int { Rounded(minutes * rate * multiplier, 60000) }

  function LineAmount(line: Line): Option<int> {
    if line.rate.None? then None else Some(Amount(line.minutes, line.rate.value, line.multiplier))
  }

  function CostOf(minutes: int, rate: int): int { Rounded(minutes * rate, 60) }

  /** A write-off takes back exactly what was billed, but for a cent when that fell on half a cent. */
  lemma WriteOffCancelsExactlyWhen(minutes: int, rate: int, multiplier: int)
    ensures Amount(minutes, rate, multiplier) + Amount(-minutes, rate, multiplier)
            == if (minutes * rate * multiplier) % 60000 == 30000 then 1 else 0
  {
    var n := minutes * rate * multiplier;
    assert -minutes * rate * multiplier == -n;
    Opposites(n);
    hide Rounded;
  }

  lemma Opposites(n: int)
    ensures Rounded(n, 60000) + Rounded(-n, 60000) == if n % 60000 == 30000 then 1 else 0
  {
    var q, r := n / 60000, n % 60000;
    assert n == 60000 * q + r;
    if r < 30000 {
      assert Rounded(n, 60000) == q;
    } else {
      assert Rounded(n, 60000) == q + 1;
    }
  }

  /** An amount is the cents nearest to the hours times the rate times the multiplier, and a cost to the hours times the rate. */
  lemma NearestCent(minutes: int, rate: int, multiplier: int)
    ensures var n, cents := minutes * rate * multiplier, Amount(minutes, rate, multiplier);
            60000 * cents - 30000 <= n < 60000 * cents + 30000
    ensures var n, cents := minutes * rate, CostOf(minutes, rate); 60 * cents - 30 <= n < 60 * cents + 30
  {
    Nearest(minutes * rate * multiplier, 60000);
    Nearest(minutes * rate, 60);
    hide Rounded;
  }

  lemma Nearest(n: int, d: int)
    requires d in {60, 60000}
    ensures d * Rounded(n, d) - d / 2 <= n < d * Rounded(n, d) + d / 2
  {
  }

  // ---- Buckets ---------------------------------------------------------------------------------

  function Plus(a: Figures, b: Figures): Figures {
    Figures(a.minutes + b.minutes, a.revenue + b.revenue, a.hasRevenue || b.hasRevenue, a.unrated + b.unrated,
            a.cost + b.cost, a.hasCost || b.hasCost, a.uncosted + b.uncosted)
  }

  /** Buckets in the order their keys were first met. */
  function Add(buckets: seq<Bucket>, key: string, f: Figures): seq<Bucket> {
    if buckets == [] then [Bucket(key, Plus(NONE, f))]
    else if buckets[0].key == key then [Bucket(key, Plus(buckets[0].figures, f))] + buckets[1..]
    else [buckets[0]] + Add(buckets[1..], key, f)
  }

  function Total(buckets: seq<Bucket>): Figures {
    if buckets == [] then NONE else Plus(buckets[0].figures, Total(buckets[1..]))
  }

  function At(buckets: seq<Bucket>, key: string): Figures {
    if buckets == [] then NONE else if buckets[0].key == key then buckets[0].figures else At(buckets[1..], key)
  }

  lemma PlusMoves(a: Figures, b: Figures, f: Figures)
    ensures Plus(Plus(a, f), b) == Plus(Plus(a, b), f) == Plus(a, Plus(b, f))
  {
  }

  lemma TotalOf(b: Bucket, rest: seq<Bucket>)
    ensures Total([b] + rest) == Plus(b.figures, Total(rest))
  {
    assert ([b] + rest)[1..] == rest;
  }

  lemma {:induction false} AddConserves(buckets: seq<Bucket>, key: string, f: Figures)
    ensures Total(Add(buckets, key, f)) == Plus(Total(buckets), f)
  {
    hide Plus, Total;
    if buckets == [] {
      AddFirst(key, f);
    } else {
      var b, rest := buckets[0], buckets[1..];
      assert buckets == [b] + rest;
      TotalOf(b, rest);
      PlusMoves(b.figures, Total(rest), f);
      if b.key == key {
        TotalOf(Bucket(key, Plus(b.figures, f)), rest);
      } else {
        AddConserves(rest, key, f);
        TotalOf(b, Add(rest, key, f));
      }
    }
  }

  lemma AddFirst(key: string, f: Figures)
    ensures Total(Add([], key, f)) == Plus(Total([]), f)
  {
    assert Add([], key, f)[1..] == [];
  }

  lemma {:induction false} AddChangesItsOwn(buckets: seq<Bucket>, key: string, f: Figures, k: string)
    ensures At(Add(buckets, key, f), k) == if k == key then Plus(At(buckets, k), f) else At(buckets, k)
  {
    if buckets != [] && buckets[0].key != key { AddChangesItsOwn(buckets[1..], key, f, k); }
  }

  // ---- Billing ---------------------------------------------------------------------------------

  datatype Dimension = ByClass | ByContract | ByRole | ByPerson

  function KeyOf(line: Line, d: Dimension): string {
    match d
    case ByClass => line.class_
    case ByContract => line.contract
    case ByRole => if line.role.Some? then line.role.value else "unknown"
    case ByPerson => line.person
  }

  /** What one line brings. */
  function Brings(line: Line, costs: seq<CostRate>): Figures {
    var amount := LineAmount(line);
    var rate := CostFor(costs, line.person, line.performedOn);
    Figures(
      line.minutes,
      if amount.Some? then amount.value else 0, amount.Some?, if amount.Some? then 0 else line.minutes,
      if rate.Some? then CostOf(line.minutes, rate.value.rate) else 0, rate.Some?, if rate.Some? then 0 else line.minutes)
  }

  /** What the lines come to that satisfy a key, taken one by one. */
  function Figured(lines: seq<Line>, costs: seq<CostRate>, d: Dimension, key: Option<string>): Figures {
    if lines == [] then NONE
    else
      var line := lines[|lines| - 1];
      var before := Figured(lines[..|lines| - 1], costs, d, key);
      if key == None || key == Some(KeyOf(line, d)) then Plus(before, Brings(line, costs)) else before
  }

  function All(lines: seq<Line>, costs: seq<CostRate>): Figures { Figured(lines, costs, ByClass, None) }

  /** Each bucket holds what its own lines come to, and together they hold everything once. */
  ghost predicate Splits(buckets: seq<Bucket>, lines: seq<Line>, costs: seq<CostRate>, d: Dimension) {
    && Total(buckets) == All(lines, costs)
    && forall k :: At(buckets, k) == Figured(lines, costs, d, Some(k))
  }

  lemma SplitsNext(buckets: seq<Bucket>, lines: seq<Line>, n: nat, costs: seq<CostRate>, d: Dimension)
    requires n < |lines| && Splits(buckets, lines[..n], costs, d)
    ensures Splits(Add(buckets, KeyOf(lines[n], d), Brings(lines[n], costs)), lines[..n + 1], costs, d)
  {
    assert lines[..n + 1][..n] == lines[..n];
    var key, f := KeyOf(lines[n], d), Brings(lines[n], costs);
    AddConserves(buckets, key, f);
    forall k ensures At(Add(buckets, key, f), k) == Figured(lines[..n + 1], costs, d, Some(k)) {
      AddChangesItsOwn(buckets, key, f, k);
    }
  }

  datatype Summary = Summary(
    entries: nat, adjustments: nat, minutes: int, amount: int, unrated: int, byClass: seq<Bucket>, byContract: seq<Bucket>)

  function Entries(lines: seq<Line>): nat {
    if lines == [] then 0 else Entries(lines[..|lines| - 1]) + if lines[|lines| - 1].isEntry then 1 else 0
  }

  method PeriodSummary(lines: seq<Line>) returns (s: Summary)
    ensures Splits(s.byClass, lines, [], ByClass) && Splits(s.byContract, lines, [], ByContract)
    ensures s.minutes == All(lines, []).minutes && s.amount == All(lines, []).revenue && s.unrated == All(lines, []).unrated
    ensures s.entries == Entries(lines) && s.entries + s.adjustments == |lines|
  {
    s := Summary(0, 0, 0, 0, 0, [], []);
    for i := 0 to |lines|
      invariant Splits(s.byClass, lines[..i], [], ByClass) && Splits(s.byContract, lines[..i], [], ByContract)
      invariant var f := All(lines[..i], []); s.minutes == f.minutes && s.amount == f.revenue && s.unrated == f.unrated
      invariant s.entries == Entries(lines[..i]) && s.entries + s.adjustments == i
    {
      hide Splits, Brings;
      assert lines[..i + 1][..i] == lines[..i];
      var line := lines[i];
      var value := if LineAmount(line).Some? then LineAmount(line).value else 0;
      SplitsNext(s.byClass, lines, i, [], ByClass);
      SplitsNext(s.byContract, lines, i, [], ByContract);
      assert Brings(line, []).minutes == line.minutes && Brings(line, []).revenue == value
          && Brings(line, []).unrated == (if line.rate.None? then line.minutes else 0) by { BringsBilled(line); }
      s := Summary(
        s.entries + if line.isEntry then 1 else 0,
        s.adjustments + if line.isEntry then 0 else 1,
        s.minutes + line.minutes,
        s.amount + value,
        s.unrated + if line.rate.None? then line.minutes else 0,
        Add(s.byClass, line.class_, Brings(line, [])),
        Add(s.byContract, line.contract, Brings(line, [])));
    }
    assert lines[..|lines|] == lines;
  }

  lemma BringsBilled(line: Line)
    ensures Brings(line, []).minutes == line.minutes
    ensures Brings(line, []).revenue == if LineAmount(line).Some? then LineAmount(line).value else 0
    ensures Brings(line, []).unrated == if line.rate.None? then line.minutes else 0
  {
  }

  /** The amount column of the export, an empty cell where there is no rate. */
  function AmountColumn(lines: seq<Line>): seq<Option<int>> {
    seq(|lines|, i requires 0 <= i < |lines| => LineAmount(lines[i]))
  }

  function ColumnSum(cells: seq<Option<int>>): int {
    if cells == [] then 0
    else ColumnSum(cells[..|cells| - 1]) + if cells[|cells| - 1].Some? then cells[|cells| - 1].value else 0
  }

  /** The export comes to the summary's amount to the cent, and so to the revenue that the margin starts from. */
  lemma {:induction false} ExportMatches(lines: seq<Line>, costs: seq<CostRate>)
    ensures ColumnSum(AmountColumn(lines)) == All(lines, []).revenue == All(lines, costs).revenue
    ensures All(lines, []).minutes == All(lines, costs).minutes && All(lines, []).unrated == All(lines, costs).unrated
  {
    if lines != [] {
      var n := |lines| - 1;
      assert AmountColumn(lines)[..n] == AmountColumn(lines[..n]);
      ExportMatches(lines[..n], costs);
    }
  }

  // ---- Profitability -------------------------------------------------------------------------------

  /** The cost rate in force: of a person's rates that had taken effect, the last to do so. */
  function CostFor(costs: seq<CostRate>, person: string, on: int): Option<CostRate> {
    if costs == [] then None
    else
      var rest := CostFor(costs[1..], person, on);
      var c := costs[0];
      if c.person != person || c.effectiveFrom > on then rest
      else if rest.Some? && rest.value.effectiveFrom >= c.effectiveFrom then rest
      else Some(c)
  }

  lemma {:induction false} CostInForce(costs: seq<CostRate>, person: string, on: int)
    ensures var r := CostFor(costs, person, on);
            && (r.None? <==> forall c :: c in costs ==> c.person != person || c.effectiveFrom > on)
            && (r.Some? ==> r.value in costs && r.value.person == person && r.value.effectiveFrom <= on
                            && forall c :: c in costs && c.person == person && c.effectiveFrom <= on ==>
                                 c.effectiveFrom <= r.value.effectiveFrom)
  {
    if costs != [] {
      CostInForce(costs[1..], person, on);
      assert costs == [costs[0]] + costs[1..];
    }
  }

  /** A margin needs both halves. */
  function Margin(f: Figures): Option<int> {
    if f.hasRevenue && f.hasCost then Some(f.revenue - f.cost) else None
  }

  method Profitability(lines: seq<Line>, costs: seq<CostRate>)
    returns (total: Figures, roles: seq<Bucket>, people: seq<Bucket>)
    ensures total == All(lines, costs)
    ensures Splits(roles, lines, costs, ByRole) && Splits(people, lines, costs, ByPerson)
  {
    total, roles, people := NONE, [], [];
    for i := 0 to |lines|
      invariant total == All(lines[..i], costs)
      invariant Splits(roles, lines[..i], costs, ByRole) && Splits(people, lines[..i], costs, ByPerson)
    {
      assert lines[..i + 1][..i] == lines[..i];
      hide Splits, Brings;
      var line := lines[i];
      SplitsNext(roles, lines, i, costs, ByRole);
      SplitsNext(people, lines, i, costs, ByPerson);
      total := Plus(total, Brings(line, costs));
      roles := Add(roles, KeyOf(line, ByRole), Brings(line, costs));
      people := Add(people, KeyOf(line, ByPerson), Brings(line, costs));
    }
    assert lines[..|lines|] == lines;
  }

  function MarginSum(buckets: seq<Bucket>): int {
    if buckets == [] then 0
    else (if Margin(buckets[0].figures).Some? then Margin(buckets[0].figures).value else 0) + MarginSum(buckets[1..])
  }

  predicate AllKnown(buckets: seq<Bucket>) {
    forall i :: 0 <= i < |buckets| ==> buckets[i].figures.hasRevenue && buckets[i].figures.hasCost
  }

  lemma {:induction false} KnownMarginsSum(buckets: seq<Bucket>)
    requires AllKnown(buckets)
    ensures MarginSum(buckets) == Total(buckets).revenue - Total(buckets).cost
    ensures buckets != [] ==> Total(buckets).hasRevenue && Total(buckets).hasCost
  {
    if buckets != [] { KnownMarginsSum(buckets[1..]); }
  }

  /** Where every part's margin is known, the parts' margins come to the account's, by role as by person. */
  lemma MarginsAgree(
    lines: seq<Line>, costs: seq<CostRate>, roles: seq<Bucket>, people: seq<Bucket>)
    requires Splits(roles, lines, costs, ByRole) && Splits(people, lines, costs, ByPerson)
    requires AllKnown(roles) && AllKnown(people) && roles != []
    ensures Margin(All(lines, costs)) == Some(MarginSum(roles)) == Some(MarginSum(people))
  {
    KnownMarginsSum(roles);
    KnownMarginsSum(people);
  }
  // ---- Figures from the lines alone ----------------------------------------------------------

  /** The line belongs in a bucket; a line without a role goes under "unknown". */
  predicate Belongs(line: Line, d: Dimension, key: string) {
    match d
    case ByClass => key == line.class_
    case ByContract => key == line.contract
    case ByRole => line.role == Some(key) || (line.role.None? && key == "unknown")
    case ByPerson => key == line.person
  }

  function Kept(lines: seq<Line>, d: Dimension, key: Option<string>): seq<Line> {
    if lines == [] then []
    else
      Kept(lines[..|lines| - 1], d, key)
      + if key.Some? ==> Belongs(lines[|lines| - 1], d, key.value) then [lines[|lines| - 1]] else []
  }

  /** What a person's minutes cost at the rate then in force. */
  predicate HasCost(line: Line, costs: seq<CostRate>) {
    exists i :: 0 <= i < |costs| && costs[i].person == line.person && costs[i].effectiveFrom <= line.performedOn
  }

  function Minutes(lines: seq<Line>): int {
    if lines == [] then 0 else Minutes(lines[..|lines| - 1]) + lines[|lines| - 1].minutes
  }

  function Revenue(lines: seq<Line>): int {
    if lines == [] then 0
    else
      var l := lines[|lines| - 1];
      Revenue(lines[..|lines| - 1]) + if l.rate.Some? then Amount(l.minutes, l.rate.value, l.multiplier) else 0
  }

  function Cost(lines: seq<Line>, costs: seq<CostRate>): int {
    if lines == [] then 0
    else
      var l := lines[|lines| - 1];
      Cost(lines[..|lines| - 1], costs)
      + if HasCost(l, costs) then (CostedMeans(l, costs); CostOf(l.minutes, CostFor(costs, l.person, l.performedOn).value.rate)) else 0
  }

  function Unrated(lines: seq<Line>): int {
    if lines == [] then 0
    else Unrated(lines[..|lines| - 1]) + if lines[|lines| - 1].rate.None? then lines[|lines| - 1].minutes else 0
  }

  function Uncosted(lines: seq<Line>, costs: seq<CostRate>): int {
    if lines == [] then 0
    else Uncosted(lines[..|lines| - 1], costs) + if HasCost(lines[|lines| - 1], costs) then 0 else lines[|lines| - 1].minutes
  }

  predicate AnyRated(lines: seq<Line>) { exists i :: 0 <= i < |lines| && lines[i].rate.Some? }

  predicate AnyCosted(lines: seq<Line>, costs: seq<CostRate>) {
    exists i :: 0 <= i < |lines| && HasCost(lines[i], costs)
  }

  lemma CostedMeans(line: Line, costs: seq<CostRate>)
    ensures HasCost(line, costs) <==> CostFor(costs, line.person, line.performedOn).Some?
  {
    CostInForce(costs, line.person, line.performedOn);
    if HasCost(line, costs) {
      var i :| 0 <= i < |costs| && costs[i].person == line.person && costs[i].effectiveFrom <= line.performedOn;
      assert costs[i] in costs;
    }
  }

  lemma AnyLast(lines: seq<Line>, last: Line, costs: seq<CostRate>)
    ensures AnyRated(lines + [last]) <==> AnyRated(lines) || last.rate.Some?
    ensures AnyCosted(lines + [last], costs) <==> AnyCosted(lines, costs) || HasCost(last, costs)
  {
    hide HasCost;
    var all := lines + [last];
    assert all[|lines|] == last;
    if AnyRated(lines) { var i :| 0 <= i < |lines| && lines[i].rate.Some?; assert all[i].rate.Some?; }
    if AnyCosted(lines, costs) { var i :| 0 <= i < |lines| && HasCost(lines[i], costs); assert HasCost(all[i], costs); }
  }

  /** The figures are the sums over the lines. */
  predicate Sums(f: Figures, lines: seq<Line>, costs: seq<CostRate>) {
    && f.minutes == Minutes(lines) && f.revenue == Revenue(lines) && f.cost == Cost(lines, costs)
    && f.unrated == Unrated(lines) && f.uncosted == Uncosted(lines, costs)
    && (f.hasRevenue <==> AnyRated(lines)) && (f.hasCost <==> AnyCosted(lines, costs))
  }

  lemma SumsNext(f: Figures, lines: seq<Line>, last: Line, costs: seq<CostRate>)
    requires Sums(f, lines, costs)
    ensures Sums(Plus(f, Brings(last, costs)), lines + [last], costs)
  {
    hide Amount, CostOf, HasCost, AnyRated, AnyCosted, CostFor;
    CostedMeans(last, costs);
    AnyLast(lines, last, costs);
    assert (lines + [last])[..|lines|] == lines;
  }

  /** A bucket, or the whole, is what its own lines come to. */
  lemma {:induction false} FiguredMeans(lines: seq<Line>, costs: seq<CostRate>, d: Dimension, key: Option<string>)
    ensures Sums(Figured(lines, costs, d, key), Kept(lines, d, key), costs)
  {
    hide Brings;
    if lines == [] {
      NothingAny(costs);
      hide AnyRated, AnyCosted;
    } else {
      var n := |lines| - 1;
      FiguredMeans(lines[..n], costs, d, key);
      hide Sums, Plus;
      var kept, last := Kept(lines[..n], d, key), lines[n];
      SumsNext(Figured(lines[..n], costs, d, key), kept, last, costs);
      KeyBelongs(last, d);
      assert kept + [] == kept;
    }
  }

  lemma KeyBelongs(line: Line, d: Dimension)
    ensures forall key :: Belongs(line, d, key) <==> KeyOf(line, d) == key
  {
  }

  lemma NothingAny(costs: seq<CostRate>)
    ensures !AnyRated([]) && !AnyCosted([], costs)
  {
  }
}

/** Keyset paging over the connector's poll query: the poller repeats it from the last record it was given. */
module Paging {
  // The encoded query is a choice of branches and a list of sort fields, evaluated by a filter
  // and one stable sort per field.

  import opened Wrappers

  type Record = map<string, string>

  datatype Operator = Gt | Lt | Ge | Le | Eq
  datatype Condition = Condition(or: bool, field: string, op: Operator, value: string)
  datatype Order = Order(field: string, desc: bool)
  datatype Query = Query(conditions: seq<Condition>, orders: seq<Order>)

  function Field(row: Record, field: string): string {
    if field in row then row[field] else ""
  }

  // ---- The order of field values -----------------------------------------------------

  /** Character by character, a prefix first. */
  predicate Less(a: string, b: string) {
    b != "" && (a == "" || a[0] < b[0] || (a[0] == b[0] && Less(a[1..], b[1..])))
  }

  lemma {:induction false} LessTotal(a: string, b: string)
    ensures Less(a, b) || a == b || Less(b, a)
    ensures !(Less(a, b) && Less(b, a)) && (a == b ==> !Less(a, b))
    decreases |a|
  {
    if a != "" && b != "" {
      LessTotal(a[1..], b[1..]);
      assert a == [a[0]] + a[1..] && b == [b[0]] + b[1..];
    }
  }

  lemma {:induction false} LessTransitive(a: string, b: string, c: string)
    requires Less(a, b) && Less(b, c)
    ensures Less(a, c)
    decreases |a|
  {
    if a != "" && b[0] == c[0] && a[0] == b[0] { LessTransitive(a[1..], b[1..], c[1..]); }
  }

  /** Up to `k` the two texts are alike, and there the first ends or has the smaller character. */
  predicate DifferAt(a: string, b: string, k: nat) {
    k <= |a| && k < |b| && a[..k] == b[..k] && (k == |a| || a[k] < b[k])
  }

  lemma {:induction false} LessMeans(a: string, b: string)
    ensures Less(a, b) <==> exists k :: 0 <= k <= |a| && DifferAt(a, b, k)
    decreases |a|
  {
    if a != "" && b != "" && a[0] == b[0] {
      LessMeans(a[1..], b[1..]);
      forall k | 0 <= k <= |a[1..]| ensures DifferAt(a[1..], b[1..], k) <==> DifferAt(a, b, k + 1) { Deeper(a, b, k); }
      assert !DifferAt(a, b, 0);
      forall k | 0 < k <= |a| && DifferAt(a, b, k) ensures DifferAt(a[1..], b[1..], k - 1) { Deeper(a, b, k - 1); }
    } else if b != "" && (a == "" || a[0] < b[0]) {
      assert DifferAt(a, b, 0);
    } else if b != "" {
      forall k | 0 <= k <= |a| ensures !DifferAt(a, b, k) { if k > 0 && k < |b| { assert a[..k][0] != b[..k][0]; } }
    }
  }

  lemma Deeper(a: string, b: string, k: nat)
    requires a != "" && b != "" && a[0] == b[0] && k <= |a| - 1
    ensures DifferAt(a[1..], b[1..], k) <==> DifferAt(a, b, k + 1)
  {
    if k + 1 <= |a| && k + 1 <= |b| {
      assert a[..k + 1] == [a[0]] + a[1..][..k] && b[..k + 1] == [b[0]] + b[1..][..k];
      if a[..k + 1] == b[..k + 1] { assert a[1..][..k] == a[..k + 1][1..] && b[1..][..k] == b[..k + 1][1..]; }
    }
  }

  // ---- Conditions ----------------------------------------------------------------------

  predicate Holds(row: Record, c: Condition) {
    var value := Field(row, c.field);
    match c.op
    case Gt => Less(c.value, value)
    case Lt => Less(value, c.value)
    case Ge => !Less(value, c.value)
    case Le => !Less(c.value, value)
    case Eq => value == c.value
  }

  /** A field that is absent compares as the empty text; at least and at most include being equal. */
  lemma HoldsMeans(row: Record, c: Condition)
    ensures var value := if c.field in row then row[c.field] else "";
            match c.op
            case Gt => Holds(row, c) <==> Less(c.value, value)
            case Lt => Holds(row, c) <==> Less(value, c.value)
            case Ge => Holds(row, c) <==> Less(c.value, value) || value == c.value
            case Le => Holds(row, c) <==> Less(value, c.value) || value == c.value
            case Eq => Holds(row, c) <==> value == c.value
  {
    LessTotal(if c.field in row then row[c.field] else "", c.value);
  }

  predicate AllHold(row: Record, branch: seq<Condition>) {
    forall i :: 0 <= i < |branch| ==> Holds(row, branch[i])
  }

  predicate SomeBranch(row: Record, branches: seq<seq<Condition>>) {
    exists i :: 0 <= i < |branches| && AllHold(row, branches[i])
  }

  /** The meaning of a condition list, read from its end: AND within a branch, OR between branches. */
  predicate Meets(row: Record, conditions: seq<Condition>, rest: bool)
    decreases |conditions|
  {
    if conditions == [] then rest
    else
      var init, last := conditions[..|conditions| - 1], conditions[|conditions| - 1];
      if last.or && init != [] then Meets(row, init, true) || (Holds(row, last) && rest)
      else Meets(row, init, Holds(row, last) && rest)
  }

  /** The branches the loop builds, as a function of the conditions. */
  function Branches(conditions: seq<Condition>): (branches: seq<seq<Condition>>)
    ensures branches == [] <==> conditions == []
  {
    if conditions == [] then []
    else
      var init, last := Branches(conditions[..|conditions| - 1]), conditions[|conditions| - 1];
      if last.or || init == [] then init + [[last]]
      else init[..|init| - 1] + [init[|init| - 1] + [last]]
  }

  /** Building branches keeps the meaning, with `rest` conjoined to the last branch. */
  lemma {:induction false} BranchesMean(row: Record, conditions: seq<Condition>, rest: bool)
    requires conditions != []
    ensures var b := Branches(conditions);
            Meets(row, conditions, rest)
            <==> SomeBranch(row, b[..|b| - 1]) || (AllHold(row, b[|b| - 1]) && rest)
    decreases |conditions|
  {
    hide Holds, SomeBranch, AllHold;
    var init, last := conditions[..|conditions| - 1], conditions[|conditions| - 1];
    var b, before := Branches(conditions), Branches(init);
    if init == [] {
      AllHoldOne(row, last);
      assert b == [[last]] && b[..0] == [];
      assert !SomeBranch(row, []) by { NoBranch(row); }
    } else if last.or {
      BranchesMean(row, init, true);
      AllHoldOne(row, last);
      assert b[..|b| - 1] == before;
      SomeBranchLast(row, before);
    } else {
      BranchesMean(row, init, Holds(row, last) && rest);
      assert b[..|b| - 1] == before[..|before| - 1];
      AllHoldLast(row, before[|before| - 1], last);
    }
  }

  lemma NoBranch(row: Record)
    ensures !SomeBranch(row, [])
  {}

  lemma SomeBranchLast(row: Record, branches: seq<seq<Condition>>)
    requires branches != []
    ensures SomeBranch(row, branches)
            <==> SomeBranch(row, branches[..|branches| - 1]) || AllHold(row, branches[|branches| - 1])
  {
    var init := branches[..|branches| - 1];
    if SomeBranch(row, branches) {
      var i :| 0 <= i < |branches| && AllHold(row, branches[i]);
      if i < |init| { assert AllHold(row, init[i]); }
    }
    if SomeBranch(row, init) {
      var i :| 0 <= i < |init| && AllHold(row, init[i]);
      assert AllHold(row, branches[i]);
    }
  }

  lemma AllHoldLast(row: Record, branch: seq<Condition>, last: Condition)
    ensures AllHold(row, branch + [last]) <==> AllHold(row, branch) && Holds(row, last)
  {
    var all := branch + [last];
    if AllHold(row, all) {
      assert Holds(row, all[|branch|]);
      forall i | 0 <= i < |branch| ensures Holds(row, branch[i]) { assert Holds(row, all[i]); }
    }
    if AllHold(row, branch) && Holds(row, last) {
      forall i | 0 <= i < |all| ensures Holds(row, all[i]) {
        if i < |branch| { assert Holds(row, branch[i]); }
      }
    }
  }

  lemma AllHoldOne(row: Record, c: Condition)
    ensures AllHold(row, [c]) <==> Holds(row, c)
  {
    assert AllHold(row, [c]) ==> Holds(row, [c][0]);
  }

  /** No condition at all lets every row through. */
  predicate Selected(row: Record, conditions: seq<Condition>) {
    conditions == [] || Meets(row, conditions, true)
  }

  function Filter(rows: seq<Record>, conditions: seq<Condition>): seq<Record> {
    if rows == [] then []
    else
      Filter(rows[..|rows| - 1], conditions)
      + if Selected(rows[|rows| - 1], conditions) then [rows[|rows| - 1]] else []
  }

  // ---- Sorting -----------------------------------------------------------------------------

  /** `a` strictly before `b` on one sort field. */
  predicate Before(o: Order, a: Record, b: Record) {
    if o.desc then Less(Field(b, o.field), Field(a, o.field)) else Less(Field(a, o.field), Field(b, o.field))
  }

  /** A field is compared as it is, or the other way round where the order is descending. */
  lemma BeforeMeans(field: string, a: Record, b: Record)
    ensures Before(Order(field, false), a, b) <==> Less(Field(a, field), Field(b, field))
    ensures Before(Order(field, true), a, b) <==> Before(Order(field, false), b, a)
  {
  }

  /** Not after, comparing the fields in turn. */
  predicate NotAfter(orders: seq<Order>, a: Record, b: Record) {
    orders != [] ==> Before(orders[0], a, b) || (!Before(orders[0], b, a) && NotAfter(orders[1..], a, b))
  }

  predicate FirstOf(orders: seq<Order>, row: Record, rows: seq<Record>) {
    forall x :: x in rows ==> NotAfter(orders, row, x)
  }

  predicate SortedBy(orders: seq<Order>, rows: seq<Record>) {
    rows != [] ==> FirstOf(orders, rows[0], rows[1..]) && SortedBy(orders, rows[1..])
  }

  function InsertRow(o: Order, row: Record, rows: seq<Record>): seq<Record> {
    if rows == [] || !Before(o, rows[0], row) then [row] + rows else [rows[0]] + InsertRow(o, row, rows[1..])
  }

  /** The library's stable sort on one field. */
  function StableSort(o: Order, rows: seq<Record>): seq<Record> {
    if rows == [] then [] else InsertRow(o, rows[0], StableSort(o, rows[1..]))
  }

  lemma BeforeOrder(o: Order, a: Record, b: Record, c: Record)
    ensures !(Before(o, a, b) && Before(o, b, a))
    ensures Before(o, a, b) && !Before(o, c, b) ==> Before(o, a, c)
  {
    var x, y, z := Field(a, o.field), Field(b, o.field), Field(c, o.field);
    LessTotal(x, y);
    LessTotal(y, z);
    if Less(x, y) && Less(y, z) { LessTransitive(x, y, z); }
    if Less(z, y) && Less(y, x) { LessTransitive(z, y, x); }
  }

  lemma NotAfterHead(o: Order, orders: seq<Order>, a: Record, b: Record)
    ensures NotAfter([o] + orders, a, b) <==> !Before(o, b, a) && (Before(o, a, b) || NotAfter(orders, a, b))
  {
    assert ([o] + orders)[1..] == orders;
    BeforeOrder(o, a, b, a);
  }

  lemma SortedCons(orders: seq<Order>, row: Record, rows: seq<Record>)
    ensures SortedBy(orders, [row] + rows) <==> FirstOf(orders, row, rows) && SortedBy(orders, rows)
  {
    assert ([row] + rows)[1..] == rows;
  }

  lemma {:induction false} InsertRowMembers(o: Order, row: Record, rows: seq<Record>)
    ensures multiset(InsertRow(o, row, rows)) == multiset(rows) + multiset{row}
    ensures forall x :: x in InsertRow(o, row, rows) <==> x == row || x in rows
  {
    if rows != [] {
      InsertRowMembers(o, row, rows[1..]);
      assert rows == [rows[0]] + rows[1..];
    }
  }

  /** In front of equal keys: the row comes first by the other fields too. */
  lemma InsertFront(o: Order, orders: seq<Order>, row: Record, rows: seq<Record>)
    requires rows != [] && SortedBy([o] + orders, rows) && FirstOf(orders, row, rows)
    requires !Before(o, rows[0], row)
    ensures FirstOf([o] + orders, row, rows)
  {
    forall x | x in rows ensures NotAfter([o] + orders, row, x) {
      assert rows == [rows[0]] + rows[1..];
      if x != rows[0] {
        assert x in rows[1..] && NotAfter([o] + orders, rows[0], x);
        NotAfterHead(o, orders, rows[0], x);
        BeforeOrder(o, x, row, rows[0]);
      }
      NotAfterHead(o, orders, row, x);
    }
  }

  lemma {:induction false} InsertSorted(o: Order, orders: seq<Order>, row: Record, rows: seq<Record>)
    requires SortedBy([o] + orders, rows) && FirstOf(orders, row, rows)
    ensures SortedBy([o] + orders, InsertRow(o, row, rows))
    decreases |rows|
  {
    hide NotAfter, Before;
    var all := [o] + orders;
    SortedCons(all, row, rows);
    if rows != [] {
      var rest := rows[1..];
      assert rows == [rows[0]] + rest;
      if Before(o, rows[0], row) {
        InsertSorted(o, orders, row, rest);
        InsertRowMembers(o, row, rest);
        SortedCons(all, rows[0], InsertRow(o, row, rest));
        assert NotAfter(all, rows[0], row) by {
          BeforeOrder(o, rows[0], row, row);
          NotAfterHead(o, orders, rows[0], row);
        }
      } else {
        InsertFront(o, orders, row, rows);
      }
    }
  }

  /** A stable sort on a more significant field on top of a sort by the rest. */
  lemma {:induction false} StableSortRefines(o: Order, orders: seq<Order>, rows: seq<Record>)
    requires SortedBy(orders, rows)
    ensures SortedBy([o] + orders, StableSort(o, rows))
    ensures multiset(StableSort(o, rows)) == multiset(rows)
    ensures forall x :: x in StableSort(o, rows) <==> x in rows
    decreases |rows|
  {
    hide NotAfter, Before, InsertRow;
    if rows != [] {
      var rest := rows[1..];
      StableSortRefines(o, orders, rest);
      InsertSorted(o, orders, rows[0], StableSort(o, rest));
      InsertRowMembers(o, rows[0], StableSort(o, rest));
      assert rows == [rows[0]] + rest;
    }
  }

  lemma {:induction false} SortedByNothing(rows: seq<Record>)
    ensures SortedBy([], rows)
  {
    if rows != [] { SortedByNothing(rows[1..]); }
  }

  /** One stable sort per field, the least significant first. */
  function SortAll(orders: seq<Order>, rows: seq<Record>): seq<Record> {
    if orders == [] then rows else StableSort(orders[0], SortAll(orders[1..], rows))
  }

  /** The sorts together order the rows by all the fields at once. */
  lemma {:induction false} SortAllSorts(orders: seq<Order>, rows: seq<Record>)
    ensures SortedBy(orders, SortAll(orders, rows))
    ensures multiset(SortAll(orders, rows)) == multiset(rows)
    ensures forall x :: x in SortAll(orders, rows) <==> x in rows
  {
    if orders == [] {
      SortedByNothing(rows);
    } else {
      SortAllSorts(orders[1..], rows);
      StableSortRefines(orders[0], orders[1..], SortAll(orders[1..], rows));
      assert orders == [orders[0]] + orders[1..];
    }
  }

  // ---- applyQuery ----------------------------------------------------------------------------

  function Answer(rows: seq<Record>, query: Query): seq<Record> {
    SortAll(query.orders, Filter(rows, query.conditions))
  }

  method ApplyQuery(rows: seq<Record>, query: Query) returns (result: seq<Record>)
    ensures result == Answer(rows, query)
    ensures multiset(result) == multiset(Filter(rows, query.conditions)) && SortedBy(query.orders, result)
  {
    var branches := BranchList(query.conditions);
    if |branches| == 0 {
      AllSelected(rows);
      result := rows;
    } else {
      result := KeepRows(rows, query.conditions, branches);
    }
    hide StableSort, SortedBy, Filter, Branches;
    ghost var kept := result;
    assert query.orders[|query.orders|..] == [];
    var k := |query.orders|;
    while k > 0
      invariant 0 <= k <= |query.orders| && result == SortAll(query.orders[k..], kept)
    {
      k := k - 1;
      assert query.orders[k..][1..] == query.orders[k + 1..];
      result := StableSort(query.orders[k], result);
    }
    assert query.orders[0..] == query.orders;
    SortAllSorts(query.orders, kept);
  }

  method BranchList(conditions: seq<Condition>) returns (branches: seq<seq<Condition>>)
    ensures branches == Branches(conditions)
  {
    branches := [];
    for i := 0 to |conditions|
      invariant branches == Branches(conditions[..i])
    {
      var group := conditions[i];
      assert conditions[..i + 1][..i] == conditions[..i];
      if group.or || |branches| == 0 {
        branches := branches + [[group]];
      } else {
        branches := branches[..|branches| - 1] + [branches[|branches| - 1] + [group]];
      }
    }
    assert conditions[..|conditions|] == conditions;
  }

  method KeepRows(rows: seq<Record>, ghost conditions: seq<Condition>, branches: seq<seq<Condition>>)
    returns (kept: seq<Record>)
    requires conditions != [] && branches == Branches(conditions)
    ensures kept == Filter(rows, conditions)
  {
    kept := [];
    for i := 0 to |rows|
      invariant kept == Filter(rows[..i], conditions)
    {
      assert rows[..i + 1][..i] == rows[..i];
      BranchesMean(rows[i], conditions, true);
      SomeBranchLast(rows[i], branches);
      if SomeBranch(rows[i], branches) { kept := kept + [rows[i]]; }
    }
    assert rows[..|rows|] == rows;
  }

  lemma {:induction false} AllSelected(rows: seq<Record>)
    ensures Filter(rows, []) == rows
  {
    if rows != [] {
      AllSelected(rows[..|rows| - 1]);
      assert rows == rows[..|rows| - 1] + [rows[|rows| - 1]];
    }
  }

  // ---- The poller's query --------------------------------------------------------------------

  const UPDATED := "sys_updated_on"
  const ID := "sys_id"

  /** The last record taken in; no id before the first one. */
  datatype Watermark = Watermark(stamp: string, id: Option<string>)

  function ChangedSince(w: Watermark): Query {
    var later := Condition(false, UPDATED, Gt, w.stamp);
    var orders := [Order(UPDATED, false), Order(ID, false)];
    if w.id.Some? && w.id.value != "" then
      Query([later, Condition(true, UPDATED, Eq, w.stamp), Condition(false, ID, Gt, w.id.value)], orders)
    else Query([later], orders)
  }

  /** A record past the watermark in (sys_updated_on, sys_id) order. */
  predicate Past(w: Watermark, row: Record) {
    || Less(w.stamp, Field(row, "sys_updated_on"))
    || (w.stamp == Field(row, "sys_updated_on") && w.id.Some? && w.id.value != "" && Less(w.id.value, Field(row, "sys_id")))
  }

  lemma ChangedSinceSelects(w: Watermark, row: Record)
    ensures Selected(row, ChangedSince(w).conditions) <==> Past(w, row)
  {
    var q := ChangedSince(w).conditions;
    if |q| == 3 {
      assert q[..2] == [q[0], q[1]] && q[..2][..1] == [q[0]] && [q[0]][..0] == [];
      assert Meets(row, [], Holds(row, q[0])) == Holds(row, q[0]);
      assert Meets(row, [q[0]], true) == Holds(row, q[0]);
      assert Meets(row, q[..2], Holds(row, q[2])) == (Holds(row, q[0]) || (Holds(row, q[1]) && Holds(row, q[2])));
    } else {
      assert q[..0] == [] && Meets(row, [], Holds(row, q[0])) == Holds(row, q[0]);
    }
  }

  lemma {:induction false} FilterMembers(rows: seq<Record>, conditions: seq<Condition>)
    ensures forall x :: x in Filter(rows, conditions) <==> x in rows && Selected(x, conditions)
  {
    if rows != [] {
      FilterMembers(rows[..|rows| - 1], conditions);
      assert rows == rows[..|rows| - 1] + [rows[|rows| - 1]];
    }
  }

  // ---- One strictly ascending answer -----------------------------------------------------------

  predicate KeyLess(a: Record, b: Record) {
    || Less(Field(a, "sys_updated_on"), Field(b, "sys_updated_on"))
    || (Field(a, "sys_updated_on") == Field(b, "sys_updated_on") && Less(Field(a, "sys_id"), Field(b, "sys_id")))
  }

  predicate KeyFirst(row: Record, rows: seq<Record>) {
    forall x :: x in rows ==> KeyLess(row, x)
  }

  predicate Ascending(rows: seq<Record>) {
    rows != [] ==> KeyFirst(rows[0], rows[1..]) && Ascending(rows[1..])
  }

  /** A table: every record has an id of its own. */
  predicate Table(rows: seq<Record>) {
    && (forall i :: 0 <= i < |rows| ==> Field(rows[i], ID) != "")
    && (forall i, j :: 0 <= i < j < |rows| ==> Field(rows[i], ID) != Field(rows[j], ID))
  }

  predicate OwnId(row: Record, rows: seq<Record>) {
    forall x :: x in rows ==> Field(x, ID) != Field(row, ID)
  }

  predicate OwnIds(rows: seq<Record>) {
    rows != [] ==> OwnId(rows[0], rows[1..]) && OwnIds(rows[1..])
  }

  lemma KeyLessTransitive(a: Record, b: Record, c: Record)
    requires KeyLess(a, b) && KeyLess(b, c)
    ensures KeyLess(a, c) && !KeyLess(b, a)
  {
    var x, y, z := Field(a, UPDATED), Field(b, UPDATED), Field(c, UPDATED);
    LessTotal(x, y);
    LessTotal(Field(a, ID), Field(b, ID));
    if Less(x, y) && Less(y, z) { LessTransitive(x, y, z); }
    if x == y == z { LessTransitive(Field(a, ID), Field(b, ID), Field(c, ID)); }
  }

  lemma NotAfterIsKeyLess(a: Record, b: Record)
    requires NotAfter([Order(UPDATED, false), Order(ID, false)], a, b) && Field(a, ID) != Field(b, ID)
    ensures KeyLess(a, b)
  {
    var orders := [Order(UPDATED, false), Order(ID, false)];
    assert orders[1..] == [Order(ID, false)] && orders[1..][1..] == [];
    LessTotal(Field(a, UPDATED), Field(b, UPDATED));
    LessTotal(Field(a, ID), Field(b, ID));
  }

  lemma {:induction false} SortedAscends(rows: seq<Record>)
    requires SortedBy([Order(UPDATED, false), Order(ID, false)], rows) && OwnIds(rows)
    ensures Ascending(rows)
  {
    hide NotAfter, KeyLess;
    if rows != [] {
      SortedAscends(rows[1..]);
      forall x | x in rows[1..] ensures KeyLess(rows[0], x) { NotAfterIsKeyLess(rows[0], x); }
    }
  }

  lemma OwnIdsCons(row: Record, rows: seq<Record>)
    ensures OwnIds([row] + rows) <==> OwnId(row, rows) && OwnIds(rows)
  {
    assert ([row] + rows)[1..] == rows;
  }

  lemma {:induction false} OwnIdsLast(rows: seq<Record>, row: Record)
    ensures OwnIds(rows + [row]) <==> OwnIds(rows) && OwnId(row, rows)
  {
    if rows == [] {
      assert rows + [row] == [row] + rows;
      OwnIdsCons(row, rows);
    } else {
      var rest := rows[1..];
      assert rows == [rows[0]] + rest && rows + [row] == [rows[0]] + (rest + [row]);
      OwnIdsLast(rest, row);
      OwnIdsCons(rows[0], rest + [row]);
      assert row in rest + [row] && forall x :: x in rest + [row] <==> x in rest || x == row;
      assert OwnId(rows[0], rest + [row]) <==> OwnId(rows[0], rest) && Field(row, ID) != Field(rows[0], ID);
    }
  }

  lemma {:induction false} TableOwnIds(rows: seq<Record>)
    requires Table(rows)
    ensures OwnIds(rows)
  {
    if rows != [] {
      assert forall i :: 0 <= i < |rows[1..]| ==> rows[1..][i] == rows[i + 1];
      TableOwnIds(rows[1..]);
    }
  }

  lemma {:induction false} FilterOwnIds(rows: seq<Record>, conditions: seq<Condition>)
    requires OwnIds(rows)
    ensures OwnIds(Filter(rows, conditions))
  {
    if rows != [] {
      var init, last := rows[..|rows| - 1], rows[|rows| - 1];
      assert rows == init + [last];
      OwnIdsLast(init, last);
      FilterOwnIds(init, conditions);
      FilterMembers(init, conditions);
      OwnIdsLast(Filter(init, conditions), last);
      assert Filter(init, conditions) + [] == Filter(init, conditions);
    }
  }

  lemma {:induction false} InsertOwnIds(o: Order, row: Record, rows: seq<Record>)
    ensures OwnIds(InsertRow(o, row, rows)) <==> OwnIds(rows) && OwnId(row, rows)
  {
    OwnIdsCons(row, rows);
    if rows != [] {
      var rest := rows[1..];
      assert rows == [rows[0]] + rest;
      InsertOwnIds(o, row, rest);
      InsertRowMembers(o, row, rest);
      OwnIdsCons(rows[0], InsertRow(o, row, rest));
      assert row in InsertRow(o, row, rest);
      assert OwnId(rows[0], InsertRow(o, row, rest)) <==> OwnId(rows[0], rest) && Field(row, ID) != Field(rows[0], ID);
    }
  }

  lemma {:induction false} SortOwnIds(o: Order, rows: seq<Record>)
    ensures OwnIds(StableSort(o, rows)) <==> OwnIds(rows)
    ensures forall x :: x in StableSort(o, rows) <==> x in rows
  {
    if rows != [] {
      SortOwnIds(o, rows[1..]);
      InsertOwnIds(o, rows[0], StableSort(o, rows[1..]));
      InsertRowMembers(o, rows[0], StableSort(o, rows[1..]));
      assert rows == [rows[0]] + rows[1..];
    }
  }

  lemma TwoSorts(orders: seq<Order>, rows: seq<Record>)
    requires |orders| == 2
    ensures SortAll(orders, rows) == StableSort(orders[0], StableSort(orders[1], rows))
  {
    hide StableSort;
    var last := orders[1..];
    assert last[0] == orders[1] && last[1..] == [];
    assert SortAll([], rows) == rows;
    assert SortAll(last, rows) == StableSort(orders[1], SortAll(last[1..], rows));
  }

  /** The poll's answer: exactly the records past the watermark, in strictly ascending key order. */
  lemma AnswerAscends(rows: seq<Record>, w: Watermark)
    requires Table(rows)
    ensures Ascending(Answer(rows, ChangedSince(w)))
    ensures forall x :: x in Answer(rows, ChangedSince(w)) <==> x in rows && Past(w, x)
  {
    var q := ChangedSince(w);
    var kept := Filter(rows, q.conditions);
    FilterMembers(rows, q.conditions);
    forall x ensures Selected(x, q.conditions) <==> Past(w, x) { ChangedSinceSelects(w, x); }
    SortAllSorts(q.orders, kept);
    TableOwnIds(rows);
    FilterOwnIds(rows, q.conditions);
    var byId := StableSort(q.orders[1], kept);
    TwoSorts(q.orders, kept);
    SortOwnIds(q.orders[1], kept);
    SortOwnIds(q.orders[0], byId);
    SortedAscends(SortAll(q.orders, kept));
  }

  lemma EmptyTogether(s: seq<Record>, t: seq<Record>)
    requires forall x :: x in s <==> x in t
    ensures s == [] <==> t == []
  {
    if s != [] { assert s[0] in s; }
    if t != [] { assert t[0] in t; }
  }

  lemma {:induction false} AscendingUnique(s: seq<Record>, t: seq<Record>)
    requires Ascending(s) && Ascending(t) && forall x :: x in s <==> x in t
    ensures s == t
    decreases |s|
  {
    hide KeyLess;
    EmptyTogether(s, t);
    if s != [] {
      var s', t' := s[1..], t[1..];
      assert s == [s[0]] + s' && t == [t[0]] + t';
      assert s[0] in t && t[0] in s;
      NeverBeforeItself(s[0]);
      KeyLessAsymmetric(s[0], t[0]);
      assert s[0] == t[0];
      forall x ensures x in s' <==> x in t' {
        assert x in s' ==> x in t && x != s[0];
        assert x in t' ==> x in s && x != t[0];
      }
      AscendingUnique(s', t');
    }
  }

  lemma KeyLessAsymmetric(a: Record, b: Record)
    ensures !(KeyLess(a, b) && KeyLess(b, a))
  {
    LessTotal(Field(a, UPDATED), Field(b, UPDATED));
    LessTotal(Field(a, ID), Field(b, ID));
  }

  lemma NeverBeforeItself(a: Record)
    ensures !KeyLess(a, a)
  {
    LessTotal(Field(a, UPDATED), Field(a, UPDATED));
    LessTotal(Field(a, ID), Field(a, ID));
  }

  // ---- Page after page -------------------------------------------------------------------------

  function Min(a: nat, b: nat): nat { if a <= b then a else b }

  function Page(rows: seq<Record>, w: Watermark, limit: nat): seq<Record> {
    var all := Answer(rows, ChangedSince(w));
    all[..Min(limit, |all|)]
  }

  /** The watermark moves to the last record of the page, if there is one. */
  function Advance(w: Watermark, page: seq<Record>): Watermark {
    if page == [] then w
    else Watermark(Field(page[|page| - 1], UPDATED), Some(Field(page[|page| - 1], ID)))
  }

  /** What `polls` polls of an unchanging table take in, one page after another. */
  function Polled(rows: seq<Record>, w: Watermark, limit: nat, polls: nat): seq<Record>
    decreases polls
  {
    if polls == 0 then []
    else
      var page := Page(rows, w, limit);
      page + Polled(rows, Advance(w, page), limit, polls - 1)
  }

  lemma {:induction false} AscendingSplit(rows: seq<Record>, n: nat)
    requires Ascending(rows) && n <= |rows|
    ensures Ascending(rows[..n]) && Ascending(rows[n..])
    ensures forall x, y :: x in rows[..n] && y in rows[n..] ==> KeyLess(x, y)
  {
    hide KeyLess;
    if n > 0 {
      AscendingSplit(rows[1..], n - 1);
      assert rows[..n][1..] == rows[1..][..n - 1] && rows[n..] == rows[1..][n - 1..];
      assert rows[..n] == [rows[0]] + rows[1..][..n - 1];
      assert forall x :: x in rows[1..][..n - 1] ==> x in rows[1..];
      assert forall x :: x in rows[n..] ==> x in rows[1..];
    }
  }

  /** The records past the advanced watermark are those of the old one that the page left. */
  lemma AdvancedAnswer(rows: seq<Record>, w: Watermark, limit: nat)
    requires Table(rows) && limit >= 1
    ensures var all, page := Answer(rows, ChangedSince(w)), Page(rows, w, limit);
            Answer(rows, ChangedSince(Advance(w, page))) == all[|page|..]
  {
    var all, page := Answer(rows, ChangedSince(w)), Page(rows, w, limit);
    var w' := Advance(w, page);
    AnswerAscends(rows, w);
    if page == [] {
      assert all == [] && all[|page|..] == all;
    } else {
      var last := page[|page| - 1];
      AscendingSplit(all, |page|);
      AnswerAscends(rows, w');
      assert last in page && last in all && last in rows && page == all[..|page|];
      AscendingSplit(all, |page| - 1);
      assert all[|page| - 1..][1..] == all[|page|..] && all[|page| - 1] == last;
      forall x ensures x in Answer(rows, ChangedSince(w')) <==> x in all[|page|..] {
        assert Past(w', x) <==> KeyLess(last, x);
        assert all == all[..|page| - 1] + [last] + all[|page|..];
        if x in rows && KeyLess(last, x) {
          PastGrows(w, last, x);
          assert x in all;
          NeverBeforeItself(last);
          if x in all[..|page| - 1] {
            assert KeyLess(x, last);
            KeyLessTransitive(x, last, x);
            NeverBeforeItself(x);
          }
        }
      }
      AscendingUnique(Answer(rows, ChangedSince(w')), all[|page|..]);
    }
  }

  lemma PastGrows(w: Watermark, a: Record, b: Record)
    requires Past(w, a) && KeyLess(a, b)
    ensures Past(w, b)
  {
    var x, y, z := w.stamp, Field(a, UPDATED), Field(b, UPDATED);
    LessTotal(x, y);
    LessTotal(y, z);
    if Less(x, y) && Less(y, z) { LessTransitive(x, y, z); }
    if x == y == z { LessTransitive(w.id.value, Field(a, ID), Field(b, ID)); }
  }

  /** The pages in a row are the sorted answer from its start, nothing skipped and nothing twice. */
  lemma {:induction false} PagesInARow(rows: seq<Record>, w: Watermark, limit: nat, polls: nat)
    requires Table(rows) && limit >= 1
    ensures var all := Answer(rows, ChangedSince(w));
            Polled(rows, w, limit, polls) == all[..Min(polls * limit, |all|)]
    decreases polls
  {
    hide Answer, Advance;
    var all := Answer(rows, ChangedSince(w));
    if polls > 0 {
      var page := Page(rows, w, limit);
      AdvancedAnswer(rows, w, limit);
      PagesInARow(rows, Advance(w, page), limit, polls - 1);
      assert polls * limit == limit + (polls - 1) * limit;
      TakeTwice(all, limit, (polls - 1) * limit);
    }
  }

  lemma TakeTwice(all: seq<Record>, m: nat, n: nat)
    ensures var rest := all[Min(m, |all|)..];
            all[..Min(m, |all|)] + rest[..Min(n, |rest|)] == all[..Min(m + n, |all|)]
  {}

  /** Polled to the end: a record is taken in exactly when it lay past the watermark, once, in key order. */
  lemma PollingIsComplete(rows: seq<Record>, w: Watermark, limit: nat, polls: nat)
    requires Table(rows) && limit >= 1 && polls * limit >= |rows|
    ensures Ascending(Polled(rows, w, limit, polls))
    ensures forall x :: x in Polled(rows, w, limit, polls) <==> x in rows && Past(w, x)
  {
    AnswerAscends(rows, w);
    PagesInARow(rows, w, limit, polls);
    var q := ChangedSince(w);
    SortAllSorts(q.orders, Filter(rows, q.conditions));
    FilterLength(rows, q.conditions);
    assert |multiset(Answer(rows, q))| == |Answer(rows, q)|;
    assert |multiset(Filter(rows, q.conditions))| == |Filter(rows, q.conditions)|;
    assert Answer(rows, q)[..|Answer(rows, q)|] == Answer(rows, q);
  }

  lemma {:induction false} FilterLength(rows: seq<Record>, conditions: seq<Condition>)
    ensures |Filter(rows, conditions)| <= |rows|
  {
    if rows != [] { FilterLength(rows[..|rows| - 1], conditions); }
  }

  /** A poll leaves everything it did not take past the watermark, whatever the table held before. */
  lemma NothingIsSkipped(rows: seq<Record>, w: Watermark, limit: nat, x: Record)
    requires Table(rows) && limit >= 1 && x in rows && Past(w, x)
    ensures x in Page(rows, w, limit) || Past(Advance(w, Page(rows, w, limit)), x)
  {
    hide Answer, Advance, Past, Table;
    var all, page := Answer(rows, ChangedSince(w)), Page(rows, w, limit);
    AnswerAscends(rows, w);
    AdvancedAnswer(rows, w, limit);
    AnswerAscends(rows, Advance(w, page));
    assert all == page + all[|page|..];
  }

  /** A record stamped again is seen exactly when its new key is past the watermark: always in a later second. */
  lemma RestampSeenExactlyWhen(rows: seq<Record>, w: Watermark, limit: nat, polls: nat, x: Record)
    requires Table(rows) && limit >= 1 && polls * limit >= |rows| && x in rows
    ensures Less(w.stamp, Field(x, UPDATED)) ==> x in Polled(rows, w, limit, polls)
    ensures w.stamp == Field(x, UPDATED) ==>
              (x in Polled(rows, w, limit, polls) <==> w.id.Some? && w.id.value != "" && Less(w.id.value, Field(x, ID)))
  {
    PollingIsComplete(rows, w, limit, polls);
    LessTotal(w.stamp, Field(x, UPDATED));
  }
}

/**
 * Building a calendar from an editor's entries, and the editor's validation: what it
 * accepts is exactly what makes the built calendar orderly, and building loses no minute.
 */
module CalendarSetup {
  import opened Wrappers
  import opened Calendars

  datatype Problem =
    | NoEntries
    | BadWeekday(index: nat)
    | BadStart(index: nat)
    | BadEnd(index: nat)
    | EndNotAfterStart(index: nat)
    | Overlap(weekday: int)

  // ---- What an acceptable list of entries is -----------------------------------

  predicate InRange(h: Hours) {
    0 <= h.weekday <= 6 && 0 <= h.startMinute < h.endMinute <= DAY
  }

  predicate AllInRange(list: seq<Hours>) {
    forall x :: x in list ==> InRange(x)
  }

  predicate Apart(a: Hours, b: Hours) {
    a.endMinute <= b.startMinute || b.endMinute <= a.startMinute
  }

  predicate ApartFrom(h: Hours, list: seq<Hours>) {
    forall x :: x in list ==> Apart(h, x)
  }

  /** No two of the intervals overlap. */
  predicate AllApart(list: seq<Hours>) {
    list != [] ==> ApartFrom(list[0], list[1..]) && AllApart(list[1..])
  }

  /** The entries of one weekday, in the order given. */
  function Group(hours: seq<Hours>, weekday: int): seq<Hours> {
    if hours == [] then []
    else Group(hours[..|hours| - 1], weekday)
         + (if hours[|hours| - 1].weekday == weekday then [hours[|hours| - 1]] else [])
  }

  function ListAt(lists: map<int, seq<Hours>>, weekday: int): seq<Hours> {
    if weekday in lists then lists[weekday] else []
  }

  ghost predicate Grouped(lists: map<int, seq<Hours>>, hours: seq<Hours>) {
    forall w :: ListAt(lists, w) == Group(hours, w)
  }

  lemma GroupedStep(lists: map<int, seq<Hours>>, hours: seq<Hours>, h: Hours)
    requires Grouped(lists, hours)
    ensures Grouped(lists[h.weekday := ListAt(lists, h.weekday) + [h]], hours + [h])
  {
    forall w ensures ListAt(lists[h.weekday := ListAt(lists, h.weekday) + [h]], w) == Group(hours + [h], w) {
      assert (hours + [h])[..|hours|] == hours;
      assert ListAt(lists, w) == Group(hours, w);
    }
  }

  /** The weekdays seen so far, as the map's insertion order keeps them. */
  ghost predicate Listed(lists: map<int, seq<Hours>>, days: seq<int>) {
    forall w :: w in lists <==> w in days
  }

  lemma ListedStep(lists: map<int, seq<Hours>>, days: seq<int>, h: Hours)
    requires Listed(lists, days)
    ensures Listed(lists[h.weekday := ListAt(lists, h.weekday) + [h]],
                   if h.weekday in lists then days else days + [h.weekday])
  {}

  lemma RangeStep(hours: seq<Hours>, n: nat)
    requires n < |hours|
    ensures hours[..n + 1] == hours[..n] + [hours[n]]
    ensures AllInRange(hours[..n + 1]) <==> AllInRange(hours[..n]) && InRange(hours[n])
  {
    assert forall x :: x in hours[..n + 1] <==> x in hours[..n] || x == hours[n];
  }

  lemma KeptStep(hours: seq<Hours>, n: nat)
    requires n < |hours|
    ensures hours[..n + 1] == hours[..n] + [hours[n]]
    ensures Kept(hours[..n + 1]) == if hours[n].endMinute <= hours[n].startMinute then Kept(hours[..n])
                                    else Kept(hours[..n]) + [hours[n]]
  {
    assert hours[..n + 1][..n] == hours[..n];
  }

  ghost predicate NoOverlaps(hours: seq<Hours>) {
    forall w :: AllApart(Group(hours, w))
  }

  ghost predicate ValidHours(hours: seq<Hours>) {
    && hours != []
    && AllInRange(hours)
    && NoOverlaps(hours)
  }

  // ---- Sorting one weekday ------------------------------------------------------

  function Insert(h: Hours, list: seq<Hours>): seq<Hours> {
    if list == [] then [h]
    else if h.startMinute < list[0].startMinute then [h] + list
    else [list[0]] + Insert(h, list[1..])
  }

  /** The library's stable sort on the start minute. */
  function SortByStart(list: seq<Hours>): seq<Hours> {
    if list == [] then [] else Insert(list[|list| - 1], SortByStart(list[..|list| - 1]))
  }

  predicate StartsBefore(h: Hours, list: seq<Hours>) {
    forall x :: x in list ==> h.startMinute <= x.startMinute
  }

  predicate Sorted(list: seq<Hours>) {
    list != [] ==> StartsBefore(list[0], list[1..]) && Sorted(list[1..])
  }

  lemma Cons(h: Hours, list: seq<Hours>)
    ensures AllApart([h] + list) <==> ApartFrom(h, list) && AllApart(list)
    ensures Sorted([h] + list) <==> StartsBefore(h, list) && Sorted(list)
    ensures forall g :: ApartFrom(g, [h] + list) <==> Apart(g, h) && ApartFrom(g, list)
  {
    assert ([h] + list)[1..] == list;
    assert forall x :: x in [h] + list <==> x == h || x in list;
  }

  lemma {:induction false} InsertKeeps(h: Hours, list: seq<Hours>)
    ensures forall x :: x in Insert(h, list) <==> x == h || x in list
    ensures Sorted(list) ==> Sorted(Insert(h, list))
    ensures AllApart(Insert(h, list)) <==> AllApart(list) && ApartFrom(h, list)
  {
    if list == [] {
      assert Insert(h, list) == [h] + list;
      Cons(h, list);
    } else {
      var rest := list[1..];
      assert list == [list[0]] + rest;
      Cons(list[0], rest);
      Cons(h, list);
      InsertKeeps(h, rest);
      Cons(list[0], Insert(h, rest));
      assert h in Insert(h, rest);
      assert ApartFrom(list[0], Insert(h, rest)) <==> Apart(list[0], h) && ApartFrom(list[0], rest);
    }
  }

  lemma {:induction false} ApartLast(list: seq<Hours>, h: Hours)
    ensures AllApart(list + [h]) <==> AllApart(list) && ApartFrom(h, list)
  {
    if list == [] {
      assert list + [h] == [h] + list;
      Cons(h, list);
    } else {
      var rest := list[1..];
      assert list == [list[0]] + rest && list + [h] == [list[0]] + (rest + [h]);
      ApartLast(rest, h);
      Cons(list[0], rest);
      Cons(list[0], rest + [h]);
      assert h in rest + [h] && forall x :: x in rest + [h] <==> x == h || x in rest;
      assert ApartFrom(list[0], rest + [h]) <==> Apart(list[0], h) && ApartFrom(list[0], rest);
    }
  }

  lemma {:induction false} SortKeeps(list: seq<Hours>)
    ensures forall x :: x in SortByStart(list) <==> x in list
    ensures Sorted(SortByStart(list))
    ensures AllApart(SortByStart(list)) <==> AllApart(list)
  {
    if list != [] {
      var init, last := list[..|list| - 1], list[|list| - 1];
      SortKeeps(init);
      InsertKeeps(last, SortByStart(init));
      assert list == init + [last];
      ApartLast(init, last);
    }
  }

  predicate NeighboursApart(list: seq<Hours>) {
    forall i :: 1 <= i < |list| ==> list[i].startMinute >= list[i - 1].endMinute
  }

  /** In a sorted list of proper intervals, neighbours apart means everything in order. */
  lemma NeighboursOrderly(list: seq<Hours>)
    requires Sorted(list) && AllInRange(list)
    ensures AllApart(list) <==> NeighboursApart(list)
    ensures NeighboursApart(list) <==> Orderly(list)
  {
    if NeighboursApart(list) {
      forall i, j | 0 <= i < j < |list| ensures list[i].endMinute <= list[j].startMinute {
        NeighboursChain(list, i, j);
      }
      assert forall i :: 0 <= i < |list| ==> InRange(list[i]);
      OrderlyApart(list);
    }
    if AllApart(list) {
      ApartNeighbours(list);
    }
  }

  lemma {:induction false} NeighboursChain(list: seq<Hours>, i: nat, j: nat)
    requires i < j < |list|
    requires NeighboursApart(list) && AllInRange(list)
    ensures list[i].endMinute <= list[j].startMinute
    decreases j
  {
    if i < j - 1 {
      NeighboursChain(list, i, j - 1);
      assert InRange(list[j - 1]);
    }
  }

  lemma {:induction false} OrderlyApart(list: seq<Hours>)
    requires Orderly(list)
    ensures AllApart(list)
  {
    if list != [] {
      OrderlyApart(list[1..]);
    }
  }

  lemma {:induction false} ApartNeighbours(list: seq<Hours>)
    requires Sorted(list) && AllApart(list) && AllInRange(list)
    ensures NeighboursApart(list)
  {
    if |list| > 1 {
      ApartNeighbours(list[1..]);
      assert list[1] in list[1..] && Apart(list[0], list[1]) && InRange(list[0]) && InRange(list[1]);
      forall i | 1 <= i < |list| ensures list[i].startMinute >= list[i - 1].endMinute {
        if i > 1 { assert list[i] == list[1..][i - 1] && list[i - 1] == list[1..][i - 2]; }
      }
    }
  }

  lemma {:induction false} GroupMembers(hours: seq<Hours>, w: int)
    ensures forall x :: x in Group(hours, w) <==> x in hours && x.weekday == w
  {
    if hours != [] {
      GroupMembers(hours[..|hours| - 1], w);
      assert hours == hours[..|hours| - 1] + [hours[|hours| - 1]];
    }
  }

  // ---- validateHours --------------------------------------------------------------

  /** One weekday: sort by start, then compare neighbours. */
  method OverlapProblems(weekday: int, list: seq<Hours>) returns (problems: seq<Problem>)
    ensures AllInRange(list) ==> (problems == [] <==> AllApart(list))
  {
    var sorted := SortByStart(list);
    SortKeeps(list);
    problems := [];
    for index := 1 to Max(|sorted|, 1)
      invariant problems == [] <==> forall i :: 1 <= i < index && i < |sorted| ==>
        sorted[i].startMinute >= sorted[i - 1].endMinute
    {
      if sorted[index].startMinute < sorted[index - 1].endMinute {
        problems := problems + [Overlap(weekday)];
      }
    }
    if AllInRange(list) { NeighboursOrderly(sorted); }
  }

  function EntryProblems(entry: Hours, index: nat): (problems: seq<Problem>)
    ensures problems == [] <==> InRange(entry)
  {
    (if entry.weekday < 0 || entry.weekday > 6 then [BadWeekday(index)] else [])
    + (if entry.startMinute < 0 || entry.startMinute > 1440 then [BadStart(index)] else [])
    + (if entry.endMinute < 0 || entry.endMinute > 1440 then [BadEnd(index)] else [])
    + (if entry.endMinute <= entry.startMinute then [EndNotAfterStart(index)] else [])
  }

  /** The weekdays in the order their first entries came. */
  method OverlapsByDay(ghost hours: seq<Hours>, byDay: map<int, seq<Hours>>, days: seq<int>)
    returns (problems: seq<Problem>)
    requires Grouped(byDay, hours) && Listed(byDay, days)
    ensures AllInRange(hours) ==> (problems == [] <==> NoOverlaps(hours))
  {
    problems := [];
    for d := 0 to |days|
      invariant AllInRange(hours) ==> (problems == [] <==> forall e :: 0 <= e < d ==> AllApart(Group(hours, days[e])))
    {
      var weekday := days[d];
      assert weekday in byDay && ListAt(byDay, weekday) == Group(hours, weekday);
      var overlaps := OverlapProblems(weekday, byDay[weekday]);
      GroupMembers(hours, weekday);
      problems := problems + overlaps;
    }
    if AllInRange(hours) && problems == [] {
      forall w ensures AllApart(Group(hours, w)) {
        assert ListAt(byDay, w) == Group(hours, w);
        if w in byDay { var d :| 0 <= d < |days| && days[d] == w; }
      }
    }
  }

  method ValidateHours(hours: seq<Hours>) returns (problems: seq<Problem>)
    ensures problems == [] <==> ValidHours(hours)
  {
    problems := [];
    if |hours| == 0 { problems := problems + [NoEntries]; }
    var byDay: map<int, seq<Hours>> := map[];
    var days: seq<int> := [];
    for index := 0 to |hours|
      invariant problems == [] <==> hours != [] && AllInRange(hours[..index])
      invariant Listed(byDay, days)
      invariant Grouped(byDay, hours[..index])
    {
      var entry := hours[index];
      GroupedStep(byDay, hours[..index], entry);
      RangeStep(hours, index);
      problems := problems + EntryProblems(entry, index);
      ListedStep(byDay, days, entry);
      if entry.weekday !in byDay { days := days + [entry.weekday]; }
      byDay := byDay[entry.weekday := ListAt(byDay, entry.weekday) + [entry]];
    }
    assert hours[..|hours|] == hours;
    var overlaps := OverlapsByDay(hours, byDay, days);
    problems := problems + overlaps;
  }

  // ---- The constructor --------------------------------------------------------------

  /** What the constructor keeps of the entries. */
  function Kept(hours: seq<Hours>): seq<Hours> {
    if hours == [] then []
    else Kept(hours[..|hours| - 1])
         + (if hours[|hours| - 1].endMinute <= hours[|hours| - 1].startMinute then [] else [hours[|hours| - 1]])
  }

  /** Some entry of the weekday covers the minute. */
  predicate Offered(hours: seq<Hours>, weekday: int, minute: int) {
    exists i :: 0 <= i < |hours| && hours[i].weekday == weekday
                && hours[i].startMinute <= minute < hours[i].endMinute
  }

  lemma {:induction false} KeptMembers(hours: seq<Hours>)
    ensures forall x :: x in Kept(hours) <==> x in hours && x.startMinute < x.endMinute
    ensures (forall i :: 0 <= i < |hours| ==> hours[i].startMinute < hours[i].endMinute) ==> Kept(hours) == hours
  {
    if hours != [] {
      KeptMembers(hours[..|hours| - 1]);
      assert hours == hours[..|hours| - 1] + [hours[|hours| - 1]];
    }
  }

  /** The constructor's first loop: usable entries by weekday. */
  method Collect(hours: seq<Hours>) returns (byWeekday: map<int, seq<Hours>>)
    ensures Grouped(byWeekday, Kept(hours))
    ensures forall w :: w in byWeekday ==> byWeekday[w] != []
  {
    byWeekday := map[];
    for index := 0 to |hours|
      invariant Grouped(byWeekday, Kept(hours[..index]))
      invariant forall w :: w in byWeekday ==> byWeekday[w] != []
    {
      var h := hours[index];
      KeptStep(hours, index);
      if h.endMinute <= h.startMinute { continue; }
      GroupedStep(byWeekday, Kept(hours[..index]), h);
      byWeekday := byWeekday[h.weekday := ListAt(byWeekday, h.weekday) + [h]];
    }
    assert hours[..|hours|] == hours;
  }

  /** The lists the constructor keeps, one weekday at a time. */
  lemma ListForMembers(hours: seq<Hours>, w: int)
    ensures forall x :: x in SortByStart(Group(Kept(hours), w))
                        <==> x in hours && x.startMinute < x.endMinute && x.weekday == w
  {
    KeptMembers(hours);
    GroupMembers(Kept(hours), w);
    SortKeeps(Group(Kept(hours), w));
  }

  lemma ListForOrderly(hours: seq<Hours>, w: int)
    requires AllInRange(hours) && AllApart(Group(hours, w))
    ensures Orderly(SortByStart(Group(Kept(hours), w)))
  {
    KeptMembers(hours);
    GroupMembers(hours, w);
    SortKeeps(Group(hours, w));
    NeighboursOrderly(SortByStart(Group(hours, w)));
  }

  /** None is the CalendarError of a calendar without a working interval. */
  method Build(offset: int, hours: seq<Hours>, holidays: set<int>) returns (r: Option<BusinessCalendar>)
    ensures r.None? <==> forall x :: x in hours ==> x.endMinute <= x.startMinute
    ensures r.Some? ==> r.value.offset == offset && r.value.holidays == holidays
    ensures r.Some? ==> forall w, m :: Open(ListAt(r.value.byWeekday, w), m) <==> Offered(hours, w, m)
    ensures ValidHours(hours) ==> r.Some? && ValidCalendar(r.value)
  {
    var byWeekday := Collect(hours);
    var sorted := map w | w in byWeekday :: SortByStart(byWeekday[w]);
    SortedLists(hours, byWeekday, sorted);
    return if sorted == map[] then None else Some(BusinessCalendar(offset, sorted, holidays));
  }

  /** One weekday of the finished map. */
  lemma SortedList(hours: seq<Hours>, byWeekday: map<int, seq<Hours>>, sorted: map<int, seq<Hours>>, w: int)
    requires Grouped(byWeekday, Kept(hours)) && forall v :: v in byWeekday ==> byWeekday[v] != []
    requires sorted == map v | v in byWeekday :: SortByStart(byWeekday[v])
    ensures forall x :: x in ListAt(sorted, w) <==> x in hours && x.startMinute < x.endMinute && x.weekday == w
    ensures w in sorted <==> exists x :: x in hours && x.startMinute < x.endMinute && x.weekday == w
    ensures AllInRange(hours) && NoOverlaps(hours) && w in sorted ==> Orderly(sorted[w])
  {
    assert ListAt(byWeekday, w) == Group(Kept(hours), w);
    ListForMembers(hours, w);
    if w in sorted {
      SortKeeps(byWeekday[w]);
      assert byWeekday[w][0] in ListAt(sorted, w);
    }
    if AllInRange(hours) && NoOverlaps(hours) {
      assert AllApart(Group(hours, w));
      ListForOrderly(hours, w);
    }
  }

  lemma SomeKey(lists: map<int, seq<Hours>>) returns (w: int)
    requires lists != map[]
    ensures w in lists
  {
    assert (forall v :: v !in lists) ==> lists == map[];
    w :| w in lists;
  }

  lemma SortedLists(hours: seq<Hours>, byWeekday: map<int, seq<Hours>>, sorted: map<int, seq<Hours>>)
    requires Grouped(byWeekday, Kept(hours)) && forall w :: w in byWeekday ==> byWeekday[w] != []
    requires sorted == map w | w in byWeekday :: SortByStart(byWeekday[w])
    ensures sorted == map[] <==> forall x :: x in hours ==> x.endMinute <= x.startMinute
    ensures forall w, m :: Open(ListAt(sorted, w), m) <==> Offered(hours, w, m)
    ensures ValidHours(hours) ==> sorted != map[] && forall w :: w in sorted ==> Orderly(sorted[w])
  {
    forall w, m ensures Open(ListAt(sorted, w), m) <==> Offered(hours, w, m) {
      SortedList(hours, byWeekday, sorted, w);
      OpenIsOffered(hours, ListAt(sorted, w), w, m);
    }
    forall w | w in sorted && ValidHours(hours) ensures Orderly(sorted[w]) {
      SortedList(hours, byWeekday, sorted, w);
    }
    if sorted != map[] {
      var w := SomeKey(sorted);
      SortedList(hours, byWeekday, sorted, w);
      var x :| x in hours && x.startMinute < x.endMinute && x.weekday == w;
    }
    forall x | x in hours && x.startMinute < x.endMinute ensures x.weekday in sorted {
      SortedList(hours, byWeekday, sorted, x.weekday);
    }
    if ValidHours(hours) { assert hours[0] in hours && InRange(hours[0]); }
  }

  lemma OpenIsOffered(hours: seq<Hours>, list: seq<Hours>, w: int, m: int)
    requires forall x :: x in list <==> x in hours && x.startMinute < x.endMinute && x.weekday == w
    ensures Open(list, m) <==> Offered(hours, w, m)
  {
    if Open(list, m) {
      var i :| 0 <= i < |list| && list[i].startMinute <= m < list[i].endMinute;
      assert list[i] in list;
      assert list[i] in hours;
    }
    if Offered(hours, w, m) {
      var i :| 0 <= i < |hours| && hours[i].weekday == w && hours[i].startMinute <= m < hours[i].endMinute;
      assert hours[i] in hours;
      assert hours[i] in list;
    }
  }
}

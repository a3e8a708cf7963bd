/**
 * Edit distance by the two-row dynamic programme, and what the number means: the
 * length of a shortest script of single-character edits, which makes it a metric.
 */
module Levenshtein {
  import opened Wrappers

  function Min3(x: nat, y: nat, z: nat): nat {
    if x <= y && x <= z then x else if y <= z then y else z
  }

  function Init(s: string): string requires s != "" { s[..|s| - 1] }

  function Cost(a: string, b: string): nat
    requires a != "" && b != ""
  {
    if a[|a| - 1] == b[|b| - 1] then 0 else 1
  }

  /** The recurrence the table is filled by. */
  function Distance(a: string, b: string): nat
    decreases |a| + |b|
  {
    if a == "" then |b|
    else if b == "" then |a|
    else Min3(Distance(Init(a), b) + 1, Distance(a, Init(b)) + 1, Distance(Init(a), Init(b)) + Cost(a, b))
  }

  // ---- The programme -----------------------------------------------------------

  predicate IsRow(a: string, b: string, row: seq<nat>) {
    |row| <= |b| + 1 && forall j :: 0 <= j < |row| ==> row[j] == Distance(a, b[..j])
  }

  method Levenshtein(a: string, b: string) returns (d: nat)
    ensures d == Distance(a, b)
  {
    if a == b {
      DistanceZero(a, b);
      return 0;
    }
    if |a| == 0 { return |b|; }
    if |b| == 0 { return |a|; }
    hide Distance, IsRow, Cost;
    var previous: seq<nat> := seq(|b| + 1, (index: int) requires 0 <= index => index as nat);
    FirstRow(a, b, previous);
    for i := 1 to |a| + 1
      invariant |previous| == |b| + 1 && IsRow(a[..i - 1], b, previous)
    {
      var current: seq<nat> := [i];
      FirstCell(a, b, i);
      for j := 1 to |b| + 1
        invariant |current| == j && IsRow(a[..i], b, current)
      {
        NextCell(a, b, i, j, previous, current);
        var cost := if a[i - 1] == b[j - 1] then 0 else 1;
        current := current + [Min3(previous[j] + 1, current[j - 1] + 1, previous[j - 1] + cost)];
      }
      previous := current;
    }
    LastCell(a, b, previous);
    return previous[|b|];
  }

  lemma FirstRow(a: string, b: string, row: seq<nat>)
    requires |row| == |b| + 1 && forall j :: 0 <= j < |row| ==> row[j] == j
    ensures IsRow(a[..0], b, row)
  {}

  lemma FirstCell(a: string, b: string, i: nat)
    requires 1 <= i <= |a|
    ensures IsRow(a[..i], b, [i])
  {}

  lemma NextCell(a: string, b: string, i: nat, j: nat, previous: seq<nat>, current: seq<nat>)
    requires 1 <= i <= |a| && 1 <= j <= |b|
    requires |previous| == |b| + 1 && IsRow(a[..i - 1], b, previous)
    requires |current| == j && IsRow(a[..i], b, current)
    ensures var cost := if a[i - 1] == b[j - 1] then 0 else 1;
            IsRow(a[..i], b, current + [Min3(previous[j] + 1, current[j - 1] + 1, previous[j - 1] + cost)])
  {
    assert Init(a[..i]) == a[..i - 1] && Init(b[..j]) == b[..j - 1];
  }

  lemma LastCell(a: string, b: string, row: seq<nat>)
    requires |row| == |b| + 1 && IsRow(a[..|a|], b, row)
    ensures row[|b|] == Distance(a, b)
  {
    assert a[..|a|] == a && b[..|b|] == b;
  }

  // ---- A metric ----------------------------------------------------------------

  lemma {:induction false} DistanceZero(a: string, b: string)
    ensures Distance(a, b) == 0 <==> a == b
    decreases |a|
  {
    if a != "" && b != "" {
      DistanceZero(Init(a), Init(b));
      assert a == Init(a) + [a[|a| - 1]] && b == Init(b) + [b[|b| - 1]];
    }
  }

  lemma {:induction false} DistanceSymmetric(a: string, b: string)
    ensures Distance(a, b) == Distance(b, a)
    decreases |a| + |b|
  {
    if a != "" && b != "" {
      DistanceSymmetric(Init(a), b);
      DistanceSymmetric(a, Init(b));
      DistanceSymmetric(Init(a), Init(b));
    }
  }

  lemma {:induction false} LengthGap(a: string, b: string)
    ensures |a| <= Distance(a, b) + |b| && |b| <= Distance(a, b) + |a|
    ensures Distance(a, b) <= |a| + |b|
    decreases |a| + |b|
  {
    if a != "" && b != "" {
      LengthGap(Init(a), b);
      LengthGap(a, Init(b));
      LengthGap(Init(a), Init(b));
    }
  }

  /** The recurrence, as bounds one of which is reached. */
  lemma LastStep(a: string, b: string)
    requires a != "" && b != ""
    ensures Distance(a, b) <= Distance(Init(a), b) + 1
    ensures Distance(a, b) <= Distance(a, Init(b)) + 1
    ensures Distance(a, b) <= Distance(Init(a), Init(b)) + Cost(a, b)
    ensures || Distance(a, b) == Distance(Init(a), b) + 1
            || Distance(a, b) == Distance(a, Init(b)) + 1
            || Distance(a, b) == Distance(Init(a), Init(b)) + Cost(a, b)
  {}

  lemma {:induction false} DistanceTriangle(a: string, b: string, c: string)
    ensures Distance(a, c) <= Distance(a, b) + Distance(b, c)
    decreases |a| + |b| + |c|
  {
    if a == "" || b == "" || c == "" {
      LengthGap(a, b);
      LengthGap(b, c);
      LengthGap(a, c);
    } else {
      hide Distance;
      LastStep(a, b);
      LastStep(b, c);
      LastStep(a, c);
      if Distance(a, b) == Distance(Init(a), b) + 1 {
        DistanceTriangle(Init(a), b, c);
      } else if Distance(b, c) == Distance(b, Init(c)) + 1 {
        DistanceTriangle(a, b, Init(c));
      } else if Distance(a, b) == Distance(a, Init(b)) + 1 {
        DistanceTriangle(a, Init(b), c);
        DistanceTriangle(a, Init(b), Init(c));
      } else {
        DistanceTriangle(Init(a), Init(b), c);
        DistanceTriangle(Init(a), Init(b), Init(c));
      }
    }
  }

  // ---- Scripts -------------------------------------------------------------------

  datatype Edit = Insert(at: nat, c: char) | Delete(at: nat) | Substitute(at: nat, c: char)

  /** One edit of a string; None when the position is outside it. */
  function Apply(e: Edit, s: string): Option<string> {
    match e
    case Insert(at, c) => if at <= |s| then Some(s[..at] + [c] + s[at..]) else None
    case Delete(at) => if at < |s| then Some(s[..at] + s[at + 1..]) else None
    case Substitute(at, c) => if at < |s| then Some(s[at := c]) else None
  }

  /** The edits in turn, each on what the one before it left. */
  function ApplyAll(script: seq<Edit>, s: string): Option<string> {
    if script == [] then Some(s)
    else match Apply(script[0], s)
      case None => None
      case Some(t) => ApplyAll(script[1..], t)
  }

  lemma {:induction false} SharedSuffix(a: string, b: string, suffix: string)
    ensures Distance(a + suffix, b + suffix) <= Distance(a, b)
    decreases |suffix|
  {
    if suffix == "" {
      assert a + suffix == a && b + suffix == b;
    } else {
      SharedSuffix(a, b, Init(suffix));
      assert Init(a + suffix) == a + Init(suffix) && Init(b + suffix) == b + Init(suffix);
    }
  }

  lemma LastCharacter(head: string, c: char, d: char)
    ensures Distance(head, head + [c]) <= 1 && Distance(head + [c], head) <= 1
    ensures Distance(head + [c], head + [d]) <= 1
  {
    DistanceZero(head, head);
    assert Init(head + [c]) == head && Init(head + [d]) == head;
  }

  lemma SingleEdit(e: Edit, s: string)
    requires Apply(e, s).Some?
    ensures Distance(s, Apply(e, s).value) <= 1
  {
    hide Distance;
    var head := s[..e.at];
    if e.Insert? {
      LastCharacter(head, e.c, e.c);
      SharedSuffix(head, head + [e.c], s[e.at..]);
      assert s == head + s[e.at..];
    } else if e.Delete? {
      LastCharacter(head, s[e.at], s[e.at]);
      SharedSuffix(head + [s[e.at]], head, s[e.at + 1..]);
      assert s == head + [s[e.at]] + s[e.at + 1..];
    } else {
      LastCharacter(head, s[e.at], e.c);
      SharedSuffix(head + [s[e.at]], head + [e.c], s[e.at + 1..]);
      assert s == head + [s[e.at]] + s[e.at + 1..];
      assert s[e.at := e.c] == head + [e.c] + s[e.at + 1..];
    }
  }

  /** No script is shorter than the distance. */
  lemma {:induction false} ScriptsAreNoShorter(script: seq<Edit>, a: string)
    requires ApplyAll(script, a).Some?
    ensures Distance(a, ApplyAll(script, a).value) <= |script|
    decreases |script|
  {
    if script == [] {
      DistanceZero(a, a);
    } else {
      var t := Apply(script[0], a).value;
      SingleEdit(script[0], a);
      ScriptsAreNoShorter(script[1..], t);
      DistanceTriangle(a, t, ApplyAll(script, a).value);
    }
  }

  /** A script of exactly that length, working from the end of the strings to the front. */
  function Script(a: string, b: string): seq<Edit>
    decreases |a| + |b|
  {
    if a == "" && b == "" then []
    else if a == "" then [Insert(0, b[|b| - 1])] + Script(a, Init(b))
    else if b == "" then [Delete(|a| - 1)] + Script(Init(a), b)
    else if Distance(a, b) == Distance(Init(a), Init(b)) + Cost(a, b) then
      (if Cost(a, b) == 0 then [] else [Substitute(|a| - 1, b[|b| - 1])]) + Script(Init(a), Init(b))
    else if Distance(a, b) == Distance(Init(a), b) + 1 then [Delete(|a| - 1)] + Script(Init(a), b)
    else [Insert(|a|, b[|b| - 1])] + Script(a, Init(b))
  }

  /** Edits that stay within a string leave what follows it alone. */
  lemma {:induction false} ApplyAllAppend(script: seq<Edit>, s: string, suffix: string)
    requires ApplyAll(script, s).Some?
    ensures ApplyAll(script, s + suffix) == Some(ApplyAll(script, s).value + suffix)
    decreases |script|
  {
    if script != [] {
      var e := script[0];
      var t := Apply(e, s).value;
      assert (s + suffix)[..e.at] == s[..e.at];
      assert Apply(e, s + suffix) == Some(t + suffix) by {
        if e.Insert? {
          assert (s + suffix)[e.at..] == s[e.at..] + suffix;
          assert s[..e.at] + [e.c] + (s[e.at..] + suffix) == t + suffix;
        } else if e.Delete? {
          assert (s + suffix)[e.at + 1..] == s[e.at + 1..] + suffix;
          assert s[..e.at] + (s[e.at + 1..] + suffix) == t + suffix;
        } else {
          assert (s + suffix)[e.at := e.c] == t + suffix;
        }
      }
      ApplyAllAppend(script[1..], t, suffix);
    }
  }

  lemma LastEdits(s: string, c: char)
    ensures Apply(Insert(|s|, c), s) == Some(s + [c])
    ensures s != "" ==> Apply(Delete(|s| - 1), s) == Some(Init(s))
    ensures s != "" ==> Apply(Substitute(|s| - 1, c), s) == Some(Init(s) + [c])
  {
    assert s[..|s|] + [c] + s[|s|..] == s + [c];
    if s != "" {
      assert s[..|s| - 1] + s[|s|..] == Init(s);
      assert s[|s| - 1 := c] == Init(s) + [c];
    }
  }

  /** One edit at the end of the string in front of a script for what comes before it. */
  lemma EditFirst(e: Edit, script: seq<Edit>, s: string, t: string, rest: string)
    requires ApplyAll(script, t).Some? && Apply(e, s) == Some(t + rest)
    ensures ApplyAll([e] + script, s) == Some(ApplyAll(script, t).value + rest)
  {
    assert ([e] + script)[1..] == script;
    ApplyAllAppend(script, t, rest);
  }

  /** The distance is reached: it is the length of a script that turns `a` into `b`. */
  lemma {:induction false} ScriptReaches(a: string, b: string)
    ensures ApplyAll(Script(a, b), a) == Some(b)
    ensures |Script(a, b)| == Distance(a, b)
    decreases |a| + |b|
  {
    hide ApplyAll, Apply, Distance;
    if a != "" && b != "" { LastStep(a, b); }
    EmptyDistance(a, b);
    if a == "" && b == "" {
      assert ApplyAll([], a) == Some(a) by { ApplyNothing(a); }
    } else if a != "" && b != "" && Distance(a, b) == Distance(Init(a), Init(b)) + Cost(a, b) {
      ScriptReaches(Init(a), Init(b));
      LastReplaced(a, b, Script(Init(a), Init(b)));
    } else if a != "" && (b == "" || Distance(a, b) == Distance(Init(a), b) + 1) {
      ScriptReaches(Init(a), b);
      LastEdits(a, 'x');
      assert Init(a) + "" == Init(a) && b + "" == b;
      EditFirst(Delete(|a| - 1), Script(Init(a), b), a, Init(a), "");
    } else {
      ScriptReaches(a, Init(b));
      LastEdits(a, b[|b| - 1]);
      assert Init(b) + [b[|b| - 1]] == b;
      EditFirst(Insert(|a|, b[|b| - 1]), Script(a, Init(b)), a, a, [b[|b| - 1]]);
    }
  }

  lemma EmptyDistance(a: string, b: string)
    ensures a == "" ==> Distance(a, b) == |b| && (b != "" ==> Distance(a, Init(b)) == |b| - 1)
    ensures b == "" ==> Distance(a, b) == |a| && (a != "" ==> Distance(Init(a), b) == |a| - 1)
  {}

  lemma LastReplaced(a: string, b: string, script: seq<Edit>)
    requires a != "" && b != "" && ApplyAll(script, Init(a)) == Some(Init(b))
    ensures ApplyAll((if Cost(a, b) == 0 then [] else [Substitute(|a| - 1, b[|b| - 1])]) + script, a) == Some(b)
  {
    hide ApplyAll, Apply;
    var last := [b[|b| - 1]];
    assert Init(b) + last == b && a == Init(a) + [a[|a| - 1]];
    LastEdits(a, b[|b| - 1]);
    if Cost(a, b) == 0 {
      ApplyAllAppend(script, Init(a), last);
      assert [] + script == script;
    } else {
      EditFirst(Substitute(|a| - 1, b[|b| - 1]), script, a, Init(a), last);
    }
  }

  lemma ApplyNothing(s: string)
    ensures ApplyAll([], s) == Some(s)
  {}

  /** What the method returns is the length of a shortest script. */
  lemma DistanceIsShortest(a: string, b: string)
    ensures exists script :: |script| == Distance(a, b) && ApplyAll(script, a) == Some(b)
    ensures forall script :: ApplyAll(script, a) == Some(b) ==> |script| >= Distance(a, b)
  {
    ScriptReaches(a, b);
    assert |Script(a, b)| == Distance(a, b) && ApplyAll(Script(a, b), a) == Some(b);
    forall script | ApplyAll(script, a) == Some(b) ensures |script| >= Distance(a, b) {
      ScriptsAreNoShorter(script, a);
    }
  }
}

/** Expanding granted permissions along the implications, over any implication table. */
module Permissions {

  datatype Catalog = Catalog(known: set<string>, implies: map<string, seq<string>>)

  /** The table only names known permissions. */
  predicate ValidCatalog(c: Catalog) {
    forall p, i :: p in c.implies && 0 <= i < |c.implies[p]| ==> c.implies[p][i] in c.known
  }

  function Implied(c: Catalog, p: string): seq<string> {
    if p in c.implies then c.implies[p] else []
  }

  predicate Closed(c: Catalog, s: set<string>) {
    forall p, i :: p in s && 0 <= i < |Implied(c, p)| ==> Implied(c, p)[i] in s
  }

  /** The valid keys among those granted. */
  function Valid(c: Catalog, granted: seq<string>): set<string> {
    set i | 0 <= i < |granted| && granted[i] in c.known :: granted[i]
  }

  /** The least closed set over some keys. */
  ghost predicate IsClosure(c: Catalog, keys: set<string>, result: set<string>) {
    && keys <= result && Closed(c, result)
    && forall s :: keys <= s && Closed(c, s) ==> result <= s
  }

  predicate InStack(p: string, stack: seq<string>) {
    exists i :: 0 <= i < |stack| && stack[i] == p
  }

  /** Everything a processed permission implies is processed or waits on the stack. */
  predicate Pending(c: Catalog, result: set<string>, stack: seq<string>) {
    forall p, i :: p in result && 0 <= i < |Implied(c, p)| ==>
      Implied(c, p)[i] in result || InStack(Implied(c, p)[i], stack)
  }

  predicate AllKnown(c: Catalog, stack: seq<string>) {
    forall j :: 0 <= j < |stack| ==> stack[j] in c.known
  }

  /** The keys are all accounted for. */
  predicate Covered(keys: set<string>, result: set<string>, stack: seq<string>) {
    forall p :: p in keys ==> p in result || InStack(p, stack)
  }

  /** Nothing is in the result or on the stack that a closed set over the keys could do without. */
  ghost predicate Needed(c: Catalog, keys: set<string>, result: set<string>, stack: seq<string>) {
    forall s :: keys <= s && Closed(c, s) ==> result <= s && forall p :: InStack(p, stack) ==> p in s
  }

  method ExpandPermissions(c: Catalog, granted: seq<string>) returns (result: set<string>)
    requires ValidCatalog(c)
    ensures IsClosure(c, Valid(c, granted), result)
    ensures result <= c.known
  {
    hide InStack, Closed, Implied;
    ghost var keys := Valid(c, granted);
    var stack := PushValid(c, granted);
    result := {};
    while |stack| > 0
      invariant result <= c.known && AllKnown(c, stack)
      invariant Covered(keys, result, stack) && Pending(c, result, stack) && Needed(c, keys, result, stack)
      decreases |c.known - result|, |stack|
    {
      ghost var before := stack;
      var current := stack[|stack| - 1];
      stack := stack[..|stack| - 1];
      Popped(before);
      if current in result {
        SkipKeeps(c, keys, result, before);
        continue;
      }
      Smaller(c.known - (result + {current}), c.known - result);
      ghost var popped := stack;
      stack := PushImplied(c, current, result + {current}, stack);
      TakeKeeps(c, keys, result, before, popped, stack);
      result := result + {current};
    }
    Finished(c, keys, result);
  }

  method PushValid(c: Catalog, granted: seq<string>) returns (stack: seq<string>)
    ensures AllKnown(c, stack) && forall p :: InStack(p, stack) <==> p in Valid(c, granted)
  {
    stack := [];
    for i := 0 to |granted|
      invariant forall p :: InStack(p, stack) <==> p in Valid(c, granted[..i])
      invariant AllKnown(c, stack)
    {
      assert Valid(c, granted[..i + 1])
          == Valid(c, granted[..i]) + if granted[i] in c.known then {granted[i]} else {};
      if granted[i] in c.known {
        Pushed(stack, granted[i]);
        stack := stack + [granted[i]];
      }
    }
    assert granted[..|granted|] == granted;
  }

  /** Pushes what `current` implies and the result does not hold yet. */
  method PushImplied(c: Catalog, current: string, result: set<string>, stack: seq<string>)
    returns (pushed: seq<string>)
    requires ValidCatalog(c) && AllKnown(c, stack)
    ensures AllKnown(c, pushed)
    ensures forall p :: InStack(p, stack) ==> InStack(p, pushed)
    ensures forall p :: InStack(p, pushed) ==> InStack(p, stack) || InStack(p, Implied(c, current))
    ensures forall p :: InStack(p, Implied(c, current)) ==> p in result || InStack(p, pushed)
  {
    pushed := stack;
    var implied := Implied(c, current);
    for i := 0 to |implied|
      invariant AllKnown(c, pushed)
      invariant forall p :: InStack(p, stack) ==> InStack(p, pushed)
      invariant forall p :: InStack(p, pushed) ==> InStack(p, stack) || InStack(p, implied)
      invariant forall j :: 0 <= j < i ==> implied[j] in result || InStack(implied[j], pushed)
    {
      Pushed(pushed, implied[i]);
      assert InStack(implied[i], implied);
      if implied[i] !in result { pushed := pushed + [implied[i]]; }
    }
  }

  lemma SkipKeeps(c: Catalog, keys: set<string>, result: set<string>, stack: seq<string>)
    requires stack != [] && stack[|stack| - 1] in result
    requires Covered(keys, result, stack) && Pending(c, result, stack) && Needed(c, keys, result, stack)
    ensures var rest := stack[..|stack| - 1];
            Covered(keys, result, rest) && Pending(c, result, rest) && Needed(c, keys, result, rest)
  {
    Popped(stack);
    hide InStack, Closed;
  }

  lemma TakeKeeps(
    c: Catalog, keys: set<string>, result: set<string>, before: seq<string>, popped: seq<string>, after: seq<string>)
    requires before != [] && popped == before[..|before| - 1]
    requires Covered(keys, result, before) && Pending(c, result, before) && Needed(c, keys, result, before)
    requires forall p :: InStack(p, popped) ==> InStack(p, after)
    requires var current := before[|before| - 1];
             && (forall p :: InStack(p, after) ==> InStack(p, popped) || InStack(p, Implied(c, current)))
             && (forall p :: InStack(p, Implied(c, current)) ==> p in result + {current} || InStack(p, after))
    ensures var result' := result + {before[|before| - 1]};
            Covered(keys, result', after) && Pending(c, result', after) && Needed(c, keys, result', after)
  {
    var current := before[|before| - 1];
    Popped(before);
    assert forall i :: 0 <= i < |Implied(c, current)| ==> InStack(Implied(c, current)[i], Implied(c, current));
    hide InStack;
    forall s | keys <= s && Closed(c, s)
      ensures result + {current} <= s && forall p :: InStack(p, after) ==> p in s
    {
      assert InStack(current, before);
      ImpliedInside(c, current, s);
    }
  }

  lemma ImpliedInside(c: Catalog, p: string, s: set<string>)
    requires Closed(c, s) && p in s
    ensures forall q :: InStack(q, Implied(c, p)) ==> q in s
  {}

  lemma Finished(c: Catalog, keys: set<string>, result: set<string>)
    requires Covered(keys, result, []) && Pending(c, result, []) && Needed(c, keys, result, [])
    ensures IsClosure(c, keys, result)
  {
    assert forall p :: !InStack(p, []);
  }

  lemma Pushed(stack: seq<string>, p: string)
    ensures forall q :: InStack(q, stack + [p]) <==> InStack(q, stack) || q == p
  {
    assert (stack + [p])[|stack|] == p;
    forall q | InStack(q, stack) ensures InStack(q, stack + [p]) {
      var i :| 0 <= i < |stack| && stack[i] == q;
      assert (stack + [p])[i] == q;
    }
  }

  lemma Popped(stack: seq<string>)
    requires stack != []
    ensures forall q :: InStack(q, stack) <==> InStack(q, stack[..|stack| - 1]) || q == stack[|stack| - 1]
  {
    assert stack == stack[..|stack| - 1] + [stack[|stack| - 1]];
    Pushed(stack[..|stack| - 1], stack[|stack| - 1]);
  }

  lemma Smaller(a: set<string>, b: set<string>)
    requires a < b
    ensures |a| < |b|
  {
    assert b == a + (b - a) && b - a != {};
  }

  // ---- From the table alone ----------------------------------------------------------------

  /** A chain of permissions from a granted valid key, each listed under the one before it. */
  predicate Chain(c: Catalog, granted: seq<string>, chain: seq<string>) {
    && chain != [] && chain[0] in granted && chain[0] in c.known
    && forall k :: 1 <= k < |chain| ==> Lists(c, chain[k - 1], chain[k])
  }

  predicate Lists(c: Catalog, p: string, q: string) { p in c.implies && q in c.implies[p] }

  ghost predicate Derives(c: Catalog, granted: seq<string>, p: string) {
    exists chain :: Chain(c, granted, chain) && chain[|chain| - 1] == p
  }

  /** The expansion holds exactly the permissions that such a chain leads to. */
  lemma HeldExactlyWhen(c: Catalog, granted: seq<string>, result: set<string>, p: string)
    requires IsClosure(c, Valid(c, granted), result)
    ensures p in result <==> Derives(c, granted, p)
  {
    if p in result {
      var some := set q | q in result && Derives(c, granted, q);
      DerivedClosed(c, granted, result, some);
    }
    if Derives(c, granted, p) {
      var chain :| Chain(c, granted, chain) && chain[|chain| - 1] == p;
      ChainInside(c, granted, result, chain);
    }
  }

  lemma DerivedClosed(c: Catalog, granted: seq<string>, result: set<string>, some: set<string>)
    requires IsClosure(c, Valid(c, granted), result)
    requires forall q :: q in some <==> q in result && Derives(c, granted, q)
    ensures result <= some
  {
    forall q | q in Valid(c, granted) ensures q in some {
      assert Chain(c, granted, [q]) && [q][0] == q;
    }
    forall q, i | q in some && 0 <= i < |Implied(c, q)| ensures Implied(c, q)[i] in some {
      var chain :| Chain(c, granted, chain) && chain[|chain| - 1] == q;
      var longer := chain + [Implied(c, q)[i]];
      assert Chain(c, granted, longer) && longer[|longer| - 1] == Implied(c, q)[i];
    }
  }

  lemma {:induction false} ChainInside(c: Catalog, granted: seq<string>, result: set<string>, chain: seq<string>)
    requires Valid(c, granted) <= result && Closed(c, result) && Chain(c, granted, chain)
    ensures chain[|chain| - 1] in result
    decreases |chain|
  {
    if |chain| > 1 {
      var before, last := chain[..|chain| - 1], chain[|chain| - 1];
      ChainInside(c, granted, result, before);
      assert Lists(c, chain[|chain| - 2], last);
      var i :| 0 <= i < |c.implies[chain[|chain| - 2]]| && c.implies[chain[|chain| - 2]][i] == last;
      assert Implied(c, before[|before| - 1])[i] == last;
    }
  }

  // ---- Laws of expansion ----------------------------------------------------------------

  lemma ClosureIsUnique(c: Catalog, keys: set<string>, r1: set<string>, r2: set<string>)
    requires IsClosure(c, keys, r1) && IsClosure(c, keys, r2)
    ensures r1 == r2
  {}

  /** Expanding what is expanded adds nothing. */
  lemma ExpandingTwice(c: Catalog, keys: set<string>, r: set<string>, rr: set<string>)
    requires IsClosure(c, keys, r) && IsClosure(c, r, rr)
    ensures rr == r
  {}

  lemma MoreKeysMorePermissions(c: Catalog, a: set<string>, b: set<string>, ra: set<string>, rb: set<string>)
    requires a <= b && IsClosure(c, a, ra) && IsClosure(c, b, rb)
    ensures ra <= rb
  {}

  /** Roles can be expanded one by one: no permission needs two of them together. */
  lemma ExpansionOfUnion(
    c: Catalog, a: set<string>, b: set<string>, ra: set<string>, rb: set<string>, rab: set<string>)
    requires IsClosure(c, a, ra) && IsClosure(c, b, rb) && IsClosure(c, a + b, rab)
    ensures rab == ra + rb
  {
    assert Closed(c, ra + rb) && a + b <= ra + rb;
    assert a <= rab && b <= rab;
  }
}

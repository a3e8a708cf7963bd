/** Ticket state machines as data: the validation an editor runs, and what an accepted machine can do. */
module Machines {
  import opened Wrappers

  datatype Kind = Intake | Active | Paused | Resolved | Terminal

  datatype State = State(key: string, kind: Kind)

  datatype Transition = Transition(from: string, to: string, requirements: set<string>, portal: bool)

  datatype Machine = Machine(initial: string, states: seq<State>, transitions: seq<Transition>)

  datatype Problem =
    | NoStates
    | NotSnakeCase(key: string)
    | DuplicateState(key: string)
    | InitialUndefined
    | FromUnknown(key: string)
    | ToUnknown(key: string)
    | SelfTransition(key: string)
    | DuplicateTransition(pair: string)
    | NoTerminalState
    | TerminalHasExit(key: string)
    | PauseNeedsReason(key: string)
    | Unreachable(key: string)
    | TerminalUnreachable(key: string)

  const PAUSE_REASON := "pause_reason"

  // ---- What a sound machine is ----------------------------------------------------------

  predicate SnakeChar(c: char) { 'a' <= c <= 'z' || '0' <= c <= '9' || c == '_' }

  predicate SnakeCase(key: string) {
    key != "" && 'a' <= key[0] <= 'z' && forall i :: 0 <= i < |key| ==> SnakeChar(key[i])
  }

  function Keys(states: seq<State>): set<string> { set i | 0 <= i < |states| :: states[i].key }

  /** A walk along transitions. */
  predicate Path(transitions: seq<Transition>, path: seq<string>) {
    && path != []
    && forall i :: 0 <= i < |path| - 1 ==> Step(transitions, path[i], path[i + 1])
  }

  predicate Step(transitions: seq<Transition>, from: string, to: string) {
    exists i :: 0 <= i < |transitions| && transitions[i].from == from && transitions[i].to == to
  }

  ghost predicate Reaches(transitions: seq<Transition>, from: string, to: string) {
    exists path :: Path(transitions, path) && path[0] == from && path[|path| - 1] == to
  }

  predicate AllSnake(states: seq<State>) {
    forall i :: 0 <= i < |states| ==> SnakeCase(states[i].key)
  }

  predicate DistinctKeys(states: seq<State>) {
    forall i, j :: 0 <= i < j < |states| ==> states[i].key != states[j].key
  }

  predicate TransitionsOk(m: Machine) {
    && (forall i :: 0 <= i < |m.transitions| ==>
          && m.transitions[i].from in Keys(m.states) && m.transitions[i].to in Keys(m.states)
          && m.transitions[i].from != m.transitions[i].to)
    && (forall i, j :: 0 <= i < j < |m.transitions| ==>
          m.transitions[i].from != m.transitions[j].from || m.transitions[i].to != m.transitions[j].to)
  }

  predicate KindOk(m: Machine, s: State) {
    && (s.kind.Terminal? ==> forall i :: 0 <= i < |m.transitions| ==> m.transitions[i].from != s.key)
    && (s.kind.Paused? ==> forall i :: 0 <= i < |m.transitions| && m.transitions[i].to == s.key ==>
          PAUSE_REASON in m.transitions[i].requirements)
  }

  ghost predicate Sound(m: Machine) {
    && m.states != [] && AllSnake(m.states) && DistinctKeys(m.states) && m.initial in Keys(m.states) && TransitionsOk(m)
    && (exists i :: 0 <= i < |m.states| && m.states[i].kind.Terminal?)
    && (forall i :: 0 <= i < |m.states| ==> KindOk(m, m.states[i]))
    && (forall key :: key in Keys(m.states) ==> Reaches(m.transitions, m.initial, key))
  }

  // ---- Reachability ---------------------------------------------------------------------

  predicate InStack(p: string, stack: seq<string>) {
    exists i :: 0 <= i < |stack| && stack[i] == p
  }

  function Targets(transitions: seq<Transition>): set<string> {
    set i | 0 <= i < |transitions| :: transitions[i].to
  }

  /** The worklist: pops a state, marks it, pushes every target of its transitions. */
  method Reachable(m: Machine) returns (reachable: set<string>)
    ensures forall key :: key in reachable <==> Reaches(m.transitions, m.initial, key)
  {
    reachable := {};
    var stack := [m.initial];
    ghost var all := Targets(m.transitions) + {m.initial};
    Itself(m.transitions, m.initial);
    assert stack[0] == m.initial && InStack(m.initial, stack);
    hide InStack, Reaches, Step, Targets;
    while |stack| > 0
      invariant reachable <= all && forall p :: InStack(p, stack) ==> p in all
      invariant forall p :: InStack(p, stack) || p in reachable ==> Reaches(m.transitions, m.initial, p)
      invariant InStack(m.initial, stack) || m.initial in reachable
      invariant forall p, q :: p in reachable && Step(m.transitions, p, q) ==> q in reachable || InStack(q, stack)
      decreases |all - reachable|, |stack|
    {
      var current := stack[|stack| - 1];
      Popped(stack);
      stack := stack[..|stack| - 1];
      if current in reachable { continue; }
      Smaller(all - (reachable + {current}), all - reachable);
      reachable := reachable + {current};
      var targets := TargetsOf(m.transitions, current);
      Appended(stack, targets);
      Extend(m.transitions, m.initial, current);
      stack := stack + targets;
    }
    ReachesOnlyInside(m, reachable);
  }

  lemma ReachesOnlyInside(m: Machine, s: set<string>)
    requires InStack(m.initial, []) || m.initial in s
    requires forall p, q :: p in s && Step(m.transitions, p, q) ==> q in s || InStack(q, [])
    ensures forall key :: Reaches(m.transitions, m.initial, key) ==> key in s
  {
    forall key | Reaches(m.transitions, m.initial, key) ensures key in s {
      var path :| Path(m.transitions, path) && path[0] == m.initial && path[|path| - 1] == key;
      PathStaysInside(m.transitions, path, s);
    }
  }

  /** The targets of one state's transitions, in order. */
  method TargetsOf(transitions: seq<Transition>, current: string) returns (targets: seq<string>)
    ensures forall q :: InStack(q, targets) <==> Step(transitions, current, q)
    ensures forall q :: InStack(q, targets) ==> q in Targets(transitions)
  {
    targets := [];
    for i := 0 to |transitions|
      invariant forall q :: InStack(q, targets) <==> Step(transitions[..i], current, q)
    {
      StepGrows(transitions, i, current);
      if transitions[i].from == current {
        Appended(targets, [transitions[i].to]);
        assert forall q :: InStack(q, [transitions[i].to]) <==> q == transitions[i].to by {
          assert [transitions[i].to][0] == transitions[i].to;
        }
        targets := targets + [transitions[i].to];
      }
    }
    assert transitions[..|transitions|] == transitions;
  }

  lemma StepGrows(transitions: seq<Transition>, i: nat, current: string)
    requires i < |transitions|
    ensures forall q :: Step(transitions[..i + 1], current, q)
                        <==> Step(transitions[..i], current, q)
                             || (transitions[i].from == current && transitions[i].to == q)
  {
    var less, more := transitions[..i], transitions[..i + 1];
    forall q ensures Step(more, current, q) <==> Step(less, current, q) || (more[i].from == current && more[i].to == q) {
      if Step(less, current, q) {
        var j :| 0 <= j < i && less[j].from == current && less[j].to == q;
        assert more[j] == less[j];
      }
      if Step(more, current, q) {
        var j :| 0 <= j < i + 1 && more[j].from == current && more[j].to == q;
        if j < i { assert less[j] == more[j]; }
      }
    }
  }

  lemma Popped(stack: seq<string>)
    requires stack != []
    ensures forall q :: InStack(q, stack) <==> InStack(q, stack[..|stack| - 1]) || q == stack[|stack| - 1]
  {
    var rest := stack[..|stack| - 1];
    forall q ensures InStack(q, stack) <==> InStack(q, rest) || q == stack[|stack| - 1] {
      if InStack(q, rest) {
        var i :| 0 <= i < |rest| && rest[i] == q;
        assert stack[i] == q;
      }
      if InStack(q, stack) {
        var i :| 0 <= i < |stack| && stack[i] == q;
        if i < |rest| { assert rest[i] == q; }
      }
    }
  }

  lemma Appended(a: seq<string>, b: seq<string>)
    ensures forall q :: InStack(q, a + b) <==> InStack(q, a) || InStack(q, b)
  {
    forall q ensures InStack(q, a + b) <==> InStack(q, a) || InStack(q, b) {
      if InStack(q, a) {
        var i :| 0 <= i < |a| && a[i] == q;
        assert (a + b)[i] == q;
      }
      if InStack(q, b) {
        var i :| 0 <= i < |b| && b[i] == q;
        assert (a + b)[|a| + i] == q;
      }
      if InStack(q, a + b) {
        var i :| 0 <= i < |a + b| && (a + b)[i] == q;
        if i < |a| { assert a[i] == q; } else { assert b[i - |a|] == q; }
      }
    }
  }

  lemma Smaller(a: set<string>, b: set<string>)
    requires a < b
    ensures |a| < |b|
  {
    assert b == a + (b - a) && b - a != {};
  }

  lemma Itself(transitions: seq<Transition>, key: string)
    ensures Reaches(transitions, key, key)
  {
    assert Path(transitions, [key]) && [key][0] == key;
  }

  lemma Extend(transitions: seq<Transition>, from: string, mid: string)
    requires Reaches(transitions, from, mid)
    ensures forall q :: Step(transitions, mid, q) ==> Reaches(transitions, from, q)
  {
    var path :| Path(transitions, path) && path[0] == from && path[|path| - 1] == mid;
    forall q | Step(transitions, mid, q) ensures Reaches(transitions, from, q) {
      var longer := path + [q];
      forall i | 0 <= i < |longer| - 1 ensures Step(transitions, longer[i], longer[i + 1]) {
        if i < |path| - 1 { assert Step(transitions, path[i], path[i + 1]); }
      }
      assert Path(transitions, longer) && longer[0] == from && longer[|longer| - 1] == q;
    }
  }

  lemma {:induction false} PathStaysInside(transitions: seq<Transition>, path: seq<string>, s: set<string>)
    requires Path(transitions, path) && path[0] in s
    requires forall p, q :: p in s && Step(transitions, p, q) ==> q in s
    ensures forall i :: 0 <= i < |path| ==> path[i] in s
    decreases |path|
  {
    if |path| > 1 {
      assert Step(transitions, path[0], path[0 + 1]);
      forall i | 0 <= i < |path[1..]| - 1 ensures Step(transitions, path[1..][i], path[1..][i + 1]) {
        assert Step(transitions, path[i + 1], path[i + 1 + 1]);
      }
      PathStaysInside(transitions, path[1..], s);
      assert forall i :: 1 <= i < |path| ==> path[i] == path[1..][i - 1];
    }
  }

  // ---- validateMachine -----------------------------------------------------------------------

  predicate NoUnreachable(problems: seq<Problem>) {
    forall p :: p in problems ==> !p.Unreachable?
  }

  method StateProblems(states: seq<State>) returns (problems: seq<Problem>, keys: set<string>)
    ensures problems == [] <==> AllSnake(states) && DistinctKeys(states)
    ensures keys == Keys(states) && NoUnreachable(problems)
  {
    problems, keys := [], {};
    for i := 0 to |states|
      invariant problems == [] <==> AllSnake(states[..i]) && DistinctKeys(states[..i])
      invariant keys == Keys(states[..i]) && NoUnreachable(problems)
    {
      var key := states[i].key;
      KeysGrow(states, i);
      if !SnakeCase(key) { problems := problems + [NotSnakeCase(key)]; }
      if key in keys { problems := problems + [DuplicateState(key)]; }
      keys := keys + {key};
    }
    assert states[..|states|] == states;
  }

  lemma KeysGrow(states: seq<State>, i: nat)
    requires i < |states|
    ensures Keys(states[..i + 1]) == Keys(states[..i]) + {states[i].key}
    ensures AllSnake(states[..i + 1]) <==> AllSnake(states[..i]) && SnakeCase(states[i].key)
    ensures DistinctKeys(states[..i + 1]) <==> DistinctKeys(states[..i]) && states[i].key !in Keys(states[..i])
  {
    var less, more := states[..i], states[..i + 1];
    assert more[i] == states[i] && forall j :: 0 <= j < i ==> more[j] == less[j];
    assert Keys(more) == Keys(less) + {states[i].key} by {
      forall k | k in Keys(less) ensures k in Keys(more) {
        var j :| 0 <= j < i && less[j].key == k;
        assert more[j].key == k;
      }
    }
  }

  function Pair(t: Transition): string { t.from + ">" + t.to }

  function Mark(s: string): nat {
    if s == "" || s[0] == '>' then 0 else 1 + Mark(s[1..])
  }

  lemma {:induction false} MarkAfter(name: string, rest: string)
    requires forall i :: 0 <= i < |name| ==> SnakeChar(name[i])
    ensures Mark(name + ">" + rest) == |name|
  {
    var s := name + ">" + rest;
    if name != "" {
      assert s[0] == name[0] && SnakeChar(name[0]);
      MarkAfter(name[1..], rest);
      assert s[1..] == name[1..] + ">" + rest;
    }
  }

  /** Snake case keys hold no '>', so a pair is split in one way only. */
  lemma PairsDiffer(a: Transition, b: Transition)
    requires SnakeCase(a.from) && SnakeCase(b.from)
    ensures Pair(a) == Pair(b) <==> a.from == b.from && a.to == b.to
  {
    MarkAfter(a.from, a.to);
    MarkAfter(b.from, b.to);
    var n, m := |a.from|, |b.from|;
    assert a.from == Pair(a)[..n] && b.from == Pair(b)[..m];
    assert a.to == Pair(a)[n + 1..] && b.to == Pair(b)[m + 1..];
  }

  predicate Joins(t: Transition, keys: set<string>) {
    t.from in keys && t.to in keys && t.from != t.to
  }

  function Pairs(transitions: seq<Transition>): set<string> {
    set i | 0 <= i < |transitions| :: Pair(transitions[i])
  }

  predicate AllJoin(transitions: seq<Transition>, keys: set<string>) {
    forall i :: 0 <= i < |transitions| ==> Joins(transitions[i], keys)
  }

  predicate DistinctPairs(transitions: seq<Transition>) {
    forall i, j :: 0 <= i < j < |transitions| ==> Pair(transitions[i]) != Pair(transitions[j])
  }

  method TransitionProblems(transitions: seq<Transition>, keys: set<string>) returns (problems: seq<Problem>)
    ensures problems == [] <==> AllJoin(transitions, keys) && DistinctPairs(transitions)
    ensures NoUnreachable(problems)
  {
    problems := [];
    var seen: set<string> := {};
    for i := 0 to |transitions|
      invariant problems == [] <==> AllJoin(transitions[..i], keys) && DistinctPairs(transitions[..i])
      invariant seen == Pairs(transitions[..i]) && NoUnreachable(problems)
    {
      var t := transitions[i];
      PairsGrow(transitions, i, keys);
      if t.from !in keys { problems := problems + [FromUnknown(t.from)]; }
      if t.to !in keys { problems := problems + [ToUnknown(t.to)]; }
      if t.from == t.to { problems := problems + [SelfTransition(t.from)]; }
      var pair := Pair(t);
      if pair in seen { problems := problems + [DuplicateTransition(pair)]; }
      seen := seen + {pair};
    }
    assert transitions[..|transitions|] == transitions;
  }

  lemma PairsGrow(transitions: seq<Transition>, i: nat, keys: set<string>)
    requires i < |transitions|
    ensures Pairs(transitions[..i + 1]) == Pairs(transitions[..i]) + {Pair(transitions[i])}
    ensures AllJoin(transitions[..i + 1], keys) <==> AllJoin(transitions[..i], keys) && Joins(transitions[i], keys)
    ensures DistinctPairs(transitions[..i + 1])
            <==> DistinctPairs(transitions[..i]) && Pair(transitions[i]) !in Pairs(transitions[..i])
  {
    hide Pair;
    var less, more := transitions[..i], transitions[..i + 1];
    assert more[i] == transitions[i] && forall j :: 0 <= j < i ==> more[j] == less[j];
    forall k | k in Pairs(less) ensures k in Pairs(more) {
      var j :| 0 <= j < i && Pair(less[j]) == k;
      assert Pair(more[j]) == k;
    }
    assert Pair(more[i]) in Pairs(more);
    assert Pairs(more) == Pairs(less) + {Pair(transitions[i])};
  }

  /** Over snake case states, distinct pairs are distinct transitions. */
  lemma TransitionsSound(m: Machine)
    requires AllSnake(m.states)
    ensures AllJoin(m.transitions, Keys(m.states)) && DistinctPairs(m.transitions) <==> TransitionsOk(m)
  {
    var keys := Keys(m.states);
    if AllJoin(m.transitions, keys) {
      forall i, j | 0 <= i < j < |m.transitions|
        ensures Pair(m.transitions[i]) == Pair(m.transitions[j])
                <==> m.transitions[i].from == m.transitions[j].from && m.transitions[i].to == m.transitions[j].to
      {
        assert Joins(m.transitions[i], keys) && Joins(m.transitions[j], keys);
        PairsDiffer(m.transitions[i], m.transitions[j]);
      }
    }
    if TransitionsOk(m) {
      forall i | 0 <= i < |m.transitions| ensures Joins(m.transitions[i], keys) {}
    }
  }

  method KindProblems(m: Machine) returns (problems: seq<Problem>)
    ensures problems == [] <==> forall i :: 0 <= i < |m.states| ==> KindOk(m, m.states[i])
    ensures NoUnreachable(problems)
  {
    problems := [];
    for i := 0 to |m.states|
      invariant problems == [] <==> forall j :: 0 <= j < i ==> KindOk(m, m.states[j])
      invariant NoUnreachable(problems)
    {
      var s := m.states[i];
      var exits := exists j :: 0 <= j < |m.transitions| && m.transitions[j].from == s.key;
      var unexplained := exists j :: 0 <= j < |m.transitions| && m.transitions[j].to == s.key
                                     && PAUSE_REASON !in m.transitions[j].requirements;
      if s.kind.Terminal? && exits { problems := problems + [TerminalHasExit(s.key)]; }
      if s.kind.Paused? && unexplained { problems := problems + [PauseNeedsReason(s.key)]; }
      assert KindOk(m, s) <==> !(s.kind.Terminal? && exits) && !(s.kind.Paused? && unexplained);
    }
  }

  /** The states in order, then the terminal states in order. */
  method ReachabilityProblems(m: Machine) returns (problems: seq<Problem>)
    ensures forall key :: Unreachable(key) in problems
                          <==> key in Keys(m.states) && !Reaches(m.transitions, m.initial, key)
    ensures problems == [] <==> forall key :: key in Keys(m.states) ==> Reaches(m.transitions, m.initial, key)
  {
    var reachable := Reachable(m);
    hide Reaches;
    problems := [];
    for i := 0 to |m.states|
      invariant forall key :: Unreachable(key) in problems <==> key in Keys(m.states[..i]) && key !in reachable
      invariant forall p :: p in problems ==> p.Unreachable?
      invariant problems == [] <==> forall key :: key in Keys(m.states[..i]) ==> key in reachable
    {
      KeysGrow(m.states, i);
      var key := m.states[i].key;
      // A set of keys is walked: a repeated key is reported once.
      if key !in reachable && Unreachable(key) !in problems { problems := problems + [Unreachable(key)]; }
    }
    assert m.states[..|m.states|] == m.states;
    ghost var unreachable := problems;
    for i := 0 to |m.states|
      invariant forall key :: Unreachable(key) in problems <==> Unreachable(key) in unreachable
      invariant problems == [] <==> unreachable == []
    {
      var s := m.states[i];
      assert s.key in Keys(m.states);
      assert s.key !in reachable ==> Unreachable(s.key) in unreachable;
      if s.kind.Terminal? && s.key !in reachable { problems := problems + [TerminalUnreachable(s.key)]; }
    }
  }

  method ValidateMachine(m: Machine) returns (problems: seq<Problem>)
    ensures problems == [] <==> Sound(m)
    ensures m.states != [] ==> forall key ::
              Unreachable(key) in problems <==> key in Keys(m.states) && !Reaches(m.transitions, m.initial, key)
  {
    if |m.states| == 0 { return [NoStates]; }
    hide KindOk, Reaches, TransitionsOk;
    var states, keys := StateProblems(m.states);
    problems := states;
    if m.initial !in keys { problems := problems + [InitialUndefined]; }
    var transitions := TransitionProblems(m.transitions, keys);
    problems := problems + transitions;
    var terminal := exists i :: 0 <= i < |m.states| && m.states[i].kind.Terminal?;
    if !terminal { problems := problems + [NoTerminalState]; }
    var kinds := KindProblems(m);
    problems := problems + kinds;
    var unreachable := ReachabilityProblems(m);
    assert NoUnreachable(problems);
    problems := problems + unreachable;
    if AllSnake(m.states) { TransitionsSound(m); }
  }

  // ---- An accepted machine ---------------------------------------------------------------------

  /** The lookup an accepted machine answers from: the first transition between two states. */
  function Find(transitions: seq<Transition>, from: string, to: string): Option<Transition> {
    if transitions == [] then None
    else if transitions[0].from == from && transitions[0].to == to then Some(transitions[0])
    else Find(transitions[1..], from, to)
  }

  predicate Permitted(m: Machine, from: string, to: string, portalActor: bool) {
    var found := Find(m.transitions, from, to);
    found.Some? && (portalActor ==> found.value.portal)
  }

  function ListOf(lists: map<string, seq<Transition>>, from: string): seq<Transition> {
    if from in lists then lists[from] else []
  }

  /** Looking up by source state finds what searching all transitions finds. */
  ghost predicate Indexes(lists: map<string, seq<Transition>>, transitions: seq<Transition>) {
    forall from, to :: Find(ListOf(lists, from), from, to) == Find(transitions, from, to)
  }

  lemma IndexOne(lists: map<string, seq<Transition>>, transitions: seq<Transition>, t: Transition)
    requires Indexes(lists, transitions)
    ensures Indexes(lists[t.from := ListOf(lists, t.from) + [t]], transitions + [t])
  {
    var lists' := lists[t.from := ListOf(lists, t.from) + [t]];
    forall from, to ensures Find(ListOf(lists', from), from, to) == Find(transitions + [t], from, to) {
      assert Find(ListOf(lists, from), from, to) == Find(transitions, from, to);
      FindLast(transitions, t, from, to);
      FindLast(ListOf(lists, t.from), t, from, to);
    }
  }

  class StateMachine {
    const body: Machine
    const byFrom: map<string, seq<Transition>>

    constructor (m: Machine)
      requires Sound(m)
      ensures body == m && Indexes(byFrom, m.transitions)
    {
      body := m;
      var lists: map<string, seq<Transition>> := map[];
      for i := 0 to |m.transitions|
        invariant Indexes(lists, m.transitions[..i])
      {
        var t := m.transitions[i];
        IndexOne(lists, m.transitions[..i], t);
        assert m.transitions[..i + 1] == m.transitions[..i] + [t];
        lists := lists[t.from := ListOf(lists, t.from) + [t]];
      }
      assert m.transitions[..|m.transitions|] == m.transitions;
      byFrom := lists;
    }

    method CanTransition(from: string, to: string, portalActor: bool) returns (can: bool)
      requires Indexes(byFrom, body.transitions)
      ensures can == Permitted(body, from, to, portalActor)
    {
      var found := Find(ListOf(byFrom, from), from, to);
      if found.None? { return false; }
      if portalActor { return found.value.portal; }
      return true;
    }
  }

  /** A machine is built from a body without problems; for any other the problems are thrown. */
  method MachineFor(m: Machine) returns (machine: StateMachine?, problems: seq<Problem>)
    ensures machine == null <==> problems != []
    ensures problems == [] <==> Sound(m)
    ensures machine != null ==> fresh(machine) && machine.body == m && Indexes(machine.byFrom, m.transitions)
  {
    problems := ValidateMachine(m);
    if |problems| > 0 { return null, problems; }
    machine := new StateMachine(m);
  }

  lemma {:induction false} FindLast(transitions: seq<Transition>, t: Transition, from: string, to: string)
    ensures Find(transitions + [t], from, to)
            == if Find(transitions, from, to).Some? then Find(transitions, from, to)
               else if t.from == from && t.to == to then Some(t) else None
  {
    if transitions == [] {
      assert ([t])[1..] == [];
    } else {
      assert (transitions + [t])[1..] == transitions[1..] + [t];
      FindLast(transitions[1..], t, from, to);
    }
  }

  lemma {:induction false} FindFinds(transitions: seq<Transition>, from: string, to: string)
    ensures Find(transitions, from, to).Some? <==> Step(transitions, from, to)
    ensures Find(transitions, from, to).Some? ==>
              exists i :: 0 <= i < |transitions| && transitions[i] == Find(transitions, from, to).value
                          && transitions[i].from == from && transitions[i].to == to
  {
    if transitions != [] {
      var rest := transitions[1..];
      FindFinds(rest, from, to);
      StepHead(transitions, from, to);
      if transitions[0].from == from && transitions[0].to == to {
        assert transitions[0] == Find(transitions, from, to).value;
      } else if Find(rest, from, to).Some? {
        var i :| 0 <= i < |rest| && rest[i] == Find(rest, from, to).value && rest[i].from == from && rest[i].to == to;
        assert transitions[i + 1] == rest[i];
      }
    }
  }

  lemma StepHead(transitions: seq<Transition>, from: string, to: string)
    requires transitions != []
    ensures Step(transitions, from, to)
            <==> (transitions[0].from == from && transitions[0].to == to) || Step(transitions[1..], from, to)
  {
    var rest := transitions[1..];
    if Step(transitions, from, to) {
      var i :| 0 <= i < |transitions| && transitions[i].from == from && transitions[i].to == to;
      if i > 0 { assert rest[i - 1] == transitions[i]; }
    }
    if Step(rest, from, to) {
      var i :| 0 <= i < |rest| && rest[i].from == from && rest[i].to == to;
      assert transitions[i + 1] == rest[i];
    }
  }

  /** A ticket's history: it starts in the initial state and only permitted transitions move it. */
  predicate History(m: Machine, states: seq<string>) {
    if |states| <= 1 then states == [m.initial]
    else
      && History(m, states[..|states| - 1])
      && Permitted(m, states[|states| - 2], states[|states| - 1], false)
  }

  predicate KindOf(m: Machine, key: string, kind: Kind) {
    exists i :: 0 <= i < |m.states| && m.states[i].key == key && m.states[i].kind == kind
  }

  /** A move between defined states, out of no terminal one, and into a paused one only with a reason. */
  predicate ProperMove(m: Machine, from: string, to: string) {
    && from in Keys(m.states) && to in Keys(m.states) && !KindOf(m, from, Terminal)
    && (KindOf(m, to, Paused) ==>
          Find(m.transitions, from, to).Some? && "pause_reason" in Find(m.transitions, from, to).value.requirements)
  }

  /** On an accepted machine no history leaves the defined states or a terminal state, and no pause is unexplained. */
  lemma {:induction false} AcceptedHistories(m: Machine, states: seq<string>)
    requires Sound(m) && History(m, states)
    ensures forall key :: key in states ==> key in Keys(m.states)
    ensures forall i :: 1 <= i < |states| ==> ProperMove(m, states[i - 1], states[i])
    decreases |states|
  {
    InitialDefined(m);
    hide Sound, ProperMove, Permitted;
    if |states| > 1 {
      var init := states[..|states| - 1];
      AcceptedHistories(m, init);
      OneTransition(m, states[|states| - 2], states[|states| - 1]);
      forall i | 1 <= i < |states| ensures ProperMove(m, states[i - 1], states[i]) {
        if i < |init| { assert ProperMove(m, init[i - 1], init[i]); }
      }
      assert states == init + [states[|states| - 1]];
    }
  }

  lemma InitialDefined(m: Machine)
    requires Sound(m)
    ensures m.initial in Keys(m.states)
  {}

  lemma OneTransition(m: Machine, from: string, to: string)
    requires Sound(m) && Permitted(m, from, to, false)
    ensures ProperMove(m, from, to) && to in Keys(m.states)
  {
    FindFinds(m.transitions, from, to);
    var i :| 0 <= i < |m.transitions| && m.transitions[i] == Find(m.transitions, from, to).value
             && m.transitions[i].from == from && m.transitions[i].to == to;
    forall j | 0 <= j < |m.states| ensures KindOk(m, m.states[j]) {}
  }

  /** A move is permitted exactly where a transition joins the states, and to a portal actor where the first to do so is marked. */
  lemma {:induction false} PermittedMeans(m: Machine, from: string, to: string, portalActor: bool)
    ensures Permitted(m, from, to, portalActor)
            <==> exists i :: 0 <= i < |m.transitions| && IsFirst(m.transitions, i, from, to)
                             && (portalActor ==> m.transitions[i].portal)
  {
    FirstIsFound(m.transitions, from, to);
  }

  /** Transition `i` joins the two states and none before it does. */
  predicate IsFirst(transitions: seq<Transition>, i: nat, from: string, to: string)
    requires i < |transitions|
  {
    && transitions[i].from == from && transitions[i].to == to
    && forall j :: 0 <= j < i ==> transitions[j].from != from || transitions[j].to != to
  }

  lemma {:induction false} FirstIsFound(transitions: seq<Transition>, from: string, to: string)
    ensures Find(transitions, from, to).Some? <==> exists i :: 0 <= i < |transitions| && IsFirst(transitions, i, from, to)
    ensures forall i :: 0 <= i < |transitions| && IsFirst(transitions, i, from, to) ==>
              Find(transitions, from, to) == Some(transitions[i])
  {
    if transitions != [] {
      var rest := transitions[1..];
      FirstIsFound(rest, from, to);
      if transitions[0].from == from && transitions[0].to == to {
        assert IsFirst(transitions, 0, from, to);
      } else {
        forall i | 0 <= i < |rest| ensures IsFirst(rest, i, from, to) <==> IsFirst(transitions, i + 1, from, to) {
          if IsFirst(rest, i, from, to) {
            forall j | 0 <= j < i + 1 ensures transitions[j].from != from || transitions[j].to != to {
              if j > 0 { assert transitions[j] == rest[j - 1]; }
            }
          }
          if IsFirst(transitions, i + 1, from, to) {
            forall j | 0 <= j < i ensures rest[j].from != from || rest[j].to != to { assert rest[j] == transitions[j + 1]; }
          }
        }
        forall i | 0 <= i < |transitions| && IsFirst(transitions, i, from, to)
          ensures Find(transitions, from, to) == Some(transitions[i])
        {
          assert i > 0 && IsFirst(rest, i - 1, from, to) && rest[i - 1] == transitions[i];
        }
      }
    }
  }
}

/** What a sound form definition guarantees of every submission, and the check that a definition is sound. */
module FormTheorems {
  import opened Wrappers
  import opened Text
  import opened Forms

  // ---- Field by field ---------------------------------------------------------------

  /** What had been found when field `i` came up. */
  function At(fields: seq<Field>, i: nat, answers: map<string, Value>, p: Patterns): Result
    requires i <= |fields|
  {
    AskAll(fields[..i], answers, p)
  }

  predicate Hidden(fields: seq<Field>, i: nat, answers: map<string, Value>, p: Patterns)
    requires i < |fields|
  {
    !Shown(fields[i], At(fields, i, answers, p).visible)
  }

  /** The field was shown and its answer taken. */
  predicate Accepted(fields: seq<Field>, i: nat, answers: map<string, Value>, p: Patterns)
    requires i < |fields|
  {
    && !Hidden(fields, i, answers, p)
    && !IsBlank(Sent(answers, fields[i].key))
    && KindProblem(fields[i], Sent(answers, fields[i].key), p).None?
  }

  lemma AskNext(fields: seq<Field>, i: nat, answers: map<string, Value>, p: Patterns)
    requires i < |fields|
    ensures At(fields, i + 1, answers, p) == Ask(At(fields, i, answers, p), fields[i], answers, p)
  {
    assert fields[..i + 1][..i] == fields[..i];
  }

  lemma AskDone(fields: seq<Field>, answers: map<string, Value>, p: Patterns)
    ensures At(fields, |fields|, answers, p) == AskAll(fields, answers, p)
  {
    assert fields[..|fields|] == fields;
  }

  // ---- Conditions -------------------------------------------------------------------

  /** A field of key `k` among the first `n` was shown. */
  predicate SomeShown(fields: seq<Field>, n: nat, answers: map<string, Value>, p: Patterns, k: string)
    requires n <= |fields|
  {
    exists i :: 0 <= i < n && fields[i].key == k && !Hidden(fields, i, answers, p)
  }

  predicate SomeHidden(fields: seq<Field>, n: nat, answers: map<string, Value>, p: Patterns, k: string)
    requires n <= |fields|
  {
    exists i :: 0 <= i < n && fields[i].key == k && Hidden(fields, i, answers, p)
  }

  lemma AskShows(r: Result, f: Field, answers: map<string, Value>, p: Patterns, k: string)
    ensures k in Ask(r, f, answers, p).visible <==> k in r.visible || (f.key == k && Shown(f, r.visible))
    ensures k in Ask(r, f, answers, p).hidden <==> k in r.hidden || (f.key == k && !Shown(f, r.visible))
  {
    hide KindProblem, IsBlank, Shown, IsCustom, ColumnAllowed;
  }

  /** A key has an answer, or a gap for one, exactly when a field of that key was shown. */
  lemma {:induction false} VisibleMeansShown(
    fields: seq<Field>, n: nat, answers: map<string, Value>, p: Patterns, k: string)
    requires n <= |fields|
    ensures k in At(fields, n, answers, p).visible <==> SomeShown(fields, n, answers, p, k)
    ensures k in At(fields, n, answers, p).hidden <==> SomeHidden(fields, n, answers, p, k)
  {
    if n > 0 {
      hide At, Ask, Shown, SomeShown, SomeHidden;
      VisibleMeansShown(fields, n - 1, answers, p, k);
      AskNext(fields, n - 1, answers, p);
      AskShows(At(fields, n - 1, answers, p), fields[n - 1], answers, p, k);
      SomeNext(fields, n - 1, answers, p, k);
    } else {
      assert At(fields, 0, answers, p) == NOTHING;
    }
  }

  lemma SomeNext(fields: seq<Field>, n: nat, answers: map<string, Value>, p: Patterns, k: string)
    requires n < |fields|
    ensures SomeShown(fields, n + 1, answers, p, k)
            <==> SomeShown(fields, n, answers, p, k) || (fields[n].key == k && !Hidden(fields, n, answers, p))
    ensures SomeHidden(fields, n + 1, answers, p, k)
            <==> SomeHidden(fields, n, answers, p, k) || (fields[n].key == k && Hidden(fields, n, answers, p))
  {
    hide Hidden;
  }

  lemma SoundFields(fields: seq<Field>, i: nat)
    requires Sound(fields) && i < |fields|
    ensures FieldOk(fields[i]) && ConditionOk(fields, i)
    ensures forall j :: 0 <= j < |fields| && j != i ==>
              fields[j].key != fields[i].key && fields[j].mapsTo != fields[i].mapsTo
  {
    hide FieldOk, ConditionOk, HasKind;
  }

  /** A field whose controller is hidden is hidden. */
  lemma HiddenControllersHide(
    fields: seq<Field>, i: nat, j: nat, answers: map<string, Value>, p: Patterns)
    requires Sound(fields) && i < |fields| && j < |fields|
    requires fields[i].visibleWhen.Some? && fields[i].visibleWhen.value.field == fields[j].key
    requires Hidden(fields, j, answers, p)
    ensures Hidden(fields, i, answers, p)
    ensures fields[i].key in AskAll(fields, answers, p).hidden
  {
    SoundFields(fields, j);
    hide Sound, FieldOk, ConditionOk, HasKind;
    assert fields[j].key !in At(fields, i, answers, p).visible by {
      VisibleMeansShown(fields, i, answers, p, fields[j].key);
    }
    assert Hidden(fields, i, answers, p);
    VisibleMeansShown(fields, |fields|, answers, p, fields[i].key);
    AskDone(fields, answers, p);
    assert SomeHidden(fields, |fields|, answers, p, fields[i].key);
  }

  /** The answer that was sent is one the field takes. */
  predicate Taken(f: Field, answers: map<string, Value>, p: Patterns) {
    !IsBlank(Sent(answers, f.key)) && KindProblem(f, Sent(answers, f.key), p).None?
  }

  lemma AskSees(r: Result, f: Field, answers: map<string, Value>, p: Patterns)
    ensures Shown(f, r.visible) ==>
              Ask(r, f, answers, p).visible == r.visible[f.key := if Taken(f, answers, p) then Sent(answers, f.key) else Missing]
    ensures !Shown(f, r.visible) ==> Ask(r, f, answers, p).visible == r.visible
  {
    hide KindProblem, IsBlank, Shown, IsCustom, ColumnAllowed;
  }

  /** Once a field is past, what the form sees under its key is its answer, if that was taken. */
  lemma {:induction false} VisibleAnswer(
    fields: seq<Field>, j: nat, n: nat, answers: map<string, Value>, p: Patterns)
    requires Sound(fields) && j < n <= |fields| && !Hidden(fields, j, answers, p)
    ensures fields[j].key in At(fields, n, answers, p).visible
    ensures At(fields, n, answers, p).visible[fields[j].key]
            == if Taken(fields[j], answers, p) then Sent(answers, fields[j].key) else Missing
  {
    hide Sound, Taken, At, Hidden;
    var m := n - 1;
    if j < m {
      DistinctKeys(fields, j, m);
      VisibleAnswer(fields, j, m, answers, p);
    }
    SeenNext(fields, m, answers, p);
  }

  lemma SeenNext(fields: seq<Field>, m: nat, answers: map<string, Value>, p: Patterns)
    requires m < |fields|
    ensures var before, f := At(fields, m, answers, p).visible, fields[m];
            At(fields, m + 1, answers, p).visible
            == if Hidden(fields, m, answers, p) then before
               else before[f.key := if Taken(f, answers, p) then Sent(answers, f.key) else Missing]
  {
    hide Taken, At, Ask, Shown;
    AskNext(fields, m, answers, p);
    AskSees(At(fields, m, answers, p), fields[m], answers, p);
  }

  lemma DistinctKeys(fields: seq<Field>, j: nat, m: nat)
    requires Sound(fields) && j < m < |fields|
    ensures fields[j].key != fields[m].key
  {
    hide FieldOk, ConditionOk, HasKind;
  }

  /** The answer is the value a condition wants, or a list with it. */
  predicate Wanted(answer: Value, wanted: Value) {
    answer == wanted || (answer.List? && exists k :: 0 <= k < |answer.items| && answer.items[k] == wanted)
  }

  lemma HiddenKey(fields: seq<Field>, i: nat, answers: map<string, Value>, p: Patterns)
    requires Sound(fields) && i < |fields|
    ensures fields[i].key in AskAll(fields, answers, p).hidden <==> Hidden(fields, i, answers, p)
  {
    VisibleMeansShown(fields, |fields|, answers, p, fields[i].key);
    AskDone(fields, answers, p);
    SoundFields(fields, i);
    hide Sound, FieldOk, ConditionOk, HasKind, Hidden, At, AskAll;
    if Hidden(fields, i, answers, p) { assert SomeHidden(fields, |fields|, answers, p, fields[i].key); }
  }

  /**
   * A field without a condition is never hidden. One with a condition is hidden exactly when its
   * controller is, or the controller's answer was not taken or is not the one wanted.
   */
  lemma HiddenExactlyWhen(
    fields: seq<Field>, i: nat, j: nat, answers: map<string, Value>, sent: seq<string>, p: Patterns)
    requires Sound(fields) && i < |fields|
    ensures fields[i].visibleWhen.None? ==> fields[i].key !in Submitted(fields, answers, sent, p).hidden
    ensures fields[i].visibleWhen.Some? && j < i && fields[j].key == fields[i].visibleWhen.value.field ==>
              var hidden, answer := Submitted(fields, answers, sent, p).hidden, Sent(answers, fields[j].key);
              fields[i].key in hidden
              <==> fields[j].key in hidden || !Taken(fields[j], answers, p) || !Wanted(answer, fields[i].visibleWhen.value.equals)
  {
    HiddenKey(fields, i, answers, p);
    assert Submitted(fields, answers, sent, p).hidden == AskAll(fields, answers, p).hidden;
    hide Submitted, AskAll;
    if fields[i].visibleWhen.Some? && j < i && fields[j].key == fields[i].visibleWhen.value.field {
      HiddenKey(fields, j, answers, p);
      hide Sound, At, Taken, Hidden, Wanted;
      if Hidden(fields, j, answers, p) {
        HiddenControllersHide(fields, i, j, answers, p);
      } else {
        HiddenByAnswer(fields, i, j, answers, p);
      }
    }
  }

  lemma HiddenByAnswer(fields: seq<Field>, i: nat, j: nat, answers: map<string, Value>, p: Patterns)
    requires Sound(fields) && j < i < |fields| && !Hidden(fields, j, answers, p)
    requires fields[i].visibleWhen.Some? && fields[j].key == fields[i].visibleWhen.value.field
    ensures Hidden(fields, i, answers, p)
            <==> !Taken(fields[j], answers, p) || !Wanted(Sent(answers, fields[j].key), fields[i].visibleWhen.value.equals)
  {
    WantedIsNoList(fields, i);
    VisibleAnswer(fields, j, i, answers, p);
    hide Sound, At, Taken, Wanted, ConditionHolds;
    ConditionMeans(fields[i].visibleWhen.value, At(fields, i, answers, p).visible);
    assert !Wanted(Missing, fields[i].visibleWhen.value.equals) by { NothingWanted(fields[i].visibleWhen.value.equals); }
  }

  lemma ConditionMeans(c: Condition, visible: map<string, Value>)
    requires !c.equals.List? && c.field in visible
    ensures ConditionHolds(c, visible) <==> Wanted(visible[c.field], c.equals)
  {
  }

  lemma NothingWanted(wanted: Value)
    ensures Wanted(Missing, wanted) <==> wanted.Missing?
  {
  }

  /** What a sound condition wants is one of a choice, a flag or a level. */
  lemma WantedIsNoList(fields: seq<Field>, i: nat)
    requires Sound(fields) && i < |fields| && fields[i].visibleWhen.Some?
    ensures !fields[i].visibleWhen.value.equals.List? && !fields[i].visibleWhen.value.equals.Missing?
  {
    SoundFields(fields, i);
    hide Sound, FieldOk;
  }

  // ---- What an answer must be -------------------------------------------------------------------

  lemma TrimsToNothing(s: string)
    ensures Trim(s) == "" <==> forall i :: 0 <= i < |s| ==> IsSpace(s[i])
  {
    hide IsSpace, Trim;
    TrimMeans(s);
    var a, b :| 0 <= a <= b <= |s| && Trim(s) == s[a..b] && Outside(s, a, b);
    if Trim(s) != "" { assert s[a] == Trim(s)[0]; }
  }

  /** Nothing, white space alone and an empty list are no answer. */
  lemma BlankMeans(v: Value)
    ensures IsBlank(v) <==>
              || v == Missing || v == List([])
              || (v.Str? && forall i :: 0 <= i < |v.text| ==> IsSpace(v.text[i]))
  {
    if v.Str? { TrimsToNothing(v.text); }
  }

  predicate IsOption(f: Field, v: Value) {
    v.Str? && f.options.Some? && exists k :: 0 <= k < |f.options.value| && f.options.value[k].value == v.text
  }

  /** What each kind of field takes. */
  predicate Suits(f: Field, v: Value, p: Patterns)
    requires f.kind.Some?
  {
    match f.kind.value
    case ShortText => v.Str? && |v.text| < 301
    case LongText => v.Str? && |v.text| < 50001
    case Choice => IsOption(f, v)
    case MultiChoice =>
      && v.List?
      && (forall i :: 0 <= i < |v.items| ==> IsOption(f, v.items[i]))
      && (forall i, j :: 0 <= i < j < |v.items| ==> v.items[i] != v.items[j])
    case Date => v.Str? && p.isDate(v.text)
    case Number => v.Num?
    case Boolean => v.Flag?
    case CiPicker => v.Str? && p.isUuid(v.text)
    case ContactPicker => v.Str? && p.isUuid(v.text)
    case Urgency => v in {Str("high"), Str("medium"), Str("low")}
    case Impact => v in {Str("high"), Str("medium"), Str("low")}
    case Attachment =>
      v.List? && |v.items| < 21 && forall i :: 0 <= i < |v.items| ==> v.items[i].Str? && p.isUuid(v.items[i].text)
  }

  lemma OptionMeans(f: Field, v: Value)
    ensures IsOption(f, v) <==> v.Str? && v.text in OptionValues(f)
  {
    if f.options.Some? {
      var values := OptionValues(f);
      assert |values| == |f.options.value| && forall k :: 0 <= k < |values| ==> values[k] == f.options.value[k].value;
    }
  }

  /** All items are texts among the values and in none of those seen, and no two are the same. */
  predicate Picks(items: seq<Value>, values: seq<string>, seen: set<string>) {
    && (forall i :: 0 <= i < |items| ==> items[i].Str? && items[i].text in values && items[i].text !in seen)
    && (forall i, j :: 0 <= i < j < |items| ==> items[i] != items[j])
  }

  lemma {:induction false} ItemsMean(items: seq<Value>, values: seq<string>, seen: set<string>)
    ensures ItemsProblem(items, values, seen).None? <==> Picks(items, values, seen)
    decreases |items|
  {
    if items != [] && items[0].Str? {
      var first, rest := items[0].text, items[1..];
      ItemsMean(rest, values, seen + {first});
      assert items == [items[0]] + rest;
      if Picks(items, values, seen) { PicksRest(items, values, seen); }
      if Picks(rest, values, seen + {first}) && first in values && first !in seen {
        forall i, j | 0 <= i < j < |items| ensures items[i] != items[j] {
          if i == 0 { assert rest[j - 1].text != first; } else { assert rest[i - 1] != rest[j - 1]; }
        }
      }
    }
  }

  function TextsOf(items: seq<Value>): set<string> { set i | 0 <= i < |items| && items[i].Str? :: items[i].text }

  function ValuesOf(values: seq<string>): set<string> { set i | 0 <= i < |values| :: values[i] }

  lemma {:induction false} ValuesCount(values: seq<string>)
    ensures |ValuesOf(values)| <= |values|
  {
    if values != [] {
      var n := |values| - 1;
      ValuesCount(values[..n]);
      assert ValuesOf(values) == ValuesOf(values[..n]) + {values[n]};
    }
  }

  lemma {:induction false} PicksCount(items: seq<Value>, values: seq<string>)
    requires Picks(items, values, {})
    ensures |TextsOf(items)| == |items| && TextsOf(items) <= ValuesOf(values)
  {
    if items != [] {
      var n := |items| - 1;
      PicksCount(items[..n], values);
      assert TextsOf(items) == TextsOf(items[..n]) + {items[n].text};
      assert items[n].text !in TextsOf(items[..n]) by {
        forall i | 0 <= i < n ensures items[i].text != items[n].text { assert items[i] != items[n]; }
      }
    }
  }

  lemma PicksFit(items: seq<Value>, values: seq<string>)
    requires Picks(items, values, {})
    ensures |items| <= |values|
  {
    PicksCount(items, values);
    ValuesCount(values);
    var a, b := TextsOf(items), ValuesOf(values);
    assert b == a + (b - a);
  }

  /** An answer is taken exactly when it suits the kind of the field. */
  lemma TakenMeans(f: Field, v: Value, p: Patterns)
    requires f.kind.Some?
    ensures KindProblem(f, v, p).None? <==> Suits(f, v, p)
  {
    hide IsOption;
    OptionMeans(f, v);
    if f.kind == Some(MultiChoice) && v.List? {
      forall i | 0 <= i < |v.items| ensures IsOption(f, v.items[i]) <==> v.items[i].Str? && v.items[i].text in OptionValues(f) {
        OptionMeans(f, v.items[i]);
      }
      ItemsMean(v.items, OptionValues(f), {});
      if Picks(v.items, OptionValues(f), {}) { PicksFit(v.items, OptionValues(f)); }
      hide ItemsProblem, OptionValues;
    } else {
      hide ItemsProblem;
    }
  }

  /** Item `i` is the first that is no option, and no option is repeated before it. */
  predicate FirstNoOption(items: seq<Value>, i: nat, values: seq<string>)
    requires i < |items|
  {
    Picks(items[..i], values, {}) && !(items[i].Str? && items[i].text in values)
  }

  lemma {:induction false} ItemsCode(items: seq<Value>, values: seq<string>, i: nat)
    requires i < |items| && Picks(items[..i], values, {})
    ensures !(items[i].Str? && items[i].text in values) ==> ItemsProblem(items, values, {}) == Some(NotAnOption)
    ensures items[i].Str? && items[i].text in values && items[i].text in TextsOf(items[..i]) ==>
              ItemsProblem(items, values, {}) == Some(BadValue)
  {
    assert items == items[..i] + items[i..];
    ItemsGoOn(items[..i], items[i..], values, {});
    assert {} + TextsOf(items[..i]) == TextsOf(items[..i]);
  }

  lemma {:induction false} ItemsGoOn(first: seq<Value>, more: seq<Value>, values: seq<string>, seen: set<string>)
    requires Picks(first, values, seen)
    ensures ItemsProblem(first + more, values, seen) == ItemsProblem(more, values, seen + TextsOf(first))
    decreases |first|
  {
    if first == [] {
      assert first + more == more && seen + TextsOf(first) == seen;
    } else {
      var text, rest := first[0].text, first[1..];
      assert (first + more)[1..] == rest + more && (first + more)[0] == first[0];
      PicksRest(first, values, seen);
      hide Picks;
      ItemsGoOn(rest, more, values, seen + {text});
      TextsFirst(first);
      hide TextsOf;
      assert seen + ({text} + TextsOf(rest)) == seen + {text} + TextsOf(rest);
    }
  }

  lemma PicksRest(items: seq<Value>, values: seq<string>, seen: set<string>)
    requires items != [] && Picks(items, values, seen)
    ensures Picks(items[1..], values, seen + {items[0].text}) && items[0].Str?
            && items[0].text in values && items[0].text !in seen
  {
    var rest := items[1..];
    forall i | 0 <= i < |rest| ensures rest[i].Str? && rest[i].text in values && rest[i].text !in seen + {items[0].text} {
      assert rest[i] == items[i + 1] && items[0] != items[i + 1];
    }
    forall i, j | 0 <= i < j < |rest| ensures rest[i] != rest[j] { assert items[i + 1] != items[j + 1]; }
  }

  lemma TextsFirst(items: seq<Value>)
    requires items != [] && items[0].Str?
    ensures TextsOf(items) == {items[0].text} + TextsOf(items[1..])
  {
    assert items == [items[0]] + items[1..];
  }

  lemma {:induction false} FirstProblem(items: seq<Value>, values: seq<string>, n: nat) returns (i: nat)
    requires n <= |items| && !Picks(items[..n], values, {})
    ensures i < n && Picks(items[..i], values, {})
    ensures items[i].Str? && items[i].text in values ==> items[i].text in TextsOf(items[..i])
  {
    i := n - 1;
    if !Picks(items[..i], values, {}) {
      i := FirstProblem(items, values, i);
    } else if items[i].Str? && items[i].text in values && items[i].text !in TextsOf(items[..i]) {
      forall j | 0 <= j < i ensures items[j] != items[i] { assert items[..i][j] == items[j]; }
      forall j, k | 0 <= j < k < i ensures items[j] != items[k] {
        assert items[..i][j] != items[..i][k];
      }
      forall j | 0 <= j < n ensures items[j].Str? && items[j].text in values {
        if j < i { assert items[..i][j] == items[j]; }
      }
    }
  }

  /** An answer refused as no option is a wrong choice, or in a list short enough an item that is none before any is repeated. */
  lemma CodeMeans(f: Field, v: Value, p: Patterns)
    requires f.kind.Some? && !Suits(f, v, p)
    ensures var code := KindProblem(f, v, p);
            && (code == Some(NotAnOption) || code == Some(BadValue))
            && (f.kind.value.Choice? ==> code == Some(NotAnOption))
            && (!f.kind.value.Choice? && !f.kind.value.MultiChoice? ==> code == Some(BadValue))
            && (f.kind.value.MultiChoice? && (!v.List? || |v.items| > |OptionValues(f)|) ==> code == Some(BadValue))
            && (f.kind.value.MultiChoice? && v.List? && |v.items| <= |OptionValues(f)| ==>
                  (code == Some(NotAnOption) <==> exists i :: 0 <= i < |v.items| && FirstNoOption(v.items, i, OptionValues(f))))
  {
    TakenMeans(f, v, p);
    KindCodes(f, v, p);
    hide Suits;
    if f.kind.value.MultiChoice? && v.List? && |v.items| <= |OptionValues(f)| {
      ItemsMean(v.items, OptionValues(f), {});
      assert v.items[..|v.items|] == v.items;
      var i := FirstProblem(v.items, OptionValues(f), |v.items|);
      ItemsCode(v.items, OptionValues(f), i);
      if KindProblem(f, v, p) == Some(NotAnOption) { assert FirstNoOption(v.items, i, OptionValues(f)); }
      forall j | 0 <= j < |v.items| && FirstNoOption(v.items, j, OptionValues(f))
        ensures KindProblem(f, v, p) == Some(NotAnOption)
      {
        ItemsCode(v.items, OptionValues(f), j);
      }
    }
  }

  /** A condition may want what its controller can be answered with: of a list one of the options in it. */
  lemma ConditionValueMeans(controller: Field, wanted: Value, p: Patterns)
    requires controller.kind.Some? && Conditionable(controller.kind.value)
    ensures ConditionValueAllowed(controller, wanted)
            <==> if controller.kind.value.MultiChoice? then IsOption(controller, wanted) else Suits(controller, wanted, p)
  {
    hide IsOption, OptionValues;
    OptionMeans(controller, wanted);
  }

  /** A key is up to 61 small letters, digits and underscores, a letter first. */
  lemma KeyMeans(key: string)
    ensures UsableKey(key) <==>
              && 0 < |key| < 62 && key != "constructor" && Letter(key[0])
              && forall i :: 0 <= i < |key| ==> Letter(key[i]) || LaterOnly(key[i])
  {
    forall c: char ensures ('a' <= c <= 'z' <==> Letter(c)) && (KeyChar(c) <==> Letter(c) || LaterOnly(c)) { CharMeans(c); }
    hide Letter, LaterOnly, KeyChar;
  }

  lemma CharMeans(c: char)
    ensures 'a' <= c <= 'z' <==> Letter(c)
    ensures KeyChar(c) <==> Letter(c) || LaterOnly(c)
  {
  }

  predicate LaterOnly(c: char) { c in "0123456789_" }

  predicate Letter(c: char) { c in "abcdefghijklmnopqrstuvwxyz" }

  /** A caption is no more than 160 characters and not all white space. */
  lemma LabelMeans(caption: string)
    ensures LabelOk(caption) <==> |caption| <= 160 && exists i :: 0 <= i < |caption| && !IsSpace(caption[i])
  {
    TrimsToNothing(caption);
  }

  // ---- Answers to no field ----------------------------------------------------------------

  lemma {:induction false} UnknownMeans(fields: seq<Field>, sent: seq<string>, key: string)
    ensures key in Unknown(fields, sent) <==> key in sent && forall i :: 0 <= i < |fields| ==> fields[i].key != key
  {
    if sent != [] {
      var n := |sent| - 1;
      UnknownMeans(fields, sent[..n], key);
      assert sent == sent[..n] + [sent[n]];
      assert Known(fields, key) <==> !(forall i :: 0 <= i < |fields| ==> fields[i].key != key);
    }
  }

  /** The first fifty are reported, and that there are more. */
  lemma ReportedMeans(unknown: seq<string>)
    ensures var problems := UnknownProblems(unknown);
            && |problems| == (if |unknown| < 51 then |unknown| else 51)
            && (forall i :: 0 <= i < |unknown| && i < 50 ==> problems[i] == Problem(unknown[i], UnknownField))
            && (|unknown| > 50 ==> problems[50] == Problem("answers", TooManyUnknownFields))
  {
  }

  // ---- Storing ------------------------------------------------------------------------

  /** What a target holds. */
  function Stored(r: Result, target: string): Option<Value> {
    if IsCustom(target) then
      (if target[|CUSTOM|..] in r.custom then Some(r.custom[target[|CUSTOM|..]]) else None)
    else if target in r.columns then Some(r.columns[target]) else None
  }

  lemma CustomTargets(s: string, t: string)
    requires IsCustom(s) && IsCustom(t) && s[|CUSTOM|..] == t[|CUSTOM|..]
    ensures s == t
  {
    assert s == s[..|CUSTOM|] + s[|CUSTOM|..] && t == t[..|CUSTOM|] + t[|CUSTOM|..];
  }

  /** Asking one more field changes only what its own target holds, and that when its answer is taken. */
  lemma AskStores(r: Result, f: Field, answers: map<string, Value>, p: Patterns, target: string)
    requires FieldOk(f)
    ensures var taken := Shown(f, r.visible) && !IsBlank(Sent(answers, f.key)) && KindProblem(f, Sent(answers, f.key), p).None?;
            Stored(Ask(r, f, answers, p), target)
            == if taken && f.mapsTo == target then Some(Sent(answers, f.key)) else Stored(r, target)
  {
    hide KindProblem, IsBlank, Shown, FieldOk;
    assert TargetOk(f.kind.value, f.mapsTo) && f.kind.Some? by { TargetFits(f); }
    if IsCustom(f.mapsTo) && IsCustom(target) && f.mapsTo[|CUSTOM|..] == target[|CUSTOM|..] {
      CustomTargets(f.mapsTo, target);
    }
  }

  lemma TargetFits(f: Field)
    requires FieldOk(f)
    ensures f.kind.Some? && TargetOk(f.kind.value, f.mapsTo)
  {}

  /** The answer to field `i` is taken, and `target` is where it goes. */
  predicate Takes(fields: seq<Field>, i: nat, answers: map<string, Value>, p: Patterns, target: string)
    requires i < |fields|
  {
    Accepted(fields, i, answers, p) && fields[i].mapsTo == target
  }

  lemma StoresNext(fields: seq<Field>, n: nat, answers: map<string, Value>, p: Patterns, target: string)
    requires n < |fields| && FieldOk(fields[n])
    ensures Stored(At(fields, n + 1, answers, p), target)
            == if Takes(fields, n, answers, p, target) then Some(Sent(answers, fields[n].key))
               else Stored(At(fields, n, answers, p), target)
  {
    AskNext(fields, n, answers, p);
    AskStores(At(fields, n, answers, p), fields[n], answers, p, target);
    hide At, KindProblem, IsBlank, Shown, Ask, Stored, FieldOk;
  }

  /** A target holds an answer exactly when a field that maps there was accepted, and then that field's own. */
  lemma {:induction false} AnswersStoredOnce(
    fields: seq<Field>, n: nat, answers: map<string, Value>, p: Patterns, target: string)
    requires Sound(fields) && n <= |fields|
    ensures forall i :: 0 <= i < n && Takes(fields, i, answers, p, target) ==>
              Stored(At(fields, n, answers, p), target) == Some(Sent(answers, fields[i].key))
    ensures Stored(At(fields, n, answers, p), target).Some? ==>
              exists i :: 0 <= i < n && Takes(fields, i, answers, p, target)
  {
    if n > 0 {
      hide At, Takes, Stored, Sound, FieldOk, ConditionOk, Sent;
      AnswersStoredOnce(fields, n - 1, answers, p, target);
      SoundFields(fields, n - 1);
      StoresNext(fields, n - 1, answers, p, target);
      TakesMapped(fields, answers, p, target);
    }
  }

  lemma TakesMapped(fields: seq<Field>, answers: map<string, Value>, p: Patterns, target: string)
    ensures forall i :: 0 <= i < |fields| && Takes(fields, i, answers, p, target) ==> fields[i].mapsTo == target
  {}

  /** The columns of a ticket that a kind of field may fill. */
  const WRITABLE: set<(Kind, string)> := {
    (ShortText, "short_description"), (ShortText, "category"), (LongText, "description"), (Choice, "category"),
    (CiPicker, "configuration_item_id"), (Urgency, "urgency"), (Impact, "impact")
  }

  lemma TargetMeans(kind: Kind, target: string)
    ensures target in Columns(kind) <==> (kind, target) in WRITABLE
    ensures TargetOk(kind, target) <==>
              if "custom." <= target then KeyShape(target[7..]) else (kind, target) in WRITABLE
  {
  }

  /** A sound form never finds a target it may not write, and writes only columns its kinds allow. */
  lemma {:induction false} OnlyAllowedColumns(fields: seq<Field>, n: nat, answers: map<string, Value>, p: Patterns)
    requires Sound(fields) && n <= |fields|
    ensures forall x :: x in At(fields, n, answers, p).problems ==> x.code != BadMapsTo
    ensures forall c :: c in At(fields, n, answers, p).columns ==>
              exists i :: 0 <= i < n && fields[i].mapsTo == c && fields[i].kind.Some? && (fields[i].kind.value, c) in WRITABLE
  {
    if n > 0 {
      OnlyAllowedColumns(fields, n - 1, answers, p);
      AskNext(fields, n - 1, answers, p);
      AskAllowed(At(fields, n - 1, answers, p), fields[n - 1], answers, p);
      hide At, Ask;
    }
  }

  lemma AskAllowed(r: Result, f: Field, answers: map<string, Value>, p: Patterns)
    requires FieldOk(f)
    ensures forall x :: x in Ask(r, f, answers, p).problems ==> x in r.problems || x.code != BadMapsTo
    ensures forall c :: c in Ask(r, f, answers, p).columns ==>
              c in r.columns || (c == f.mapsTo && f.kind.Some? && (f.kind.value, c) in WRITABLE)
  {
    TargetFits(f);
    TargetMeans(f.kind.value, f.mapsTo);
    hide IsBlank, Shown, FieldOk, Columns;
    KindCodes(f, Sent(answers, f.key), p);
    hide KindProblem;
  }

  lemma KindCodes(f: Field, answer: Value, p: Patterns)
    ensures KindProblem(f, answer, p) in {None, Some(BadValue), Some(NotAnOption)}
  {
    if answer.List? { ItemCodes(answer.items, OptionValues(f), {}); }
  }

  lemma {:induction false} ItemCodes(items: seq<Value>, values: seq<string>, seen: set<string>)
    ensures ItemsProblem(items, values, seen) in {None, Some(BadValue), Some(NotAnOption)}
    decreases |items|
  {
    if items != [] && items[0].Str? { ItemCodes(items[1..], values, seen + {items[0].text}); }
  }

  // ---- Hidden answers ---------------------------------------------------------------------

  /** The two bodies differ at most in what they send for one key. */
  ghost predicate AgreeBut(key: string, a: map<string, Value>, b: map<string, Value>) {
    forall k :: k != key ==> Sent(a, k) == Sent(b, k)
  }

  lemma {:induction false} HiddenAnswerIgnored(
    fields: seq<Field>, n: nat, key: string, a: map<string, Value>, b: map<string, Value>, p: Patterns)
    requires Sound(fields) && n <= |fields| && AgreeBut(key, a, b)
    requires key in AskAll(fields, a, p).hidden
    ensures At(fields, n, a, p) == At(fields, n, b, p)
  {
    if n > 0 {
      HiddenAnswerIgnored(fields, n - 1, key, a, b, p);
      AskNext(fields, n - 1, a, p);
      AskNext(fields, n - 1, b, p);
      SoundFields(fields, n - 1);
      hide Sound, FieldOk, ConditionOk, At, KindProblem, IsBlank;
      if fields[n - 1].key == key {
        VisibleMeansShown(fields, |fields|, a, p, key);
        AskDone(fields, a, p);
        var i :| 0 <= i < |fields| && fields[i].key == key && Hidden(fields, i, a, p);
        assert i == n - 1;
      } else {
        assert Sent(a, fields[n - 1].key) == Sent(b, fields[n - 1].key);
        hide Shown;
      }
    }
  }

  /** The keys sent, without one of them. */
  function WithoutKey(sent: seq<string>, key: string): seq<string> {
    if sent == [] then []
    else WithoutKey(sent[..|sent| - 1], key) + if sent[|sent| - 1] == key then [] else [sent[|sent| - 1]]
  }

  /** A key the form has is never among the unknown ones, wherever it is sent. */
  lemma {:induction false} KnownKeysIgnored(fields: seq<Field>, sent: seq<string>, key: string)
    requires Known(fields, key)
    ensures Unknown(fields, WithoutKey(sent, key)) == Unknown(fields, sent)
  {
    hide Known;
    if sent != [] {
      var n := |sent| - 1;
      KnownKeysIgnored(fields, sent[..n], key);
      var less := WithoutKey(sent[..n], key);
      if sent[n] == key {
        assert less + [] == less && Unknown(fields, sent[..n]) + [] == Unknown(fields, sent[..n]);
      } else {
        assert (less + [sent[n]])[..|less|] == less;
      }
    }
  }

  /** Exactly the keys of the answers, each once. */
  predicate Lists(sent: seq<string>, answers: map<string, Value>) {
    && answers.Keys == (set i | 0 <= i < |sent| :: sent[i])
    && forall i, j :: 0 <= i < j < |sent| ==> sent[i] != sent[j]
  }

  /** Whatever is sent for a hidden field, or that nothing is, changes neither what is stored nor what is refused. */
  lemma HiddenFieldsDoNotInterfere(
    fields: seq<Field>, key: string, a: map<string, Value>, b: map<string, Value>, p: Patterns,
    sentA: seq<string>, sentB: seq<string>)
    requires Sound(fields) && AgreeBut(key, a, b) && key in AskAll(fields, a, p).hidden
    requires Lists(sentA, a) && Lists(sentB, b) && WithoutKey(sentA, key) == WithoutKey(sentB, key)
    ensures Submitted(fields, a, sentA, p) == Submitted(fields, b, sentB, p)
  {
    HiddenAnswerIgnored(fields, |fields|, key, a, b, p);
    AskDone(fields, a, p);
    AskDone(fields, b, p);
    assert Known(fields, key) by {
      VisibleMeansShown(fields, |fields|, a, p, key);
      hide At, Sound, Hidden, AskAll;
    }
    hide At, Sound, AskAll, Unknown, Known, WithoutKey, Lists, UnknownProblems;
    KnownKeysIgnored(fields, sentA, key);
    KnownKeysIgnored(fields, sentB, key);
  }

  // ---- definitionProblems -----------------------------------------------------------------------

  method OptionProblems(f: Field) returns (problems: seq<Problem>)
    requires f.kind.Some?
    ensures problems == [] <==> OptionsOk(f)
  {
    problems := [];
    if f.kind == Some(Choice) || f.kind == Some(MultiChoice) {
      if f.options.None? || |f.options.value| == 0 || |f.options.value| > 50 {
        return [Problem(f.key, BadOptions)];
      }
      var options := f.options.value;
      var values: set<string> := {};
      for i := 0 to |options|
        invariant problems == [] <==> ProperOptions(options, i)
        invariant problems == [] ==> values == set j | 0 <= j < i :: options[j].value
      {
        var o := options[i];
        if |o.value| == 0 || |o.value| > 120 {
          problems := problems + [Problem(f.key, BadOption)];
        } else if o.value in values {
          problems := problems + [Problem(f.key, DuplicateOption)];
        } else {
          values := values + {o.value};
        }
        if !LabelOk(o.caption) { problems := problems + [Problem(f.key, BadOption)]; }
      }
    } else if f.options.Some? {
      problems := [Problem(f.key, OptionsNotAllowed)];
    }
  }

  /** The first `n` options are proper and no two of them share a value. */
  predicate ProperOptions(options: seq<FieldOption>, n: nat)
    requires n <= |options|
  {
    && (forall i :: 0 <= i < n ==> OptionOk(options[i]))
    && (forall i, j :: 0 <= i < j < n ==> options[i].value != options[j].value)
  }

  /** What the loop asks of one field alone, apart from its key and kind. */
  predicate ShapeOk(f: Field)
    requires f.kind.Some?
  {
    && LabelOk(f.caption) && (f.help.Some? ==> |f.help.value| <= 400)
    && OptionsOk(f) && f.mapsTo != "" && TargetOk(f.kind.value, f.mapsTo)
  }

  /** The first `n` fields are sound one by one and distinct. */
  predicate PrefixOk(fields: seq<Field>, n: nat)
    requires n <= |fields|
  {
    && (forall i :: 0 <= i < n ==>
          UsableKey(fields[i].key) && fields[i].kind.Some? && ShapeOk(fields[i]) && ConditionOk(fields, i))
    && (forall i, j :: 0 <= i < j < n ==> fields[i].key != fields[j].key && fields[i].mapsTo != fields[j].mapsTo)
  }

  /** What the loop remembers, while it has found no problem. */
  predicate Remembers(
    fields: seq<Field>, n: nat, seenKeys: set<string>, seenTargets: set<string>, byKey: map<string, Field>, kept: seq<Field>)
    requires n <= |fields|
  {
    && seenKeys == byKey.Keys && kept == fields[..n]
    && ByKeyHolds(fields, n, byKey)
    && seenTargets == (set i | 0 <= i < n :: fields[i].mapsTo)
  }

  predicate ByKeyHolds(fields: seq<Field>, n: nat, byKey: map<string, Field>)
    requires n <= |fields|
  {
    && byKey.Keys == (set i | 0 <= i < n :: fields[i].key)
    && forall i :: 0 <= i < n ==> fields[i].key in byKey && byKey[fields[i].key] == fields[i]
  }

  /** The condition of field `n`, checked against the fields before it. */
  predicate ConditionFits(f: Field, byKey: map<string, Field>) {
    f.visibleWhen.Some? ==>
      var c := f.visibleWhen.value;
      && c.field in byKey && c.field != f.key
      && byKey[c.field].kind.Some? && Conditionable(byKey[c.field].kind.value)
      && ConditionValueAllowed(byKey[c.field], c.equals)
  }

  lemma ConditionChecked(fields: seq<Field>, n: nat, byKey: map<string, Field>)
    requires n < |fields| && ByKeyHolds(fields, n, byKey) && fields[n].key !in byKey
    ensures ConditionFits(fields[n], byKey[fields[n].key := fields[n]]) <==> ConditionOk(fields, n)
  {
    hide Conditionable, ConditionValueAllowed;
    if fields[n].visibleWhen.Some? {
      var c := fields[n].visibleWhen.value;
      if c.field in byKey {
        var j :| 0 <= j < n && fields[j].key == c.field;
        assert byKey[c.field] == fields[j];
      }
    }
  }

  /** What is wrong with a field of a known kind; `byKey` has the fields up to and with it. */
  method FieldProblems(f: Field, seenTargets: set<string>, byKey: map<string, Field>) returns (problems: seq<Problem>)
    requires f.kind.Some?
    ensures problems == [] <==>
              ShapeOk(f) && (f.mapsTo != "" ==> f.mapsTo !in seenTargets) && ConditionFits(f, byKey)
  {
    hide LabelOk, TargetOk, OptionsOk, ConditionFits;
    problems := [];
    if !LabelOk(f.caption) { problems := problems + [Problem(f.key, BadLabel)]; }
    if f.help.Some? && |f.help.value| > 400 { problems := problems + [Problem(f.key, BadHelp)]; }
    var options := OptionProblems(f);
    problems := problems + options;
    if f.mapsTo == "" {
      problems := problems + [Problem(f.key, MissingMapsTo)];
    } else if !TargetOk(f.kind.value, f.mapsTo) {
      problems := problems + [Problem(f.key, BadMapsTo)];
    }
    if f.mapsTo != "" && f.mapsTo in seenTargets { problems := problems + [Problem(f.key, DuplicateMapsTo)]; }
    if !ConditionFits(f, byKey) { problems := problems + [Problem(f.key, BadCondition)]; }
  }

  /** The next field passes, given what the loop remembers of those before it. */
  predicate Fits(f: Field, seenKeys: set<string>, seenTargets: set<string>, byKey: map<string, Field>) {
    && UsableKey(f.key) && f.key !in seenKeys && f.kind.Some? && ShapeOk(f) && f.mapsTo !in seenTargets
    && ConditionFits(f, byKey[f.key := f])
  }

  lemma PrefixNext(
    fields: seq<Field>, n: nat, seenKeys: set<string>, seenTargets: set<string>, byKey: map<string, Field>, kept: seq<Field>)
    requires n < |fields| && Remembers(fields, n, seenKeys, seenTargets, byKey, kept)
    ensures PrefixOk(fields, n + 1) <==> PrefixOk(fields, n) && Fits(fields[n], seenKeys, seenTargets, byKey)
    ensures fields[n].key !in seenKeys ==>
              Remembers(fields, n + 1, seenKeys + {fields[n].key}, seenTargets + {fields[n].mapsTo},
                        byKey[fields[n].key := fields[n]], kept + [fields[n]])
  {
    hide UsableKey, ShapeOk, ConditionFits, ConditionOk;
    if fields[n].key !in seenKeys { ConditionChecked(fields, n, byKey); }
  }

  lemma PrefixShrinks(fields: seq<Field>, n: nat)
    requires n < |fields| && PrefixOk(fields, n + 1)
    ensures PrefixOk(fields, n)
  {}

  /** No problem is reported exactly for a sound definition. */
  method DefinitionProblems(fields: seq<Field>) returns (problems: seq<Problem>)
    ensures problems == [] <==> Sound(fields)
  {
    problems := [];
    if |fields| == 0 { problems := problems + [Problem("fields", Empty)]; }
    if |fields| > MAX_FIELDS { return [Problem("fields", TooMany)]; }
    hide PrefixOk, Remembers, UsableKey, ShapeOk, ConditionFits, Sound;
    var seenKeys: set<string> := {};
    var seenTargets: set<string> := {};
    var byKey: map<string, Field> := map[];
    var kept: seq<Field> := [];
    NothingYet(fields);
    for i := 0 to |fields|
      invariant |problems| == 0 <==> |fields| != 0 && PrefixOk(fields, i)
      invariant |problems| == 0 ==> Remembers(fields, i, seenKeys, seenTargets, byKey, kept)
    {
      var field := fields[i];
      if |problems| == 0 {
        PrefixNext(fields, i, seenKeys, seenTargets, byKey, kept);
      } else if PrefixOk(fields, i + 1) {
        PrefixShrinks(fields, i);
      }
      if !UsableKey(field.key) {
        problems := problems + [Problem(field.key, BadKey)];
        continue;
      }
      if field.key in seenKeys {
        problems := problems + [Problem(field.key, DuplicateKey)];
        continue;
      }
      seenKeys := seenKeys + {field.key};
      if field.kind.None? {
        problems := problems + [Problem(field.key, BadKind)];
        continue;
      }
      byKey := byKey[field.key := field];
      kept := kept + [field];
      var found := FieldProblems(field, seenTargets, byKey);
      problems := problems + found;
      TargetNeeded(field);
      if field.mapsTo != "" { seenTargets := seenTargets + {field.mapsTo}; }
    }
    assert problems == [] ==> kept == fields by {
      if problems == [] { AllKept(fields, seenKeys, seenTargets, byKey, kept); }
    }
    var formWide := FormWideProblems(kept);
    PrefixIsSound(fields);
    problems := problems + formWide;
  }

  lemma NothingYet(fields: seq<Field>)
    ensures PrefixOk(fields, 0) && Remembers(fields, 0, {}, {}, map[], [])
  {}

  lemma AllKept(
    fields: seq<Field>, seenKeys: set<string>, seenTargets: set<string>, byKey: map<string, Field>, kept: seq<Field>)
    requires Remembers(fields, |fields|, seenKeys, seenTargets, byKey, kept)
    ensures kept == fields
  {}

  lemma TargetNeeded(f: Field)
    requires f.kind.Some?
    ensures ShapeOk(f) ==> f.mapsTo != ""
  {}

  /** Across the form: one attachment at most and not required, urgency and impact together. */
  predicate FormWideOk(fields: seq<Field>) {
    && OneAttachment(fields, |fields|) && NoneRequired(fields, |fields|)
    && (HasKind(fields, Urgency) <==> HasKind(fields, Impact))
  }

  predicate OneAttachment(fields: seq<Field>, n: nat)
    requires n <= |fields|
  {
    forall i, j :: 0 <= i < j < n ==> !(fields[i].kind == Some(Attachment) && fields[j].kind == Some(Attachment))
  }

  predicate NoneRequired(fields: seq<Field>, n: nat)
    requires n <= |fields|
  {
    forall i :: 0 <= i < n ==> !(fields[i].required && fields[i].kind == Some(Attachment))
  }

  method FormWideProblems(fields: seq<Field>) returns (problems: seq<Problem>)
    ensures problems == [] <==> FormWideOk(fields)
  {
    problems := [];
    var attachments := 0;
    ghost var first := 0;
    for i := 0 to |fields|
      invariant attachments == 0 <==> forall j :: 0 <= j < i ==> fields[j].kind != Some(Attachment)
      invariant attachments > 0 ==> 0 <= first < i && fields[first].kind == Some(Attachment)
      invariant attachments <= 1 <==> OneAttachment(fields, i)
    {
      if fields[i].kind == Some(Attachment) {
        if attachments == 0 { first := i; }
        attachments := attachments + 1;
      }
    }
    if attachments > 1 { problems := problems + [Problem("fields", TooManyAttachments)]; }
    if HasKind(fields, Urgency) != HasKind(fields, Impact) {
      problems := problems + [Problem("fields", UrgencyImpactPair)];
    }
    for i := 0 to |fields|
      invariant problems == [] <==>
                  && attachments <= 1 && (HasKind(fields, Urgency) <==> HasKind(fields, Impact))
                  && NoneRequired(fields, i)
    {
      if fields[i].required && fields[i].kind == Some(Attachment) {
        problems := problems + [Problem(fields[i].key, RequiredAttachment)];
      }
    }
  }

  lemma PrefixIsSound(fields: seq<Field>)
    requires |fields| <= MAX_FIELDS
    ensures Sound(fields) <==> fields != [] && PrefixOk(fields, |fields|) && FormWideOk(fields)
  {
    hide UsableKey, LabelOk, OptionsOk, TargetOk, ConditionOk, HasKind;
    if Sound(fields) {
      forall i | 0 <= i < |fields| ensures FieldOk(fields[i]) && ConditionOk(fields, i) {}
    }
  }
}

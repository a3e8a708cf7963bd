/**
 * Request forms: what makes a definition sound, and where a submission's answers go. What a
 * condition hides is not part of either.
 */
module Forms {
  import opened Wrappers
  import opened Text

  datatype Kind =
    | ShortText | LongText | Choice | MultiChoice | Date | Number | Boolean
    | CiPicker | ContactPicker | Urgency | Impact | Attachment

  /** What a client may send for a field. */
  datatype Value = Missing | Str(text: string) | Num(n: int) | Flag(b: bool) | List(items: seq<Value>) | Other

  datatype FieldOption = FieldOption(value: string, caption: string)

  datatype Condition = Condition(field: string, equals: Value)

  /** `kind` is None for a name outside the closed vocabulary. */
  datatype Field = Field(
    key: string,
    kind: Option<Kind>,
    caption: string,
    help: Option<string>,
    required: bool,
    options: Option<seq<FieldOption>>,
    visibleWhen: Option<Condition>,
    mapsTo: string
  )

  datatype Code =
    | Empty | TooMany | BadKey | DuplicateKey | BadKind | BadLabel | BadHelp | BadOptions | BadOption | DuplicateOption
    | OptionsNotAllowed | MissingMapsTo | BadMapsTo | DuplicateMapsTo | BadCondition | TooManyAttachments
    | UrgencyImpactPair | RequiredAttachment
    | Required | BadValue | NotAnOption | UnknownField | TooManyUnknownFields

  datatype Problem = Problem(field: string, code: Code)

  /** The date and identifier patterns, as the runtime decides them. */
  datatype Patterns = Patterns(isDate: string -> bool, isUuid: string -> bool)

  const MAX_FIELDS := 60
  const MAX_LABEL := 160
  const MAX_PROBLEMS := 50
  const CUSTOM := "custom."
  const LEVELS: set<string> := {"high", "medium", "low"}

  // ---- Vocabulary ------------------------------------------------------------------

  predicate KeyChar(c: char) { 'a' <= c <= 'z' || '0' <= c <= '9' || c == '_' }

  predicate KeyShape(key: string) {
    0 < |key| <= 61 && 'a' <= key[0] <= 'z' && forall i :: 0 <= i < |key| ==> KeyChar(key[i])
  }

  /** `constructor` is a name every object answers to. */
  predicate UsableKey(key: string) { KeyShape(key) && key != "constructor" }

  function Columns(kind: Kind): set<string> {
    match kind
    case ShortText => {"short_description", "category"}
    case LongText => {"description"}
    case Choice => {"category"}
    case CiPicker => {"configuration_item_id"}
    case Urgency => {"urgency"}
    case Impact => {"impact"}
    case _ => {}
  }

  predicate IsCustom(target: string) {
    |CUSTOM| <= |target| && target[..|CUSTOM|] == CUSTOM
  }

  predicate TargetOk(kind: Kind, target: string) {
    if IsCustom(target) then KeyShape(target[|CUSTOM|..]) else target in Columns(kind)
  }

  predicate Conditionable(kind: Kind) {
    kind.Choice? || kind.MultiChoice? || kind.Boolean? || kind.Urgency? || kind.Impact?
  }

  function OptionValues(f: Field): seq<string> {
    if f.options.None? then [] else seq(|f.options.value|, i requires 0 <= i < |f.options.value| => f.options.value[i].value)
  }

  predicate ConditionValueAllowed(controller: Field, equals: Value) {
    match controller.kind
    case Some(Boolean) => equals.Flag?
    case Some(Urgency) => equals.Str? && equals.text in LEVELS
    case Some(Impact) => equals.Str? && equals.text in LEVELS
    case _ => equals.Str? && equals.text in OptionValues(controller)
  }

  // ---- Sound definitions -------------------------------------------------------------

  predicate LabelOk(caption: string) { Trim(caption) != "" && |caption| <= MAX_LABEL }

  predicate OptionOk(o: FieldOption) { 0 < |o.value| <= 120 && LabelOk(o.caption) }

  predicate OptionsOk(f: Field) {
    if f.kind == Some(Choice) || f.kind == Some(MultiChoice) then
      && f.options.Some? && 0 < |f.options.value| <= 50
      && (forall i :: 0 <= i < |f.options.value| ==> OptionOk(f.options.value[i]))
      && (forall i, j :: 0 <= i < j < |f.options.value| ==> f.options.value[i].value != f.options.value[j].value)
    else f.options.None?
  }

  /** What a field needs by itself. */
  predicate FieldOk(f: Field) {
    && UsableKey(f.key) && f.kind.Some? && LabelOk(f.caption)
    && (f.help.Some? ==> |f.help.value| <= 400)
    && OptionsOk(f)
    && f.mapsTo != "" && TargetOk(f.kind.value, f.mapsTo)
    && !(f.required && f.kind.value.Attachment?)
  }

  /** The controlling field comes before this one and can be answered with the value. */
  predicate ConditionOk(fields: seq<Field>, i: nat)
    requires i < |fields|
  {
    fields[i].visibleWhen.Some? ==>
      var c := fields[i].visibleWhen.value;
      exists j :: 0 <= j < i && fields[j].key == c.field && fields[j].kind.Some?
                  && Conditionable(fields[j].kind.value) && ConditionValueAllowed(fields[j], c.equals)
  }

  predicate HasKind(fields: seq<Field>, kind: Kind) {
    exists i :: 0 <= i < |fields| && fields[i].kind == Some(kind)
  }

  predicate Sound(fields: seq<Field>) {
    && 0 < |fields| <= MAX_FIELDS
    && (forall i :: 0 <= i < |fields| ==> FieldOk(fields[i]) && ConditionOk(fields, i))
    && (forall i, j :: 0 <= i < j < |fields| ==>
          && fields[i].key != fields[j].key
          && fields[i].mapsTo != fields[j].mapsTo
          && !(fields[i].kind == Some(Attachment) && fields[j].kind == Some(Attachment)))
    && (HasKind(fields, Urgency) <==> HasKind(fields, Impact))
  }

  // ---- Submissions -----------------------------------------------------------------------

  predicate IsBlank(v: Value) {
    match v
    case Missing => true
    case Str(text) => Trim(text) == ""
    case List(items) => items == []
    case _ => false
  }

  function KindProblem(f: Field, answer: Value, p: Patterns): Option<Code> {
    if f.kind.None? then None
    else
      match f.kind.value
      case ShortText => if answer.Str? && |answer.text| <= 300 then None else Some(BadValue)
      case LongText => if answer.Str? && |answer.text| <= 50000 then None else Some(BadValue)
      case Choice => if answer.Str? && answer.text in OptionValues(f) then None else Some(NotAnOption)
      case MultiChoice =>
        if !answer.List? || |answer.items| > |OptionValues(f)| then Some(BadValue)
        else ItemsProblem(answer.items, OptionValues(f), {})
      case Date => if answer.Str? && p.isDate(answer.text) then None else Some(BadValue)
      case Number => if answer.Num? then None else Some(BadValue)
      case Boolean => if answer.Flag? then None else Some(BadValue)
      case CiPicker => if answer.Str? && p.isUuid(answer.text) then None else Some(BadValue)
      case ContactPicker => if answer.Str? && p.isUuid(answer.text) then None else Some(BadValue)
      case Urgency => if answer.Str? && answer.text in LEVELS then None else Some(BadValue)
      case Impact => if answer.Str? && answer.text in LEVELS then None else Some(BadValue)
      case Attachment =>
        if answer.List? && |answer.items| <= 20
           && forall i :: 0 <= i < |answer.items| ==> answer.items[i].Str? && p.isUuid(answer.items[i].text)
        then None else Some(BadValue)
  }

  /** The first item that is no option, or repeats one. */
  function ItemsProblem(items: seq<Value>, values: seq<string>, seen: set<string>): Option<Code> {
    if items == [] then None
    else if !items[0].Str? || items[0].text !in values then Some(NotAnOption)
    else if items[0].text in seen then Some(BadValue)
    else ItemsProblem(items[1..], values, seen + {items[0].text})
  }

  predicate ConditionHolds(c: Condition, visible: map<string, Value>) {
    && c.field in visible
    && if visible[c.field].List? then c.equals in visible[c.field].items else visible[c.field] == c.equals
  }

  predicate Shown(f: Field, visible: map<string, Value>) {
    f.visibleWhen.None? || ConditionHolds(f.visibleWhen.value, visible)
  }

  predicate ColumnAllowed(f: Field) {
    f.kind.Some? && f.mapsTo in Columns(f.kind.value)
  }

  /** What has been found so far; `visible` holds the answers of the fields shown, Missing where none was taken. */
  datatype Result = Result(
    problems: seq<Problem>,
    columns: map<string, Value>,
    custom: map<string, Value>,
    hidden: seq<string>,
    visible: map<string, Value>
  )

  const NOTHING := Result([], map[], map[], [], map[])

  function Sent(answers: map<string, Value>, key: string): Value {
    if key in answers then answers[key] else Missing
  }

  /** One field of the form against the answers. */
  function Ask(r: Result, f: Field, answers: map<string, Value>, p: Patterns): Result {
    if !Shown(f, r.visible) then r.(hidden := r.hidden + [f.key])
    else
      var answer := Sent(answers, f.key);
      if IsBlank(answer) then
        r.(problems := r.problems + (if f.required then [Problem(f.key, Required)] else []),
           visible := r.visible[f.key := Missing])
      else if KindProblem(f, answer, p).Some? then
        r.(problems := r.problems + [Problem(f.key, KindProblem(f, answer, p).value)],
           visible := r.visible[f.key := Missing])
      else
        var seen := r.(visible := r.visible[f.key := answer]);
        if IsCustom(f.mapsTo) then seen.(custom := seen.custom[f.mapsTo[|CUSTOM|..] := answer])
        else if !ColumnAllowed(f) then seen.(problems := seen.problems + [Problem(f.key, BadMapsTo)])
        else seen.(columns := seen.columns[f.mapsTo := answer])
  }

  function AskAll(fields: seq<Field>, answers: map<string, Value>, p: Patterns): Result {
    if fields == [] then NOTHING
    else Ask(AskAll(fields[..|fields| - 1], answers, p), fields[|fields| - 1], answers, p)
  }

  predicate Known(fields: seq<Field>, key: string) {
    exists i :: 0 <= i < |fields| && fields[i].key == key
  }

  /** The keys sent that the form does not have, in the order sent. */
  function Unknown(fields: seq<Field>, sent: seq<string>): seq<string> {
    if sent == [] then []
    else Unknown(fields, sent[..|sent| - 1]) + if Known(fields, sent[|sent| - 1]) then [] else [sent[|sent| - 1]]
  }

  /** One problem each up to the cap, and one more for going over it. */
  function UnknownProblems(unknown: seq<string>): seq<Problem> {
    var listed := if |unknown| <= MAX_PROBLEMS then unknown else unknown[..MAX_PROBLEMS];
    seq(|listed|, i requires 0 <= i < |listed| => Problem(listed[i], UnknownField))
    + if |unknown| > MAX_PROBLEMS then [Problem("answers", TooManyUnknownFields)] else []
  }

  /** The whole result of a submission; `sent` lists the keys of the answers in the order they came. */
  function Submitted(fields: seq<Field>, answers: map<string, Value>, sent: seq<string>, p: Patterns): Result {
    var asked := AskAll(fields, answers, p);
    asked.(problems := asked.problems + UnknownProblems(Unknown(fields, sent)))
  }

  method ValidateSubmission(fields: seq<Field>, answers: map<string, Value>, sent: seq<string>, p: Patterns)
    returns (r: Result)
    ensures r == Submitted(fields, answers, sent, p)
  {
    hide KindProblem, IsBlank, ConditionHolds, ColumnAllowed, Known;
    r := NOTHING;
    for i := 0 to |fields|
      invariant r == AskAll(fields[..i], answers, p)
    {
      assert fields[..i + 1][..i] == fields[..i];
      var field := fields[i];
      if field.visibleWhen.Some? && !ConditionHolds(field.visibleWhen.value, r.visible) {
        r := r.(hidden := r.hidden + [field.key]);
        continue;
      }
      var answer := Sent(answers, field.key);
      if IsBlank(answer) {
        if field.required { r := r.(problems := r.problems + [Problem(field.key, Required)]); }
        r := r.(visible := r.visible[field.key := Missing]);
        continue;
      }
      var problem := KindProblem(field, answer, p);
      if problem.Some? {
        r := r.(problems := r.problems + [Problem(field.key, problem.value)]);
        r := r.(visible := r.visible[field.key := Missing]);
        continue;
      }
      r := r.(visible := r.visible[field.key := answer]);
      if IsCustom(field.mapsTo) {
        r := r.(custom := r.custom[field.mapsTo[|CUSTOM|..] := answer]);
        continue;
      }
      if !ColumnAllowed(field) {
        r := r.(problems := r.problems + [Problem(field.key, BadMapsTo)]);
        continue;
      }
      r := r.(columns := r.columns[field.mapsTo := answer]);
    }
    assert fields[..|fields|] == fields;
    var listed: seq<Problem> := [];
    var unknown := 0;
    for i := 0 to |sent|
      invariant unknown == |Unknown(fields, sent[..i])|
      invariant |listed| == (if unknown <= MAX_PROBLEMS then unknown else MAX_PROBLEMS)
      invariant forall j :: 0 <= j < |listed| ==> listed[j] == Problem(Unknown(fields, sent[..i])[j], UnknownField)
    {
      assert sent[..i + 1][..i] == sent[..i];
      var key := sent[i];
      if Known(fields, key) { continue; }
      unknown := unknown + 1;
      if unknown > MAX_PROBLEMS { continue; }
      listed := listed + [Problem(key, UnknownField)];
    }
    assert sent[..|sent|] == sent;
    if unknown > MAX_PROBLEMS { listed := listed + [Problem("answers", TooManyUnknownFields)]; }
    assert listed == UnknownProblems(Unknown(fields, sent));
    r := r.(problems := r.problems + listed);
  }
}

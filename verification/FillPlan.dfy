/**
  `buildPlan` (packages/fill-planner/src/plan.ts): which controls of a form are typed into,
  and which become questions for the person. The planner may refuse too often but may not
  invent: every typed value comes from one packet answer, and a choice is only ever an
  offered option.
*/
module FillPlan {
  import opened Common
  import opened FormShape

  datatype AnswerValue =
    | Words(words: string)
    | Amount(amount: real)
    | Flag(flag: bool)
    | Several(items: seq<string>)

  datatype Sensitivity = Standard | Sensitive | NeverReuse

  /** An answered question of the approved packet, as it travels to a fill client. */
  datatype FillField = FillField(questionKey: string, answer: AnswerValue, required: bool)

  datatype UnresolvedReason =
    | UnsupportedWidget | FileUploadBlocked | NeverInferable | NewQuestion | NeedsExactMapping | NoAnswer

  datatype UnresolvedField = UnresolvedField(
    questionKey: string, labelText: Option<string>, required: bool, reason: UnresolvedReason, options: seq<string>)

  datatype PlannedValue = PlannedValue(field: FormField, values: seq<string>, upload: bool)

  datatype Plan = Plan(values: seq<PlannedValue>, unresolved: seq<UnresolvedField>)

  /** The runtime's text operations and its rendering of numbers. */
  datatype Runtime = Runtime(text: Text, number: real -> string)

  // ---------------------------------------------------------------------------
  // Sensitivity
  // ---------------------------------------------------------------------------

  const NEVER_REUSE_LABEL_FRAGMENTS: seq<string> := [
    "gender", "race", "ethnic", "hispanic", "latino", "veteran", "disability", "disabled",
    "sexual orientation", "date of birth", "birth date", "social security", "ssn", "national id",
    "identity verification", "passport number", "driver's license", "assessment", "personality",
    "criminal", "background check", "medical", "pregnan", "religio", "pronoun", "age range", "self-identif"]

  const SENSITIVE_LABEL_FRAGMENTS: seq<string> := [
    "phone", "address", "salary", "compensation", "visa", "sponsor", "work authorization",
    "right to work", "notice period"]

  predicate IncludesAt(s: string, fragment: string, i: nat) {
    i + |fragment| <= |s| && s[i..i + |fragment|] == fragment
  }

  predicate Includes(s: string, fragment: string) {
    exists i :: 0 <= i <= |s| && IncludesAt(s, fragment, i)
  }

  predicate MentionsAny(s: string, fragments: seq<string>) {
    exists i :: 0 <= i < |fragments| && Includes(s, fragments[i])
  }

  /** The fragment stands somewhere in the text. */
  lemma IncludesIff(s: string, fragment: string)
    ensures Includes(s, fragment) <==> exists before, after :: s == before + fragment + after
  {
    if i :| 0 <= i <= |s| && IncludesAt(s, fragment, i) {
      assert s == s[..i] + fragment + s[i + |fragment|..];
    }
    if before, after :| s == before + fragment + after {
      assert IncludesAt(s, fragment, |before|);
    }
  }

  // What `answers.ts` says is never reused, category by category, in the words of a label.

  ghost predicate AsksDemographics(s: string) {
    || Includes(s, "gender") || Includes(s, "sexual orientation") || Includes(s, "pronoun")
    || Includes(s, "race") || Includes(s, "ethnic") || Includes(s, "hispanic") || Includes(s, "latino")
    || Includes(s, "veteran") || Includes(s, "religio") || Includes(s, "self-identif")
    || Includes(s, "date of birth") || Includes(s, "birth date") || Includes(s, "age range")
  }

  ghost predicate AsksHealth(s: string) {
    Includes(s, "disability") || Includes(s, "disabled") || Includes(s, "medical") || Includes(s, "pregnan")
  }

  ghost predicate AsksIdentity(s: string) {
    || Includes(s, "social security") || Includes(s, "ssn") || Includes(s, "national id")
    || Includes(s, "identity verification") || Includes(s, "passport number") || Includes(s, "driver's license")
    || Includes(s, "criminal") || Includes(s, "background check")
  }

  ghost predicate AsksAssessment(s: string) {
    Includes(s, "assessment") || Includes(s, "personality")
  }

  ghost predicate NeverReused(s: string) {
    AsksDemographics(s) || AsksHealth(s) || AsksIdentity(s) || AsksAssessment(s)
  }

  /** What a person may reuse, but only for the kind of job they answered it for. */
  ghost predicate AsksTerms(s: string) {
    || Includes(s, "phone") || Includes(s, "address") || Includes(s, "salary") || Includes(s, "compensation")
    || Includes(s, "visa") || Includes(s, "sponsor") || Includes(s, "work authorization") || Includes(s, "right to work")
    || Includes(s, "notice period")
  }

  function SensitivityFor(t: Text, labelText: string): Sensitivity {
    var lowered := t.lower(labelText);
    if MentionsAny(lowered, NEVER_REUSE_LABEL_FRAGMENTS) then NeverReuse
    else if MentionsAny(lowered, SENSITIVE_LABEL_FRAGMENTS) then Sensitive
    else Standard
  }

  lemma MentionedIsNeverReused(s: string)
    requires MentionsAny(s, NEVER_REUSE_LABEL_FRAGMENTS)
    ensures NeverReused(s)
  {
    hide Includes;
    var i :| 0 <= i < |NEVER_REUSE_LABEL_FRAGMENTS| && Includes(s, NEVER_REUSE_LABEL_FRAGMENTS[i]);
  }

  lemma DemographicsAreMentioned(s: string)
    requires AsksDemographics(s)
    ensures MentionsAny(s, NEVER_REUSE_LABEL_FRAGMENTS)
  {
    hide Includes;
    var all := NEVER_REUSE_LABEL_FRAGMENTS;
    assert all[0] == "gender" && all[1] == "race" && all[2] == "ethnic" && all[3] == "hispanic" && all[4] == "latino";
    assert all[5] == "veteran" && all[8] == "sexual orientation" && all[9] == "date of birth" && all[10] == "birth date";
    assert all[23] == "religio" && all[24] == "pronoun" && all[25] == "age range" && all[26] == "self-identif";
  }

  lemma IdentityIsMentioned(s: string)
    requires AsksIdentity(s)
    ensures MentionsAny(s, NEVER_REUSE_LABEL_FRAGMENTS)
  {
    hide Includes;
    var all := NEVER_REUSE_LABEL_FRAGMENTS;
    assert all[11] == "social security" && all[12] == "ssn" && all[13] == "national id" && all[14] == "identity verification";
    assert all[15] == "passport number" && all[16] == "driver's license";
    assert all[19] == "criminal" && all[20] == "background check";
  }

  lemma HealthAndAssessmentAreMentioned(s: string)
    requires AsksHealth(s) || AsksAssessment(s)
    ensures MentionsAny(s, NEVER_REUSE_LABEL_FRAGMENTS)
  {
    hide Includes;
    var all := NEVER_REUSE_LABEL_FRAGMENTS;
    assert all[6] == "disability" && all[7] == "disabled" && all[21] == "medical" && all[22] == "pregnan";
    assert all[17] == "assessment" && all[18] == "personality";
  }

  /** A question is never answered for the person exactly when it is of one of the four categories. */
  lemma SensitivityIs(t: Text, labelText: string)
    ensures SensitivityFor(t, labelText) ==
              if NeverReused(t.lower(labelText)) then NeverReuse
              else if AsksTerms(t.lower(labelText)) then Sensitive else Standard
  {
    hide Includes;
    var s := t.lower(labelText);
    if AsksDemographics(s) {
      DemographicsAreMentioned(s);
    } else if AsksIdentity(s) {
      IdentityIsMentioned(s);
    } else if AsksHealth(s) || AsksAssessment(s) {
      HealthAndAssessmentAreMentioned(s);
    } else if MentionsAny(s, NEVER_REUSE_LABEL_FRAGMENTS) {
      MentionedIsNeverReused(s);
    }
    var all := SENSITIVE_LABEL_FRAGMENTS;
    assert all[0] == "phone" && all[1] == "address" && all[2] == "salary" && all[3] == "compensation" && all[4] == "visa";
    assert all[5] == "sponsor" && all[6] == "work authorization" && all[7] == "right to work" && all[8] == "notice period";
  }

  lemma IncludesWider(s: string, fragment: string, before: string, after: string)
    requires Includes(s, fragment)
    ensures Includes(before + s + after, fragment)
  {
    var i :| 0 <= i <= |s| && IncludesAt(s, fragment, i);
    assert (before + s + after)[|before| + i..|before| + i + |fragment|] == s[i..i + |fragment|];
    assert IncludesAt(before + s + after, fragment, |before| + i);
  }

  /** Rank of a classification: a wider label can only be classified more strictly. */
  function Strictness(s: Sensitivity): nat {
    match s case Standard => 0 case Sensitive => 1 case NeverReuse => 2
  }

  /** Adding words around a label never makes its answer more reusable. */
  lemma ClassificationOnlyNarrows(t: Text, labelText: string, wider: string, before: string, after: string)
    requires t.lower(wider) == before + t.lower(labelText) + after
    ensures Strictness(SensitivityFor(t, labelText)) <= Strictness(SensitivityFor(t, wider))
  {
    MentionsWider(t.lower(labelText), NEVER_REUSE_LABEL_FRAGMENTS, before, after);
    MentionsWider(t.lower(labelText), SENSITIVE_LABEL_FRAGMENTS, before, after);
  }

  lemma MentionsWider(s: string, fragments: seq<string>, before: string, after: string)
    ensures MentionsAny(s, fragments) ==> MentionsAny(before + s + after, fragments)
  {
    if MentionsAny(s, fragments) {
      var i :| 0 <= i < |fragments| && Includes(s, fragments[i]);
      IncludesWider(s, fragments[i], before, after);
    }
  }

  // ---------------------------------------------------------------------------
  // Rendering and matching
  // ---------------------------------------------------------------------------

  predicate IsChoice(kind: FieldKind) {
    kind.Select? || kind.Radio? || kind.Checkbox?
  }

  function AsStrings(r: Runtime, answer: AnswerValue): seq<string> {
    match answer
    case Flag(flag) => [if flag then "yes" else "no"]
    case Several(items) => items
    case Amount(amount) => [r.number(amount)]
    case Words(words) => [words]
  }

  function Folded(r: Runtime, s: string): string {
    r.text.lower(r.text.trim(s))
  }

  /** Equal but for case and surrounding space. */
  ghost predicate SameWord(r: Runtime, a: string, b: string) {
    r.text.lower(r.text.trim(a)) == r.text.lower(r.text.trim(b))
  }

  /** The option is the first of those offered that is the same word as the value. */
  ghost predicate FirstLike(r: Runtime, value: string, options: seq<string>, option: string) {
    exists i :: && 0 <= i < |options| && options[i] == option && SameWord(r, option, value)
                && forall k :: 0 <= k < i ==> !SameWord(r, options[k], value)
  }

  lemma FirstLikeLater(r: Runtime, value: string, options: seq<string>, option: string)
    requires options != [] && !SameWord(r, options[0], value) && FirstLike(r, value, options[1..], option)
    ensures FirstLike(r, value, options, option)
  {
    var i :| && 0 <= i < |options[1..]| && options[1..][i] == option && SameWord(r, option, value)
             && forall k :: 0 <= k < i ==> !SameWord(r, options[1..][k], value);
    assert options[i + 1] == option;
    forall k | 0 <= k < i + 1
      ensures !SameWord(r, options[k], value)
    {
      assert k > 0 ==> options[k] == options[1..][k - 1];
    }
  }

  /** The first offered option equal to the value up to case and surrounding space. */
  function MatchOption(r: Runtime, value: string, options: seq<string>): (matched: Option<string>)
    ensures matched.Some? ==> FirstLike(r, value, options, matched.value)
    ensures matched.None? ==> forall o :: o in options ==> !SameWord(r, o, value)
  {
    if options == [] then None
    else if Folded(r, options[0]) == Folded(r, value) then Some(options[0])
    else
      var later := MatchOption(r, value, options[1..]);
      assert later.Some? ==> FirstLike(r, value, options, later.value) by {
        if later.Some? {
          FirstLikeLater(r, value, options, later.value);
        }
      }
      later
  }

  /** `rendered.map(matchOption).filter(option => option !== null)` */
  function Matched(r: Runtime, rendered: seq<string>, options: seq<string>): seq<string> {
    if rendered == [] then []
    else
      var first := MatchOption(r, rendered[0], options);
      (if first.Some? then [first.value] else []) + Matched(r, rendered[1..], options)
  }

  ghost predicate Offers(r: Runtime, options: seq<string>, value: string) {
    exists o :: o in options && SameWord(r, o, value)
  }

  /** No item is lost in the filter exactly when every item has an option; then each is its own match. */
  lemma {:induction false} AllMatched(r: Runtime, rendered: seq<string>, options: seq<string>)
    ensures |Matched(r, rendered, options)| <= |rendered|
    ensures |Matched(r, rendered, options)| == |rendered|
       <==> forall i :: 0 <= i < |rendered| ==> Offers(r, options, rendered[i])
    ensures |Matched(r, rendered, options)| == |rendered| ==>
              forall i :: 0 <= i < |rendered| ==>
                MatchOption(r, rendered[i], options) == Some(Matched(r, rendered, options)[i])
  {
    if rendered != [] {
      AllMatched(r, rendered[1..], options);
      var first := MatchOption(r, rendered[0], options);
      assert first.Some? <==> Offers(r, options, rendered[0]);
      assert forall i :: 0 < i < |rendered| ==> rendered[i] == rendered[1..][i - 1];
    }
  }

  function JoinWith(parts: seq<string>, separator: string): string {
    if parts == [] then ""
    else if |parts| == 1 then parts[0]
    else parts[0] + separator + JoinWith(parts[1..], separator)
  }

  /** `parts.join(separator)`: one part is itself, and between two runs of parts stands one separator. */
  lemma {:induction false} JoinIs(a: seq<string>, b: seq<string>, separator: string)
    ensures JoinWith([], separator) == "" && (|a| == 1 ==> JoinWith(a, separator) == a[0])
    ensures a != [] && b != [] ==> JoinWith(a + b, separator) == JoinWith(a, separator) + separator + JoinWith(b, separator)
  {
    if a != [] && b != [] {
      assert (a + b)[1..] == a[1..] + b && (a + b)[0] == a[0];
      if |a| == 1 {
        assert a[1..] + b == b;
      } else {
        JoinIs(a[1..], b, separator);
        Regroups(a[0] + separator, JoinWith(a[1..], separator), separator, JoinWith(b, separator));
      }
    }
  }

  lemma Regroups(a: string, b: string, c: string, d: string)
    ensures a + (b + c + d) == (a + b) + c + d
  {
  }

  // What an answer says, kind by kind.

  /** How many words or items the answer holds. */
  ghost function ItemCount(answer: AnswerValue): nat {
    if answer.Several? then |answer.items| else 1
  }

  /** What the `i`-th of them is in words: yes or no, the number as the runtime writes it, or the words. */
  ghost predicate SaysAt(r: Runtime, answer: AnswerValue, i: nat, said: string) {
    match answer
    case Flag(flag) => i == 0 && ((flag && said == "yes") || (!flag && said == "no"))
    case Amount(amount) => i == 0 && said == r.number(amount)
    case Words(words) => i == 0 && said == words
    case Several(items) => i < |items| && said == items[i]
  }

  /** All of it as one text, items parted by commas. */
  ghost predicate SaysInAll(r: Runtime, answer: AnswerValue, said: string) {
    if answer.Several? then said == JoinWith(answer.items, ", ") else SaysAt(r, answer, 0, said)
  }

  lemma AsStringsSay(r: Runtime, answer: AnswerValue)
    ensures |AsStrings(r, answer)| == ItemCount(answer)
    ensures forall i :: 0 <= i < ItemCount(answer) ==> SaysAt(r, answer, i, AsStrings(r, answer)[i])
    ensures SaysInAll(r, answer, JoinWith(AsStrings(r, answer), ", "))
  {
  }

  // ---------------------------------------------------------------------------
  // The plan
  // ---------------------------------------------------------------------------

  /** `new Map(answers.map(answer => [answer.question_key, answer])).get(key)`: the last one. */
  function AnswerFor(answers: seq<FillField>, key: string): Option<FillField> {
    if answers == [] then None
    else
      var last := answers[|answers| - 1];
      if last.questionKey == key then Some(last) else AnswerFor(answers[..|answers| - 1], key)
  }

  datatype Verdict = Type(values: seq<string>) | Upload | Ask(reason: UnresolvedReason)

  function Decide(r: Runtime, f: FormField, answers: seq<FillField>, hasAttachment: bool): Verdict {
    if f.key == "" || f.kind.Unsupported? then Ask(UnsupportedWidget)
    else if f.kind.File? then (if hasAttachment then Upload else Ask(FileUploadBlocked))
    else if SensitivityFor(r.text, f.labelText).NeverReuse? then Ask(NeverInferable)
    else
      match AnswerFor(answers, f.key)
      case None => Ask(NewQuestion)
      case Some(answer) =>
        var rendered := AsStrings(r, answer.answer);
        if IsChoice(f.kind) then
          var matched := Matched(r, rendered, f.options);
          if |matched| != |rendered| || matched == [] then Ask(NeedsExactMapping) else Type(matched)
        else
          var text := r.text.trim(JoinWith(rendered, ", "));
          if text == "" then Ask(NoAnswer) else Type([text])
  }

  function Question(f: FormField, reason: UnresolvedReason): UnresolvedField {
    if f.key == "" then
      UnresolvedField("unnamed_field", if f.labelText == "" then None else Some(f.labelText), f.required, reason, f.options)
    else
      UnresolvedField(f.key, Some(f.labelText), f.required, reason, f.options)
  }

  function Planned(r: Runtime, fields: seq<FormField>, answers: seq<FillField>, hasAttachment: bool): Plan {
    if fields == [] then Plan([], [])
    else
      var n := |fields| - 1;
      var before := Planned(r, fields[..n], answers, hasAttachment);
      match Decide(r, fields[n], answers, hasAttachment)
      case Type(values) => before.(values := before.values + [PlannedValue(fields[n], values, false)])
      case Upload => before.(values := before.values + [PlannedValue(fields[n], [], true)])
      case Ask(reason) => before.(unresolved := before.unresolved + [Question(fields[n], reason)])
  }

  method BuildPlan(r: Runtime, fields: seq<FormField>, answers: seq<FillField>, hasAttachment: bool)
    returns (plan: Plan)
    ensures plan == Planned(r, fields, answers, hasAttachment)
    ensures |plan.values| + |plan.unresolved| == |fields|
    ensures forall i :: 0 <= i < |plan.values| ==> Warranted(r, plan.values[i], answers, hasAttachment)
  {
    var byKey: map<string, FillField> := map[];
    for i := 0 to |answers|
      invariant forall key :: key in byKey <==> AnswerFor(answers[..i], key).Some?
      invariant forall key :: key in byKey ==> AnswerFor(answers[..i], key) == Some(byKey[key])
    {
      assert answers[..i + 1][..i] == answers[..i];
      byKey := byKey[answers[i].questionKey := answers[i]];
    }
    assert answers[..|answers|] == answers;

    var values: seq<PlannedValue>, unresolved: seq<UnresolvedField> := [], [];
    for i := 0 to |fields|
      invariant Plan(values, unresolved) == Planned(r, fields[..i], answers, hasAttachment)
    {
      var field := fields[i];
      assert fields[..i + 1][..i] == fields[..i];
      if field.key == "" {
        unresolved := unresolved + [UnresolvedField("unnamed_field",
          if field.labelText == "" then None else Some(field.labelText), field.required, UnsupportedWidget, field.options)];
        continue;
      }
      if field.kind.Unsupported? {
        unresolved := unresolved + [Question(field, UnsupportedWidget)];
        continue;
      }
      if field.kind.File? {
        if hasAttachment {
          values := values + [PlannedValue(field, [], true)];
        } else {
          unresolved := unresolved + [Question(field, FileUploadBlocked)];
        }
        continue;
      }
      if SensitivityFor(r.text, field.labelText).NeverReuse? {
        unresolved := unresolved + [Question(field, NeverInferable)];
        continue;
      }
      if field.key !in byKey {
        unresolved := unresolved + [Question(field, NewQuestion)];
        continue;
      }
      var rendered := AsStrings(r, byKey[field.key].answer);
      if IsChoice(field.kind) {
        var matched := Matched(r, rendered, field.options);
        if |matched| != |rendered| || |matched| == 0 {
          unresolved := unresolved + [Question(field, NeedsExactMapping)];
          continue;
        }
        values := values + [PlannedValue(field, matched, false)];
        continue;
      }
      // The kinds left are exactly the ones a plain string can be typed into.
      assert field.kind in {TextInput, TextArea, Email, Tel, Url, Number};
      var text := r.text.trim(JoinWith(rendered, ", "));
      if text == "" {
        unresolved := unresolved + [Question(field, NoAnswer)];
        continue;
      }
      values := values + [PlannedValue(field, [text], false)];
    }
    assert fields[..|fields|] == fields;
    plan := Plan(values, unresolved);
    PlanConservesFields(r, fields, answers, hasAttachment);
  }

  // ---------------------------------------------------------------------------
  // Nothing dropped, nothing invented
  // ---------------------------------------------------------------------------

  ghost predicate Filled(r: Runtime, f: FormField, answers: seq<FillField>, hasAttachment: bool) {
    !Decide(r, f, answers, hasAttachment).Ask?
  }

  /** The fields that are filled, or those that are not, in page order. */
  ghost function Those(r: Runtime, fields: seq<FormField>, answers: seq<FillField>, hasAttachment: bool, filled: bool)
    : (those: seq<FormField>)
    ensures forall i :: 0 <= i < |those| ==> Filled(r, those[i], answers, hasAttachment) == filled
  {
    if fields == [] then []
    else
      var n := |fields| - 1;
      Those(r, fields[..n], answers, hasAttachment, filled)
      + (if Filled(r, fields[n], answers, hasAttachment) == filled then [fields[n]] else [])
  }

  ghost predicate IsChoiceControl(kind: FieldKind) {
    kind in {Select, Radio, Checkbox}
  }

  /** Every item of the answer is offered, and the control is set to the options they are. */
  ghost predicate ChosenFrom(r: Runtime, v: PlannedValue, answer: AnswerValue) {
    && |v.values| == ItemCount(answer) > 0
    && forall i, said :: 0 <= i < |v.values| && SaysAt(r, answer, i, said) ==> FirstLike(r, said, v.field.options, v.values[i])
  }

  /** The control holds the answer's words, trimmed, and they are not blank. */
  ghost predicate WrittenFrom(r: Runtime, v: PlannedValue, answer: AnswerValue) {
    && |v.values| == 1 && v.values[0] != ""
    && forall said :: SaysInAll(r, answer, said) ==> v.values[0] == r.text.trim(said)
  }

  /** A packet answer that may be typed into this control, and what it is typed as. */
  ghost predicate TypedFrom(r: Runtime, v: PlannedValue, answer: FillField) {
    && answer.questionKey == v.field.key
    && if IsChoiceControl(v.field.kind) then ChosenFrom(r, v, answer.answer)
       else v.field.kind in {TextInput, TextArea, Email, Tel, Url, Number} && WrittenFrom(r, v, answer.answer)
  }

  /** The answer of this key that counts: the packet's last. */
  ghost predicate LastAnswer(answers: seq<FillField>, i: int, key: string) {
    && 0 <= i < |answers| && answers[i].questionKey == key
    && forall k :: i < k < |answers| ==> answers[k].questionKey != key
  }

  /** Everything the planner promises about one planned value. */
  ghost predicate Warranted(r: Runtime, v: PlannedValue, answers: seq<FillField>, hasAttachment: bool) {
    && v.field.key != "" && !v.field.kind.Unsupported?
    && (v.upload <==> v.field.kind.File?)
    && (v.upload ==> hasAttachment && v.values == [])
    && (!v.upload ==>
          && !NeverReused(r.text.lower(v.field.labelText))
          && exists i :: LastAnswer(answers, i, v.field.key) && TypedFrom(r, v, answers[i]))
  }

  lemma {:induction false} AnswerForIsAnAnswer(answers: seq<FillField>, key: string)
    ensures AnswerFor(answers, key).Some? ==>
              exists i :: LastAnswer(answers, i, key) && answers[i] == AnswerFor(answers, key).value
    ensures AnswerFor(answers, key).None? ==> forall i :: 0 <= i < |answers| ==> answers[i].questionKey != key
  {
    if answers != [] {
      var n := |answers| - 1;
      AnswerForIsAnAnswer(answers[..n], key);
      if answers[n].questionKey != key && AnswerFor(answers, key).Some? {
        var i :| LastAnswer(answers[..n], i, key) && answers[..n][i] == AnswerFor(answers[..n], key).value;
        assert answers[i] == AnswerFor(answers, key).value && LastAnswer(answers, i, key);
      } else if answers[n].questionKey == key {
        assert LastAnswer(answers, n, key);
      }
      assert forall i :: 0 <= i < n ==> answers[i] == answers[..n][i];
    }
  }

  lemma TypedValueIsWarranted(r: Runtime, f: FormField, answers: seq<FillField>, hasAttachment: bool)
    requires Decide(r, f, answers, hasAttachment).Type?
    ensures Warranted(r, PlannedValue(f, Decide(r, f, answers, hasAttachment).values, false), answers, hasAttachment)
  {
    AnswerForIsAnAnswer(answers, f.key);
    SensitivityIs(r.text, f.labelText);
    var answer := AnswerFor(answers, f.key).value;
    AllMatched(r, AsStrings(r, answer.answer), f.options);
    AsStringsSay(r, answer.answer);
    var v := PlannedValue(f, Decide(r, f, answers, hasAttachment).values, false);
    assert TypedFrom(r, v, answer);
  }

  /**
    Why a control becomes a question, in the order the planner asks: it cannot be typed into, a
    file is wanted and there is none, the label is of a category nobody may answer for the
    person, the packet does not answer the question, or its answer is not one of the options,
    or is blank.
  */
  ghost predicate AskedBecause(
    r: Runtime, f: FormField, answers: seq<FillField>, hasAttachment: bool, reason: UnresolvedReason)
  {
    var typeable := f.key != "" && !f.kind.Unsupported? && !f.kind.File?;
    var answerable := typeable && !NeverReused(r.text.lower(f.labelText));
    match reason
    case UnsupportedWidget => f.key == "" || f.kind.Unsupported?
    case FileUploadBlocked => f.key != "" && f.kind.File? && !hasAttachment
    case NeverInferable => typeable && NeverReused(r.text.lower(f.labelText))
    case NewQuestion => answerable && forall i :: 0 <= i < |answers| ==> answers[i].questionKey != f.key
    case NeedsExactMapping =>
      answerable && IsChoiceControl(f.kind)
      && exists i :: LastAnswer(answers, i, f.key) && !AllOffered(r, answers[i].answer, f.options)
    case NoAnswer =>
      answerable && !IsChoiceControl(f.kind)
      && exists i :: LastAnswer(answers, i, f.key) && IsBlank(r, answers[i].answer)
  }

  /** There are items, and each is the same word as an option. */
  ghost predicate AllOffered(r: Runtime, answer: AnswerValue, options: seq<string>) {
    && ItemCount(answer) > 0
    && forall i, said :: 0 <= i < ItemCount(answer) && SaysAt(r, answer, i, said) ==> Offers(r, options, said)
  }

  ghost predicate IsBlank(r: Runtime, answer: AnswerValue) {
    forall said :: SaysInAll(r, answer, said) ==> r.text.trim(said) == ""
  }

  /** A control is filled or becomes a question, and a question for exactly the first reason that holds of it. */
  lemma AskedIff(r: Runtime, f: FormField, answers: seq<FillField>, hasAttachment: bool, reason: UnresolvedReason)
    ensures Decide(r, f, answers, hasAttachment) == Ask(reason) <==> AskedBecause(r, f, answers, hasAttachment, reason)
  {
    hide NeverReused, AsStrings, SaysAt, SaysInAll, SensitivityFor;
    AnswerForIsAnAnswer(answers, f.key);
    SensitivityIs(r.text, f.labelText);
    if AnswerFor(answers, f.key).Some? {
      var answer := AnswerFor(answers, f.key).value.answer;
      AsStringsSay(r, answer);
      AllMatched(r, AsStrings(r, answer), f.options);
      SaidOnce(r, answer);
    }
  }

  /** An answer's words are its own: `AsStrings` is the one way to say it. */
  lemma SaidOnce(r: Runtime, answer: AnswerValue)
    ensures forall i: nat, said :: SaysAt(r, answer, i, said) ==> i < |AsStrings(r, answer)| && said == AsStrings(r, answer)[i]
    ensures forall said :: SaysInAll(r, answer, said) ==> said == JoinWith(AsStrings(r, answer), ", ")
  {
    AsStringsSay(r, answer);
  }

  ghost function FieldsOf(values: seq<PlannedValue>): seq<FormField> {
    seq(|values|, i requires 0 <= i < |values| => values[i].field)
  }

  /** The question is about this control: its key, or that it has none, its label, options and required-ness. */
  ghost predicate Asks(q: UnresolvedField, f: FormField) {
    && q.questionKey == (if f.key == "" then "unnamed_field" else f.key)
    && (q.labelText == Some(f.labelText) || (f.key == "" && f.labelText == "" && q.labelText.None?))
    && (f.key == "" && f.labelText == "" ==> q.labelText.None?)
    && q.required == f.required && q.options == f.options
  }

  /**
    The plan conserves the page: the filled fields and the asked ones are the page's fields,
    each once and in order, every planned value is warranted by an answer or by the CV, and
    every question carries its own field's options and required-ness.
  */
  lemma {:induction false} PlanConservesFields(r: Runtime, fields: seq<FormField>, answers: seq<FillField>, hasAttachment: bool)
    ensures var plan := Planned(r, fields, answers, hasAttachment);
            var asked := Those(r, fields, answers, hasAttachment, false);
            && FieldsOf(plan.values) == Those(r, fields, answers, hasAttachment, true)
            && |plan.values| + |plan.unresolved| == |fields|
            && (forall i :: 0 <= i < |plan.values| ==> Warranted(r, plan.values[i], answers, hasAttachment))
            && |plan.unresolved| == |asked|
            && (forall i :: 0 <= i < |asked| ==>
                  && Asks(plan.unresolved[i], asked[i])
                  && AskedBecause(r, asked[i], answers, hasAttachment, plan.unresolved[i].reason))
  {
    if fields != [] {
      var n := |fields| - 1;
      PlanConservesFields(r, fields[..n], answers, hasAttachment);
      var before := Planned(r, fields[..n], answers, hasAttachment);
      var verdict := Decide(r, fields[n], answers, hasAttachment);
      if verdict.Ask? {
        AskedIff(r, fields[n], answers, hasAttachment, verdict.reason);
      } else {
        var added := PlannedValue(fields[n], if verdict.Type? then verdict.values else [], verdict.Upload?);
        VerdictIsWarranted(r, fields[n], answers, hasAttachment, added);
        assert FieldsOf(before.values + [added]) == FieldsOf(before.values) + [fields[n]];
      }
    }
  }

  lemma VerdictIsWarranted(r: Runtime, f: FormField, answers: seq<FillField>, hasAttachment: bool, added: PlannedValue)
    requires var verdict := Decide(r, f, answers, hasAttachment);
             !verdict.Ask? && added == PlannedValue(f, if verdict.Type? then verdict.values else [], verdict.Upload?)
    ensures Warranted(r, added, answers, hasAttachment)
  {
    if Decide(r, f, answers, hasAttachment).Type? {
      TypedValueIsWarranted(r, f, answers, hasAttachment);
    }
  }

  /**
    A choice control is filled exactly when the packet answers its question, the question may
    be answered from a packet, and every item of the answer is one of the options offered.
  */
  lemma ChoiceFilledIffExactMapping(r: Runtime, f: FormField, answers: seq<FillField>, hasAttachment: bool)
    requires f.key != "" && IsChoiceControl(f.kind)
    ensures Filled(r, f, answers, hasAttachment) <==>
              && !NeverReused(r.text.lower(f.labelText))
              && exists i :: LastAnswer(answers, i, f.key) && AllOffered(r, answers[i].answer, f.options)
  {
    OneLastAnswer(answers, f.key);
    AskedFor(r, f, answers, hasAttachment);
    if Filled(r, f, answers, hasAttachment) {
      assert !AskedBecause(r, f, answers, hasAttachment, NeverInferable);
      assert !AskedBecause(r, f, answers, hasAttachment, NewQuestion);
      assert !AskedBecause(r, f, answers, hasAttachment, NeedsExactMapping);
    }
  }

  /** A text control is filled exactly when the packet answers its question with words, and the question may be. */
  lemma TextFilledIff(r: Runtime, f: FormField, answers: seq<FillField>, hasAttachment: bool)
    requires f.key != "" && f.kind in {TextInput, TextArea, Email, Tel, Url, Number}
    ensures Filled(r, f, answers, hasAttachment) <==>
              && !NeverReused(r.text.lower(f.labelText))
              && exists i :: LastAnswer(answers, i, f.key) && !IsBlank(r, answers[i].answer)
  {
    OneLastAnswer(answers, f.key);
    AskedFor(r, f, answers, hasAttachment);
    if Filled(r, f, answers, hasAttachment) {
      assert !AskedBecause(r, f, answers, hasAttachment, NeverInferable);
      assert !AskedBecause(r, f, answers, hasAttachment, NewQuestion);
      assert !AskedBecause(r, f, answers, hasAttachment, NoAnswer);
    }
  }

  lemma AskedFor(r: Runtime, f: FormField, answers: seq<FillField>, hasAttachment: bool)
    ensures Filled(r, f, answers, hasAttachment) <==>
              forall reason :: !AskedBecause(r, f, answers, hasAttachment, reason)
  {
    forall reason
      ensures Decide(r, f, answers, hasAttachment) == Ask(reason) <==> AskedBecause(r, f, answers, hasAttachment, reason)
    {
      AskedIff(r, f, answers, hasAttachment, reason);
    }
    var verdict := Decide(r, f, answers, hasAttachment);
    if verdict.Ask? {
      assert AskedBecause(r, f, answers, hasAttachment, verdict.reason);
    }
  }

  lemma OneLastAnswer(answers: seq<FillField>, key: string)
    ensures forall i, k :: LastAnswer(answers, i, key) && LastAnswer(answers, k, key) ==> i == k
    ensures (forall i :: !LastAnswer(answers, i, key)) <==> forall i :: 0 <= i < |answers| ==> answers[i].questionKey != key
  {
    AnswerForIsAnAnswer(answers, key);
  }

  function HasUnresolvedRequired(plan: Plan): bool {
    exists i :: 0 <= i < |plan.unresolved| && plan.unresolved[i].required
  }

  /** A plan reports a pause exactly when the page has a required control it does not fill. */
  lemma {:induction false} PauseIffRequiredLeft(r: Runtime, fields: seq<FormField>, answers: seq<FillField>, hasAttachment: bool)
    ensures HasUnresolvedRequired(Planned(r, fields, answers, hasAttachment)) <==>
              exists i :: 0 <= i < |fields| && fields[i].required && !Filled(r, fields[i], answers, hasAttachment)
  {
    if fields != [] {
      var n := |fields| - 1;
      PauseIffRequiredLeft(r, fields[..n], answers, hasAttachment);
      var before, plan := Planned(r, fields[..n], answers, hasAttachment), Planned(r, fields, answers, hasAttachment);
      assert forall i :: 0 <= i < n ==> fields[i] == fields[..n][i];
      assert before.unresolved <= plan.unresolved;
      if !Filled(r, fields[n], answers, hasAttachment) {
        assert plan.unresolved[|before.unresolved|].required == fields[n].required;
      }
    }
  }

  // ---------------------------------------------------------------------------
  // Planning over a parsed page
  // ---------------------------------------------------------------------------

  lemma {:induction false} ThoseKeepUniqueNames(
    r: Runtime, fields: seq<FormField>, answers: seq<FillField>, hasAttachment: bool)
    requires UniqueNames(fields)
    ensures UniqueNames(Those(r, fields, answers, hasAttachment, true))
    ensures forall f :: f in Those(r, fields, answers, hasAttachment, true) ==> f in fields
  {
    if fields != [] {
      var n := |fields| - 1;
      ThoseKeepUniqueNames(r, fields[..n], answers, hasAttachment);
      var before := Those(r, fields[..n], answers, hasAttachment, true);
      forall i | 0 <= i < |before| && before[i].key != ""
        ensures before[i].key != fields[n].key
      {
        assert before[i] in fields[..n];
      }
    }
  }

  /** On a page as `parseFields` reads it, no packet answer is typed into two controls. */
  lemma EachAnswerTypedOnce(r: Runtime, raw: seq<Entry>, answers: seq<FillField>, hasAttachment: bool)
    ensures var plan := Planned(r, Parsed(r.text, raw, {}), answers, hasAttachment);
            forall i, j, a :: 0 <= i < |plan.values| && 0 <= j < |plan.values| && 0 <= a < |answers|
              && !plan.values[i].upload && !plan.values[j].upload
              && TypedFrom(r, plan.values[i], answers[a]) && TypedFrom(r, plan.values[j], answers[a])
              ==> i == j
  {
    var fields := Parsed(r.text, raw, {});
    var plan := Planned(r, fields, answers, hasAttachment);
    ParsedNamesAreUnique(r.text, raw);
    PlanConservesFields(r, fields, answers, hasAttachment);
    ThoseKeepUniqueNames(r, fields, answers, hasAttachment);
    assert forall i :: 0 <= i < |plan.values| ==> FieldsOf(plan.values)[i] == plan.values[i].field;
  }
}

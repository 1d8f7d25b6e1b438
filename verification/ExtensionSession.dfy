/**
  What the browser extension does with a page it has read: refuse it, or type what the plan
  warrants and report (apps/extension/src/session.ts, packages/fill-planner/src/inspect.ts).
*/
module ExtensionSession {
  import opened Common
  import opened FormShape
  import opened FillPlan
  import Commits = ApplicationCommits

  // ---------------------------------------------------------------------------
  // Whose page it is
  // ---------------------------------------------------------------------------

  /** What the page says of itself; an empty statement is none. */
  datatype Identity = Identity(company: Option<string>, title: Option<string>)

  function ParseIdentity(t: Text, company: string, title: string): Identity {
    Identity(
      if t.trim(company) == "" then None else Some(t.trim(company)),
      if t.trim(title) == "" then None else Some(t.trim(title)))
  }

  /** One of the comparisons `checkIdentity` makes; `fold` collapses white space and case. */
  predicate Comparable(t: Text, fold: string -> string, observed: Option<string>, expected: string) {
    observed.None? || t.trim(expected) == ""
    || Includes(fold(expected), fold(observed.value)) || Includes(fold(observed.value), fold(expected))
  }

  predicate IdentityMatches(t: Text, fold: string -> string, page: Identity, company: string, title: string) {
    && (page.company.Some? || page.title.Some?)
    && Comparable(t, fold, page.company, company)
    && Comparable(t, fold, page.title, title)
  }

  // ---------------------------------------------------------------------------
  // The decision
  // ---------------------------------------------------------------------------

  datatype Grant = Grant(origin: string, company: string, title: string, fields: seq<FillField>, hasResume: bool)

  datatype Page = Page(origin: Option<string>, company: string, title: string, raw: seq<Entry>)

  datatype Instruction = Instruction(selector: string, kind: FieldKind, values: seq<string>)

  datatype Report = Report(filled: seq<string>, unresolved: seq<UnresolvedField>, outcome: Commits.FillOutcome)

  datatype Decision =
    | Refuse(report: Report)
    | Fill(instructions: seq<Instruction>, attachment: Option<FormField>, report: Report)

  const UNSUPPORTED: Report := Report([], [], Commits.NoAdapter)

  function Instructions(values: seq<PlannedValue>): seq<Instruction> {
    if values == [] then []
    else
      Instructions(values[..|values| - 1])
      + (if values[|values| - 1].upload then []
         else [Instruction(values[|values| - 1].field.selector, values[|values| - 1].field.kind, values[|values| - 1].values)])
  }

  function TypedKeys(values: seq<PlannedValue>): seq<string> {
    if values == [] then []
    else TypedKeys(values[..|values| - 1]) + (if values[|values| - 1].upload then [] else [values[|values| - 1].field.key])
  }

  /** `plan.values.find((value) => value.upload)` */
  function FirstUpload(values: seq<PlannedValue>): Option<FormField> {
    if values == [] then None
    else if values[0].upload then Some(values[0].field)
    else FirstUpload(values[1..])
  }

  /** `decide` */
  function DecideFill(r: Runtime, fold: string -> string, grant: Grant, page: Page): Decision {
    var fields := Parsed(r.text, page.raw, {});
    if page.origin != Some(grant.origin) then Refuse(UNSUPPORTED)
    else if fields == [] then Refuse(UNSUPPORTED)
    else if !IdentityMatches(r.text, fold, ParseIdentity(r.text, page.company, page.title), grant.company, grant.title)
    then Refuse(UNSUPPORTED)
    else
      var plan := Planned(r, fields, grant.fields, grant.hasResume);
      Fill(Instructions(plan.values), FirstUpload(plan.values),
        Report(TypedKeys(plan.values), plan.unresolved,
          if HasUnresolvedRequired(plan) then Commits.QuestionsLeft else Commits.AwaitingSubmit))
  }

  /** `withBlockedAttachment`: a CV that could not be attached becomes a question. */
  function WithBlockedAttachment(report: Report, attachment: FormField): Report {
    report.(
      unresolved := report.unresolved + [UnresolvedField(attachment.key,
        if attachment.labelText == "" then None else Some(attachment.labelText), attachment.required, FileUploadBlocked, [])],
      outcome := if attachment.required then Commits.QuestionsLeft else report.outcome)
  }

  // ---------------------------------------------------------------------------
  // What it promises
  // ---------------------------------------------------------------------------

  lemma {:induction false} InstructionIsPlanned(values: seq<PlannedValue>, k: nat) returns (v: nat)
    requires k < |Instructions(values)|
    ensures v < |values| && !values[v].upload
    ensures Instructions(values)[k] == Instruction(values[v].field.selector, values[v].field.kind, values[v].values)
    ensures |TypedKeys(values)| == |Instructions(values)| && TypedKeys(values)[k] == values[v].field.key
  {
    if values != [] {
      var n := |values| - 1;
      TypedOrUploads(values[..n]);
      if k < |Instructions(values[..n])| {
        v := InstructionIsPlanned(values[..n], k);
      } else {
        v := n;
      }
    }
  }

  ghost predicate Contains(s: string, part: string) {
    exists before, after :: s == before + part + after
  }

  /** Nothing is stated, nothing is expected, or one contains the other, white space and case aside. */
  ghost predicate Agrees(t: Text, fold: string -> string, stated: string, expected: string) {
    || t.trim(stated) == "" || t.trim(expected) == ""
    || Contains(fold(expected), fold(t.trim(stated))) || Contains(fold(t.trim(stated)), fold(expected))
  }

  /** The page names a company or a title, and what it names is the granted job's. */
  ghost predicate SaysItIs(t: Text, fold: string -> string, page: Page, grant: Grant) {
    && (t.trim(page.company) != "" || t.trim(page.title) != "")
    && Agrees(t, fold, page.company, grant.company) && Agrees(t, fold, page.title, grant.title)
  }

  lemma IdentityIs(t: Text, fold: string -> string, page: Page, grant: Grant)
    ensures IdentityMatches(t, fold, ParseIdentity(t, page.company, page.title), grant.company, grant.title)
       <==> SaysItIs(t, fold, page, grant)
  {
    IncludesIff(fold(grant.company), fold(t.trim(page.company)));
    IncludesIff(fold(t.trim(page.company)), fold(grant.company));
    IncludesIff(fold(grant.title), fold(t.trim(page.title)));
    IncludesIff(fold(t.trim(page.title)), fold(grant.title));
  }

  /**
    A page is filled exactly when the tab is on the granted origin, the page says it belongs to
    the granted job and has a control; any other is reported as unsupported, with nothing typed.
  */
  lemma FillsOnlyItsOwnPage(r: Runtime, fold: string -> string, grant: Grant, page: Page)
    ensures DecideFill(r, fold, grant, page).Fill? <==>
              && page.origin == Some(grant.origin) && SaysItIs(r.text, fold, page, grant)
              && exists i :: 0 <= i < |page.raw| && page.raw[i].Row?
    ensures DecideFill(r, fold, grant, page).Refuse? ==>
              DecideFill(r, fold, grant, page).report == Report([], [], Commits.NoAdapter)
  {
    IdentityIs(r.text, fold, page, grant);
    OneFieldPerRow(r.text, page.raw, {});
    HasRows(page.raw);
  }

  lemma {:induction false} HasRows(raw: seq<Entry>)
    ensures Rows(raw) != [] <==> exists i :: 0 <= i < |raw| && raw[i].Row?
  {
    if raw != [] {
      HasRows(raw[1..]);
      assert forall i :: 0 < i < |raw| ==> raw[i] == raw[1..][i - 1];
      if i :| 0 <= i < |raw[1..]| && raw[1..][i].Row? {
        assert raw[i + 1].Row?;
      }
    }
  }

  /**
    Nothing is typed unless the tab is on the granted origin and the page says it belongs to the
    granted job; and each instruction types, into one of the page's own controls, words one of
    the granted answers warrants, and is reported under that control's key.
  */
  lemma TypesOnlyWhatWasGranted(r: Runtime, fold: string -> string, grant: Grant, page: Page, k: nat)
    returns (v: PlannedValue)
    requires DecideFill(r, fold, grant, page).Fill? && k < |DecideFill(r, fold, grant, page).instructions|
    ensures page.origin == Some(grant.origin)
    ensures SaysItIs(r.text, fold, page, grant)
    ensures v.field in Parsed(r.text, page.raw, {}) && !v.upload
    ensures |DecideFill(r, fold, grant, page).report.filled| == |DecideFill(r, fold, grant, page).instructions|
    ensures DecideFill(r, fold, grant, page).report.filled[k] == v.field.key
    ensures DecideFill(r, fold, grant, page).instructions[k] == Instruction(v.field.selector, v.field.kind, v.values)
    ensures Warranted(r, v, grant.fields, grant.hasResume)
  {
    var fields := Parsed(r.text, page.raw, {});
    var plan := Planned(r, fields, grant.fields, grant.hasResume);
    var i := InstructionIsPlanned(plan.values, k);
    v := plan.values[i];
    FillsOnlyItsOwnPage(r, fold, grant, page);
    PlanConservesFields(r, fields, grant.fields, grant.hasResume);
    ParsedNamesAreUnique(r.text, page.raw);
    ThoseKeepUniqueNames(r, fields, grant.fields, grant.hasResume);
    assert FieldsOf(plan.values)[i] == v.field;
  }

  /** The page's controls for a file that the plan would upload the CV into. */
  function Uploads(fields: seq<FormField>, hasResume: bool): nat {
    if fields == [] then 0
    else
      Uploads(fields[..|fields| - 1], hasResume)
      + if fields[|fields| - 1].key != "" && fields[|fields| - 1].kind.File? && hasResume then 1 else 0
  }

  function UploadCount(values: seq<PlannedValue>): nat {
    if values == [] then 0
    else UploadCount(values[..|values| - 1]) + if values[|values| - 1].upload then 1 else 0
  }

  lemma {:induction false} TypedOrUploads(values: seq<PlannedValue>)
    ensures |values| == |Instructions(values)| + UploadCount(values)
    ensures |TypedKeys(values)| == |Instructions(values)|
    ensures FirstUpload(values).Some? <==> UploadCount(values) > 0
  {
    if values != [] {
      var n := |values| - 1;
      TypedOrUploads(values[..n]);
      FirstUploadIsEarliest(values[..n], values[n]);
      assert values == values[..n] + [values[n]];
    }
  }

  lemma {:induction false} UploadsArePlanned(
    r: Runtime, fields: seq<FormField>, answers: seq<FillField>, hasResume: bool)
    ensures UploadCount(Planned(r, fields, answers, hasResume).values) == Uploads(fields, hasResume)
  {
    if fields != [] {
      var n := |fields| - 1;
      UploadsArePlanned(r, fields[..n], answers, hasResume);
      UploadsGrow(Planned(r, fields[..n], answers, hasResume).values, fields[n], Decide(r, fields[n], answers, hasResume));
      VerdictUploads(r, fields[n], answers, hasResume);
    }
  }

  lemma VerdictUploads(r: Runtime, f: FormField, answers: seq<FillField>, hasResume: bool)
    ensures Decide(r, f, answers, hasResume).Upload? <==> f.key != "" && f.kind.File? && hasResume
  {
  }

  lemma UploadsGrow(values: seq<PlannedValue>, f: FormField, verdict: Verdict)
    ensures verdict.Type? ==> UploadCount(values + [PlannedValue(f, verdict.values, false)]) == UploadCount(values)
    ensures UploadCount(values + [PlannedValue(f, [], true)]) == UploadCount(values) + 1
  {
  }

  /**
    Every control of the page is typed into, offered the CV, or reported as a question, exactly
    when the plan would upload the CV into at most one: of several file controls all but the
    first are neither filled nor reported.
  */
  lemma PageIsAccountedForIff(r: Runtime, fold: string -> string, grant: Grant, page: Page)
    requires DecideFill(r, fold, grant, page).Fill?
    ensures var d, fields := DecideFill(r, fold, grant, page), Parsed(r.text, page.raw, {});
            |d.instructions| + (if d.attachment.Some? then 1 else 0) + |d.report.unresolved| == |fields|
            <==> Uploads(fields, grant.hasResume) <= 1
  {
    var fields := Parsed(r.text, page.raw, {});
    PlanConservesFields(r, fields, grant.fields, grant.hasResume);
    UploadsArePlanned(r, fields, grant.fields, grant.hasResume);
    TypedOrUploads(Planned(r, fields, grant.fields, grant.hasResume).values);
  }

  lemma TwoUploads(r: Runtime, x: FormField, y: FormField)
    requires x.key != "" && y.key != "" && x.kind.File? && y.kind.File?
    ensures Planned(r, [x, y], [], true) == Plan([PlannedValue(x, [], true), PlannedValue(y, [], true)], [])
  {
    assert [x, y][..1] == [x] && [x][..0] == [];
    assert Planned(r, [], [], true) == Plan([], []);
    assert Decide(r, x, [], true).Upload? && Decide(r, y, [], true).Upload?;
    assert Planned(r, [x], [], true) == Plan([PlannedValue(x, [], true)], []);
  }

  lemma UploadsTypeNothing(v: PlannedValue, w: PlannedValue)
    requires v.upload && w.upload
    ensures Instructions([v, w]) == [] && TypedKeys([v, w]) == []
    ensures FirstUpload([v, w]) == Some(v.field)
  {
    assert [v, w][..1] == [v] && [v][..0] == [];
    assert Instructions([v]) == [] && TypedKeys([v]) == [];
  }

  lemma KeyOfKey(t: Text, key: string)
    requires KeepsKeys(t) && KeyAlphabet(key) && '_' !in key && |key| <= MAX_QUESTION_KEY_LENGTH
    ensures NormalizeQuestionKey(t, t.trim(key)) == key
  {
    assert Tight(key);
    CollapseKeepsKeys(key);
    assert FullKey(t, key) == key;
  }

  const CV: Entry := Row("cv", "#cv", "file", true, [], [])
  const LETTER: Entry := Row("letter", "#letter", "file", true, [], [])

  lemma TwoRows(t: Text, a: Entry, b: Entry)
    requires a.Row? && b.Row? && RowKey(t, a) != "" && RowKey(t, a) != RowKey(t, b)
    ensures Parsed(t, [a, b], {}) == [FieldOf(t, a, false), FieldOf(t, b, false)]
  {
    var seen := SeenAfter(t, a, {});
    assert seen == {RowKey(t, a)} && [a, b][1..] == [b] && [b][1..] == [];
    assert Parsed(t, [], SeenAfter(t, b, seen)) == [];
    assert Parsed(t, [b], seen) == [FieldOf(t, b, false)];
  }

  lemma FileRow(t: Text, row: Entry)
    requires KeepsKeys(t) && row.Row? && row.kind == "file"
    ensures FieldOf(t, row, false).kind.File?
  {
    assert KeyAlphabet("file") && t.trim("file") == "file" && t.lower("file") == "file";
  }

  lemma TwoFileControls(t: Text)
    requires KeepsKeys(t)
    ensures var x, y := FieldOf(t, CV, false), FieldOf(t, LETTER, false);
            Parsed(t, [CV, LETTER], {}) == [x, y] && x.key == "cv" && y.key == "letter" && x.kind.File? && y.kind.File?
  {
    KeyOfKey(t, "cv");
    KeyOfKey(t, "letter");
    FileRow(t, CV);
    FileRow(t, LETTER);
    TwoRows(t, CV, LETTER);
  }

  lemma TwoUploadsAreReportedAsOne(r: Runtime, fold: string -> string, grant: Grant, page: Page, x: FormField, y: FormField)
    requires Parsed(r.text, page.raw, {}) == [x, y] && x.key != "" && y.key != "" && x.kind.File? && y.kind.File?
    requires page.origin == Some(grant.origin) && grant.hasResume && grant.fields == []
    requires IdentityMatches(r.text, fold, ParseIdentity(r.text, page.company, page.title), grant.company, grant.title)
    ensures DecideFill(r, fold, grant, page) == Fill([], Some(x), Report([], [], Commits.AwaitingSubmit))
  {
    TwoUploads(r, x, y);
    UploadsTypeNothing(PlannedValue(x, [], true), PlannedValue(y, [], true));
  }

  /** A page with two required file controls: the first is offered the CV, and nothing is said of the second. */
  lemma SecondFileControlIsLost(r: Runtime, fold: string -> string, grant: Grant)
    requires KeepsKeys(r.text) && KeyAlphabet(grant.company) && KeyAlphabet(grant.title)
    requires grant.company != "" && grant.title != "" && grant.fields == [] && grant.hasResume
    ensures var page := Page(Some(grant.origin), grant.company, grant.title, [CV, LETTER]);
            DecideFill(r, fold, grant, page)
            == Fill([], Some(FieldOf(r.text, CV, false)), Report([], [], Commits.AwaitingSubmit))
  {
    var page := Page(Some(grant.origin), grant.company, grant.title, [CV, LETTER]);
    TwoFileControls(r.text);
    SameWordsMatch(r.text, fold, grant.company, grant.title);
    TwoUploadsAreReportedAsOne(r, fold, grant, page, FieldOf(r.text, CV, false), FieldOf(r.text, LETTER, false));
  }

  lemma SameWordsMatch(t: Text, fold: string -> string, company: string, title: string)
    requires KeepsKeys(t) && KeyAlphabet(company) && KeyAlphabet(title) && company != "" && title != ""
    ensures IdentityMatches(t, fold, ParseIdentity(t, company, title), company, title)
  {
    assert t.trim(company) == company && t.trim(title) == title;
    assert IncludesAt(fold(company), fold(company), 0) && IncludesAt(fold(title), fold(title), 0);
  }

  /**
    The report says the form waits for the person exactly when no required control is left; if
    the CV then could not be attached, a required file control counts as left.
  */
  lemma ReportPausesIff(r: Runtime, fold: string -> string, grant: Grant, page: Page)
    requires DecideFill(r, fold, grant, page).Fill?
    ensures var d, fields := DecideFill(r, fold, grant, page), Parsed(r.text, page.raw, {});
            && (d.report.outcome.QuestionsLeft? <==>
                  exists i :: 0 <= i < |fields| && fields[i].required && !Filled(r, fields[i], grant.fields, grant.hasResume))
            && (d.attachment.Some? ==>
                  var blocked := WithBlockedAttachment(d.report, d.attachment.value);
                  && (blocked.outcome.QuestionsLeft? <==> d.report.outcome.QuestionsLeft? || d.attachment.value.required)
                  && |blocked.unresolved| == |d.report.unresolved| + 1 && d.report.unresolved <= blocked.unresolved
                  && IsBlocked(blocked.unresolved[|d.report.unresolved|], d.attachment.value)
                  && blocked.filled == d.report.filled)
            && (!d.report.outcome.QuestionsLeft? ==> d.report.outcome.AwaitingSubmit?)
  {
    var d, fields := DecideFill(r, fold, grant, page), Parsed(r.text, page.raw, {});
    PauseIffRequiredLeft(r, fields, grant.fields, grant.hasResume);
  }

  /** The question asks for the file of this control. */
  ghost predicate IsBlocked(q: UnresolvedField, f: FormField) {
    && q.questionKey == f.key && q.required == f.required && q.reason.FileUploadBlocked?
    && (f.labelText == "" ==> q.labelText.None?) && (f.labelText != "" ==> q.labelText == Some(f.labelText))
  }

  /** The CV is offered to the first named file control of the page, where the grant has one to offer. */
  lemma AttachmentIsFirstFile(r: Runtime, fold: string -> string, grant: Grant, page: Page)
    requires DecideFill(r, fold, grant, page).Fill?
    ensures var d, fields := DecideFill(r, fold, grant, page), Parsed(r.text, page.raw, {});
            && (d.attachment.None? <==> !grant.hasResume || forall i :: 0 <= i < |fields| ==> !TakesFile(fields[i]))
            && (d.attachment.Some? ==>
                  exists i :: && 0 <= i < |fields| && fields[i] == d.attachment.value && TakesFile(fields[i])
                              && forall k :: 0 <= k < i ==> !TakesFile(fields[k]))
  {
    FirstUploadIs(r, Parsed(r.text, page.raw, {}), grant.fields, grant.hasResume);
  }

  ghost predicate TakesFile(f: FormField) {
    f.key != "" && f.kind.File?
  }

  lemma {:induction false} FirstUploadIs(r: Runtime, fields: seq<FormField>, answers: seq<FillField>, hasResume: bool)
    ensures var first := FirstUpload(Planned(r, fields, answers, hasResume).values);
            && (first.None? <==> !hasResume || forall i :: 0 <= i < |fields| ==> !TakesFile(fields[i]))
            && (first.Some? ==>
                  exists i :: && 0 <= i < |fields| && fields[i] == first.value && TakesFile(fields[i])
                              && forall k :: 0 <= k < i ==> !TakesFile(fields[k]))
  {
    if fields != [] {
      var n := |fields| - 1;
      FirstUploadIs(r, fields[..n], answers, hasResume);
      var before := Planned(r, fields[..n], answers, hasResume).values;
      var verdict := Decide(r, fields[n], answers, hasResume);
      VerdictUploads(r, fields[n], answers, hasResume);
      if !verdict.Ask? {
        FirstUploadIsEarliest(before, PlannedValue(fields[n], if verdict.Type? then verdict.values else [], verdict.Upload?));
      }
      assert forall i :: 0 <= i < n ==> fields[i] == fields[..n][i];
    }
  }

  lemma {:induction false} FirstUploadIsEarliest(values: seq<PlannedValue>, v: PlannedValue)
    ensures FirstUpload(values + [v]) ==
              if FirstUpload(values).Some? then FirstUpload(values) else if v.upload then Some(v.field) else None
  {
    if values != [] {
      assert (values + [v])[1..] == values[1..] + [v];
      FirstUploadIsEarliest(values[1..], v);
    }
  }
}

/**
  What a form is, from the planner's point of view: turning the rows a page reader saw
  into fields (packages/fill-planner/src/inspect.ts) and the canonical text a form's
  fingerprint is taken over (packages/fill-planner/src/forms.ts).

  Trimming and lower-casing are the runtime's, so they are carried as functions; every
  result holds for whatever they do unless an assumption about them is stated.
*/
module FormShape {
  import opened Ordering

  datatype Text = Text(trim: string -> string, lower: string -> string)

  datatype FieldKind =
    | TextInput | TextArea | Email | Tel | Url | Number
    | Select | Radio | Checkbox | File | Unsupported

  datatype FormField = FormField(
    key: string, labelText: string, kind: FieldKind, required: bool,
    options: seq<string>, optionValues: seq<string>, selector: string)

  /** One entry of the page reader's list, its members already read as strings and lists. */
  datatype Entry =
    | NotARow
    | Row(labelText: string, selector: string, kind: string, required: bool,
          options: seq<string>, optionValues: seq<string>)

  const MAX_QUESTION_KEY_LENGTH: nat := 120

  // ---------------------------------------------------------------------------
  // Question keys
  // ---------------------------------------------------------------------------

  predicate IsAlphanumeric(c: char) {
    'a' <= c <= 'z' || '0' <= c <= '9'
  }

  ghost predicate IsKeyCharacter(c: char) {
    'a' <= c <= 'z' || '0' <= c <= '9' || c == '_'
  }

  ghost predicate KeyAlphabet(s: string) {
    forall c :: c in s ==> IsKeyCharacter(c)
  }

  /** `replace(/[^a-z0-9]+/g, '_')`; `inRun` says the previous character was replaced. */
  function Collapse(s: string, inRun: bool): string {
    if s == "" then ""
    else if IsAlphanumeric(s[0]) then [s[0]] + Collapse(s[1..], false)
    else (if inRun then "" else "_") + Collapse(s[1..], true)
  }

  function StripLeft(s: string): string {
    if s != "" && s[0] == '_' then StripLeft(s[1..]) else s
  }

  function StripRight(s: string): string {
    if s != "" && s[|s| - 1] == '_' then StripRight(s[..|s| - 1]) else s
  }

  /** The key before it is cut to the contract's length. */
  function FullKey(t: Text, labelText: string): string {
    StripRight(StripLeft(Collapse(t.lower(t.trim(labelText)), false)))
  }

  function NormalizeQuestionKey(t: Text, labelText: string): string {
    var full := FullKey(t, labelText);
    if |full| <= MAX_QUESTION_KEY_LENGTH then full else full[..MAX_QUESTION_KEY_LENGTH]
  }

  /** No two underscores side by side. */
  ghost predicate Tight(s: string) {
    forall i :: 0 <= i && i + 1 < |s| ==> s[i] != '_' || s[i + 1] != '_'
  }

  lemma {:induction false} CollapseIsTight(s: string, inRun: bool)
    ensures KeyAlphabet(Collapse(s, inRun)) && Tight(Collapse(s, inRun))
    ensures inRun && Collapse(s, inRun) != "" ==> Collapse(s, inRun)[0] != '_'
  {
    if s != "" {
      if IsAlphanumeric(s[0]) {
        CollapseIsTight(s[1..], false);
      } else {
        CollapseIsTight(s[1..], true);
      }
    }
  }

  lemma StripsKeep(s: string)
    requires KeyAlphabet(s) && Tight(s)
    ensures KeyAlphabet(StripLeft(s)) && Tight(StripLeft(s))
    ensures KeyAlphabet(StripRight(s)) && Tight(StripRight(s))
    ensures StripRight(s) <= s
    ensures StripLeft(s) != "" ==> StripLeft(s)[0] != '_'
    ensures StripRight(s) != "" ==> StripRight(s)[|StripRight(s)| - 1] != '_'
  {
  }

  /** Every key is a contract key: lower-case alphanumerics and underscores, at most 120. */
  lemma KeyIsWellFormed(t: Text, labelText: string)
    ensures KeyAlphabet(NormalizeQuestionKey(t, labelText))
    ensures |NormalizeQuestionKey(t, labelText)| <= 120
    ensures Tight(NormalizeQuestionKey(t, labelText))
    ensures NormalizeQuestionKey(t, labelText) != "" ==> NormalizeQuestionKey(t, labelText)[0] != '_'
    ensures FullKey(t, labelText) != "" ==> FullKey(t, labelText)[|FullKey(t, labelText)| - 1] != '_'
  {
    var collapsed := Collapse(t.lower(t.trim(labelText)), false);
    CollapseIsTight(t.lower(t.trim(labelText)), false);
    StripsKeep(collapsed);
    StripsKeep(StripLeft(collapsed));
  }

  lemma {:induction false} CollapseKeepsKeys(s: string)
    requires KeyAlphabet(s) && Tight(s)
    ensures Collapse(s, false) == s
    ensures s != "" && s[0] == '_' ==> Collapse(s[1..], true) == s[1..]
  {
    if s != "" {
      assert IsKeyCharacter(s[0]);
      CollapseKeepsKeys(s[1..]);
      if s[0] == '_' && |s| > 1 {
        assert s[1] != '_';
        assert Collapse(s[1..], true) == [s[1]] + Collapse(s[1..][1..], false);
        assert Collapse(s[1..], false) == [s[1]] + Collapse(s[1..][1..], false);
      }
    }
  }

  /** The words of a text: its runs of letters and digits; `run` is the part of the first that was already read. */
  ghost function WordsOf(s: string, run: string): seq<string> {
    if s == "" then (if run == "" then [] else [run])
    else if 'a' <= s[0] <= 'z' || '0' <= s[0] <= '9' then WordsOf(s[1..], run + [s[0]])
    else (if run == "" then [] else [run]) + WordsOf(s[1..], "")
  }

  ghost function Underscored(words: seq<string>): string {
    if words == [] then ""
    else if |words| == 1 then words[0]
    else words[0] + "_" + Underscored(words[1..])
  }

  lemma {:induction false} CollapseKeepsWords(s: string, run: string)
    ensures WordsOf(Collapse(s, false), run) == WordsOf(s, run)
    ensures WordsOf(Collapse(s, true), "") == WordsOf(s, "")
  {
    if s != "" {
      var more, rest := Collapse(s[1..], false), Collapse(s[1..], true);
      CollapseKeepsWords(s[1..], run + [s[0]]);
      if IsAlphanumeric(s[0]) {
        CollapseKeepsWords(s[1..], "" + [s[0]]);
        assert ([s[0]] + more)[1..] == more;
      } else {
        assert ("_" + rest)[1..] == rest && "" + rest == rest;
      }
    }
  }

  lemma {:induction false} StripsKeepWords(s: string)
    ensures WordsOf(StripLeft(s), "") == WordsOf(s, "")
    ensures WordsOf(StripRight(s), "") == WordsOf(s, "")
    decreases |s|
  {
    if s != "" {
      if s[0] == '_' {
        StripsKeepWords(s[1..]);
      }
      var n := |s| - 1;
      if s[n] == '_' {
        StripsKeepWords(s[..n]);
        LastUnderscoreIsNoWord(s[..n], "");
        assert s == s[..n] + "_";
      }
    }
  }

  lemma {:induction false} LastUnderscoreIsNoWord(s: string, run: string)
    ensures WordsOf(s + "_", run) == WordsOf(s, run)
  {
    if s == "" {
      assert s + "_" == "_" && "_"[1..] == "";
    } else {
      assert (s + "_")[1..] == s[1..] + "_";
      LastUnderscoreIsNoWord(s[1..], if IsAlphanumeric(s[0]) then run + [s[0]] else "");
    }
  }

  /** A text without stray underscores is its words. */
  lemma {:induction false} TightIsItsWords(s: string, run: string)
    requires KeyAlphabet(s) && Tight(s) && (s != "" ==> s[|s| - 1] != '_') && (s != "" && run == "" ==> s[0] != '_')
    ensures Underscored(WordsOf(s, run)) == run + s
    ensures run + s != "" ==> WordsOf(s, run) != []
  {
    if s != "" {
      assert IsKeyCharacter(s[0]);
      if s[0] != '_' {
        TightIsItsWords(s[1..], run + [s[0]]);
        assert run + [s[0]] + s[1..] == run + s;
      } else {
        assert s[1] != '_';
        TightIsItsWords(s[1..], "");
        var rest := WordsOf(s[1..], "");
        assert ([run] + rest)[1..] == rest && "" + s[1..] == s[1..];
        assert run + "_" + s[1..] == run + s;
      }
    }
  }

  /** A key is the words of its label, lower-cased, with one underscore between two, cut to 120 characters. */
  lemma KeyIsItsWords(t: Text, labelText: string)
    ensures var words := Underscored(WordsOf(t.lower(t.trim(labelText)), ""));
            && FullKey(t, labelText) == words
            && NormalizeQuestionKey(t, labelText) == if |words| <= 120 then words else words[..120]
  {
    var lowered := t.lower(t.trim(labelText));
    var collapsed := Collapse(lowered, false);
    CollapseIsTight(lowered, false);
    CollapseKeepsWords(lowered, "");
    StripsKeep(collapsed);
    StripsKeepWords(collapsed);
    var left := StripLeft(collapsed);
    StripsKeep(left);
    StripsKeepWords(left);
    TightIsItsWords(StripRight(left), "");
    assert "" + StripRight(left) == StripRight(left);
  }

  /** Trimming and lower-casing leave text that is already a key alone. */
  ghost predicate KeepsKeys(t: Text) {
    forall s :: KeyAlphabet(s) ==> t.trim(s) == s && t.lower(s) == s
  }

  /**
    A key is its own key, except when the cut at 120 characters falls just after an
    underscore: the stripping runs before the cut, so that underscore survives the first
    time and is stripped the second.
  */
  lemma KeyIsStableUnlessCutAtUnderscore(t: Text, labelText: string)
    requires KeepsKeys(t)
    ensures NormalizeQuestionKey(t, NormalizeQuestionKey(t, labelText)) == NormalizeQuestionKey(t, labelText)
       <==> !(|FullKey(t, labelText)| > 120 && FullKey(t, labelText)[119] == '_')
  {
    var key := NormalizeQuestionKey(t, labelText);
    KeyIsWellFormed(t, labelText);
    CollapseKeepsKeys(key);
    assert StripLeft(key) == key;
    assert FullKey(t, key) == StripRight(key);
    StripsKeep(key);
    if key != "" && key[|key| - 1] == '_' {
      assert StripRight(key) == StripRight(key[..|key| - 1]);
      StripsKeep(key[..|key| - 1]);
    }
  }

  /** A label of 119 letters, an underscore and a letter: cut after the underscore, its key is not its own key. */
  lemma CutAtUnderscoreIsUnstable(t: Text)
    requires KeepsKeys(t)
    ensures var labelText := seq(119, _ => 'a') + "_b";
            && |NormalizeQuestionKey(t, labelText)| == 120
            && NormalizeQuestionKey(t, NormalizeQuestionKey(t, labelText)) != NormalizeQuestionKey(t, labelText)
  {
    var labelText := seq(119, _ => 'a') + "_b";
    assert labelText[0] == 'a' && labelText[119] == '_' && labelText[120] == 'b';
    CollapseKeepsKeys(labelText);
    assert FullKey(t, labelText) == labelText;
    KeyIsStableUnlessCutAtUnderscore(t, labelText);
  }

  // ---------------------------------------------------------------------------
  // Rows to fields
  // ---------------------------------------------------------------------------

  function KindFromRaw(t: Text, raw: string): FieldKind {
    match t.lower(t.trim(raw))
    case "text" => TextInput
    case "email" => Email
    case "tel" => Tel
    case "url" => Url
    case "number" => Number
    case "search" => TextInput
    case "textarea" => TextArea
    case "select" => Select
    case "radio" => Radio
    case "checkbox" => Checkbox
    case "file" => File
    case _ => Unsupported
  }

  /** Which control a type names, lower-cased and trimmed; any other type cannot be typed into. */
  lemma KindIs(t: Text, raw: string)
    ensures var w, kind := t.lower(t.trim(raw)), KindFromRaw(t, raw);
            && (kind.TextInput? <==> w in {"text", "search"}) && (kind.TextArea? <==> w == "textarea")
            && (kind.Email? <==> w == "email") && (kind.Tel? <==> w == "tel") && (kind.Url? <==> w == "url")
            && (kind.Number? <==> w == "number") && (kind.Select? <==> w == "select") && (kind.Radio? <==> w == "radio")
            && (kind.Checkbox? <==> w == "checkbox") && (kind.File? <==> w == "file")
  {
  }

  function Min(a: nat, b: nat): nat {
    if a < b then a else b
  }

  /** The values fall back to the labels when the reader supplied none. */
  function ValuesOf(row: Entry): seq<string>
    requires row.Row?
  {
    if row.optionValues == [] then row.options else row.optionValues
  }

  /** Of the first `n` texts, those standing where the option is not blank. */
  function Kept(t: Text, options: seq<string>, texts: seq<string>, n: nat): (kept: seq<string>)
    requires n <= |options| && n <= |texts|
    ensures texts == options ==> forall x :: x in kept ==> x in options && t.trim(x) != ""
  {
    if n == 0 then []
    else Kept(t, options, texts, n - 1) + (if t.trim(options[n - 1]) == "" then [] else [texts[n - 1]])
  }

  function OptionsOf(t: Text, row: Entry): seq<string>
    requires row.Row?
  {
    Kept(t, row.options, row.options, Min(|row.options|, |ValuesOf(row)|))
  }

  function OptionValuesOf(t: Text, row: Entry): seq<string>
    requires row.Row?
  {
    Kept(t, row.options, ValuesOf(row), Min(|row.options|, |ValuesOf(row)|))
  }

  /** The value the page gives an option: its own, or its label where the page gives no values. */
  ghost function ValueAt(row: Entry, i: nat): string
    requires row.Row? && i < |row.options| && (row.optionValues == [] || i < |row.optionValues|)
  {
    if row.optionValues == [] then row.options[i] else row.optionValues[i]
  }

  /** The position holds an option: it has a label that is not blank, and a value. */
  ghost predicate IsOption(t: Text, row: Entry, i: int)
    requires row.Row?
  {
    0 <= i < |row.options| && (row.optionValues == [] || i < |row.optionValues|) && t.trim(row.options[i]) != ""
  }

  /** These are the row's options in order, each with its own value: `at` says where each stands. */
  ghost predicate AreOptions(t: Text, row: Entry, options: seq<string>, values: seq<string>, at: seq<nat>)
    requires row.Row?
  {
    && |options| == |values| == |at|
    && (forall m :: 0 <= m < |at| ==>
          IsOption(t, row, at[m]) && options[m] == row.options[at[m]] && values[m] == ValueAt(row, at[m]))
    && (forall m, n :: 0 <= m < n < |at| ==> at[m] < at[n])
    && forall i :: IsOption(t, row, i) ==> i in at
  }

  /** The options among the first `n`, likewise. */
  ghost predicate AreFirst(t: Text, row: Entry, options: seq<string>, values: seq<string>, at: seq<nat>, n: nat)
    requires row.Row?
  {
    && |options| == |values| == |at|
    && (forall m :: 0 <= m < |at| ==>
          at[m] < n && IsOption(t, row, at[m]) && options[m] == row.options[at[m]] && values[m] == ValueAt(row, at[m]))
    && (forall m, k :: 0 <= m < k < |at| ==> at[m] < at[k])
    && forall i :: i < n && IsOption(t, row, i) ==> i in at
  }

  lemma OneMoreOption(t: Text, row: Entry, options: seq<string>, values: seq<string>, at: seq<nat>, n: nat)
    requires row.Row? && AreFirst(t, row, options, values, at, n)
    ensures !IsOption(t, row, n) ==> AreFirst(t, row, options, values, at, n + 1)
    ensures IsOption(t, row, n) ==>
              AreFirst(t, row, options + [row.options[n]], values + [ValueAt(row, n)], at + [n], n + 1)
  {
    if IsOption(t, row, n) {
      forall i | i < n + 1 && IsOption(t, row, i)
        ensures i in at + [n]
      {
        assert i < n ==> i in at;
        assert (at + [n])[|at|] == n;
      }
    }
  }

  lemma {:induction false} KeptAre(t: Text, row: Entry, n: nat) returns (at: seq<nat>)
    requires row.Row? && n <= |row.options| && n <= |ValuesOf(row)|
    ensures AreFirst(t, row, Kept(t, row.options, row.options, n), Kept(t, row.options, ValuesOf(row), n), at, n)
  {
    if n == 0 {
      at := [];
    } else {
      at := KeptAre(t, row, n - 1);
      OneMoreOption(t, row, Kept(t, row.options, row.options, n - 1), Kept(t, row.options, ValuesOf(row), n - 1), at, n - 1);
      if IsOption(t, row, n - 1) {
        at := at + [n - 1];
      }
    }
  }

  /** Blank options are dropped with their values; every other keeps its place and its value. */
  lemma OptionsAreKept(t: Text, row: Entry) returns (at: seq<nat>)
    requires row.Row?
    ensures AreOptions(t, row, OptionsOf(t, row), OptionValuesOf(t, row), at)
  {
    at := KeptAre(t, row, Min(|row.options|, |ValuesOf(row)|));
  }

  method ParseOptions(t: Text, row: Entry) returns (options: seq<string>, values: seq<string>)
    requires row.Row?
    ensures options == OptionsOf(t, row) && values == OptionValuesOf(t, row)
    ensures exists at :: AreOptions(t, row, options, values, at)
  {
    ghost var at := OptionsAreKept(t, row);
    var rawValues := ValuesOf(row);
    options, values := [], [];
    for i := 0 to Min(|row.options|, |rawValues|)
      invariant options == Kept(t, row.options, row.options, i)
      invariant values == Kept(t, row.options, rawValues, i)
    {
      if t.trim(row.options[i]) != "" {
        options := options + [row.options[i]];
        values := values + [rawValues[i]];
      }
    }
  }

  /** The field a row becomes: itself under its own key, or unnamed when the key is taken. */
  function FieldOf(t: Text, row: Entry, taken: bool): FormField
    requires row.Row?
  {
    FormField(
      if taken then "" else RowKey(t, row),
      t.trim(row.labelText),
      if taken then Unsupported else KindFromRaw(t, row.kind),
      row.required,
      OptionsOf(t, row),
      OptionValuesOf(t, row),
      row.selector)
  }

  function RowKey(t: Text, row: Entry): string
    requires row.Row?
  {
    NormalizeQuestionKey(t, t.trim(row.labelText))
  }

  function SeenAfter(t: Text, row: Entry, seen: set<string>): set<string>
    requires row.Row?
  {
    var key := RowKey(t, row);
    if key == "" then seen else seen + {key}
  }

  function Parsed(t: Text, raw: seq<Entry>, seen: set<string>): seq<FormField> {
    if raw == [] then []
    else if raw[0].NotARow? then Parsed(t, raw[1..], seen)
    else
      [FieldOf(t, raw[0], RowKey(t, raw[0]) in seen)] + Parsed(t, raw[1..], SeenAfter(t, raw[0], seen))
  }

  lemma ParsedNext(t: Text, raw: seq<Entry>, i: nat, seen: set<string>)
    requires i < |raw|
    ensures Parsed(t, raw[i..], seen) == (
              if raw[i].NotARow? then Parsed(t, raw[i + 1..], seen)
              else [FieldOf(t, raw[i], RowKey(t, raw[i]) in seen)] + Parsed(t, raw[i + 1..], SeenAfter(t, raw[i], seen)))
  {
  }

  lemma MovesOver<T>(front: seq<T>, x: T, back: seq<T>)
    ensures (front + [x]) + back == front + ([x] + back)
  {
  }

  method ParseFields(t: Text, raw: seq<Entry>) returns (fields: seq<FormField>)
    ensures fields == Parsed(t, raw, {})
  {
    fields := [];
    var seen: set<string> := {};
    for i := 0 to |raw|
      invariant fields + Parsed(t, raw[i..], seen) == Parsed(t, raw, {})
    {
      var row := raw[i];
      ParsedNext(t, raw, i, seen);
      if row.Row? {
        ghost var was := seen;
        var labelText := t.trim(row.labelText);
        var kind := KindFromRaw(t, row.kind);
        var options, values := ParseOptions(t, row);
        var key := NormalizeQuestionKey(t, labelText);
        var field: FormField;
        if key in seen {
          field := FormField("", labelText, Unsupported, row.required, options, values, row.selector);
        } else {
          if key != "" {
            seen := seen + {key};
          }
          field := FormField(key, labelText, kind, row.required, options, values, row.selector);
        }
        assert field == FieldOf(t, row, RowKey(t, row) in was);
        assert seen == SeenAfter(t, row, was);
        MovesOver(fields, field, Parsed(t, raw[i + 1..], seen));
        fields := fields + [field];
      }
    }
  }

  function Rows(raw: seq<Entry>): (rows: seq<Entry>)
    ensures forall i :: 0 <= i < |rows| ==> rows[i].Row?
  {
    if raw == [] then []
    else (if raw[0].Row? then [raw[0]] else []) + Rows(raw[1..])
  }

  /** An earlier row, or one already seen, has this row's key. */
  ghost predicate Taken(t: Text, rows: seq<Entry>, i: nat, seen: set<string>)
    requires i < |rows| && forall j :: 0 <= j < |rows| ==> rows[j].Row?
  {
    var key := RowKey(t, rows[i]);
    key in seen || (key != "" && exists j :: 0 <= j < i && RowKey(t, rows[j]) == key)
  }

  lemma TakenAfterFirst(t: Text, rows: seq<Entry>, i: nat, seen: set<string>)
    requires 0 < i < |rows| && forall j :: 0 <= j < |rows| ==> rows[j].Row?
    ensures Taken(t, rows, i, seen) <==> Taken(t, rows[1..], i - 1, SeenAfter(t, rows[0], seen))
  {
  }

  lemma {:induction false} FieldAt(t: Text, raw: seq<Entry>, seen: set<string>, i: nat)
    requires i < |Rows(raw)|
    ensures i < |Parsed(t, raw, seen)|
    ensures Parsed(t, raw, seen)[i] == FieldOf(t, Rows(raw)[i], Taken(t, Rows(raw), i, seen))
  {
    var rows := Rows(raw);
    if raw[0].NotARow? {
      assert rows == Rows(raw[1..]);
      FieldAt(t, raw[1..], seen, i);
    } else {
      assert rows[1..] == Rows(raw[1..]);
      if i > 0 {
        TakenAfterFirst(t, rows, i, seen);
        FieldAt(t, raw[1..], SeenAfter(t, raw[0], seen), i - 1);
      }
    }
  }

  lemma {:induction false} OneFieldPerRow(t: Text, raw: seq<Entry>, seen: set<string>)
    ensures |Parsed(t, raw, seen)| == |Rows(raw)|
  {
    if raw != [] {
      if raw[0].NotARow? {
        OneFieldPerRow(t, raw[1..], seen);
      } else {
        OneFieldPerRow(t, raw[1..], SeenAfter(t, raw[0], seen));
      }
    }
  }

  /** The question a row asks: the words of its label, as a key. */
  ghost function KeyOf(t: Text, row: Entry): string
    requires row.Row?
  {
    var words := Underscored(WordsOf(t.lower(t.trim(t.trim(row.labelText))), ""));
    if |words| <= 120 then words else words[..120]
  }

  lemma RowKeys(t: Text, rows: seq<Entry>)
    requires forall i :: 0 <= i < |rows| ==> rows[i].Row?
    ensures forall i :: 0 <= i < |rows| ==> RowKey(t, rows[i]) == KeyOf(t, rows[i])
  {
    forall i | 0 <= i < |rows|
      ensures RowKey(t, rows[i]) == KeyOf(t, rows[i])
    {
      KeyIsItsWords(t, t.trim(rows[i].labelText));
    }
  }

  /** The field is the row's: label, place, required-ness and options; its key and kind too, unless the key is taken. */
  ghost predicate FieldSays(t: Text, f: FormField, row: Entry, taken: bool)
    requires row.Row?
  {
    && f.labelText == t.trim(row.labelText) && f.required == row.required && f.selector == row.selector
    && (exists at :: AreOptions(t, row, f.options, f.optionValues, at))
    && (if taken then f.key == "" && f.kind.Unsupported? else f.key == KeyOf(t, row) && f.kind == KindFromRaw(t, row.kind))
  }

  lemma FieldOfSays(t: Text, row: Entry, taken: bool)
    requires row.Row?
    ensures FieldSays(t, FieldOf(t, row, taken), row, taken)
  {
    var at := OptionsAreKept(t, row);
    RowKeys(t, [row]);
    assert [row][0] == row;
  }

  /**
    One field per row, in page order. A row keeps the key of its label unless an earlier
    row has the same one, in which case the page gets an unnamed, unsupported control
    there: nothing a person should see is dropped and no key names two controls.
  */
  lemma FirstRowKeepsTheKey(t: Text, raw: seq<Entry>)
    ensures |Parsed(t, raw, {})| == |Rows(raw)|
    ensures forall i :: 0 <= i < |Rows(raw)| ==>
              Parsed(t, raw, {})[i] == FieldOf(t, Rows(raw)[i], Taken(t, Rows(raw), i, {}))
    ensures forall i :: 0 <= i < |Rows(raw)| ==>
              FieldSays(t, Parsed(t, raw, {})[i], Rows(raw)[i],
                exists j :: 0 <= j < i && KeyOf(t, Rows(raw)[j]) == KeyOf(t, Rows(raw)[i]) != "")
  {
    OneFieldPerRow(t, raw, {});
    forall i | 0 <= i < |Rows(raw)|
      ensures Parsed(t, raw, {})[i] == FieldOf(t, Rows(raw)[i], Taken(t, Rows(raw), i, {}))
      ensures FieldSays(t, Parsed(t, raw, {})[i], Rows(raw)[i],
                exists j :: 0 <= j < i && KeyOf(t, Rows(raw)[j]) == KeyOf(t, Rows(raw)[i]) != "")
    {
      FieldAt(t, raw, {}, i);
      RowKeys(t, Rows(raw));
      FieldOfSays(t, Rows(raw)[i], Taken(t, Rows(raw), i, {}));
    }
  }

  ghost predicate UniqueNames(fields: seq<FormField>) {
    forall i, j :: 0 <= i < j < |fields| && fields[i].key != "" ==> fields[i].key != fields[j].key
  }

  /** No two controls on a parsed page answer to the same question key. */
  lemma ParsedNamesAreUnique(t: Text, raw: seq<Entry>)
    ensures UniqueNames(Parsed(t, raw, {}))
  {
    FirstRowKeepsTheKey(t, raw);
    var fields, rows := Parsed(t, raw, {}), Rows(raw);
    forall i, j | 0 <= i < j < |fields| && fields[i].key != ""
      ensures fields[i].key != fields[j].key
    {
      assert fields[i].key == RowKey(t, rows[i]);
      assert fields[j].key != "" ==> !Taken(t, rows, j, {});
    }
  }
}

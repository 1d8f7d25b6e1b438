/**
  `fingerprintMaterial` (packages/fill-planner/src/forms.ts): the text a form's fingerprint
  is taken over. It says what the form asks, so it must change exactly when the form's shape
  does.
*/
module FormFingerprint {
  import opened Ordering
  import opened FormShape

  function KindName(kind: FieldKind): string {
    match kind
    case TextInput => "text"
    case TextArea => "textarea"
    case Email => "email"
    case Tel => "tel"
    case Url => "url"
    case Number => "number"
    case Select => "select"
    case Radio => "radio"
    case Checkbox => "checkbox"
    case File => "file"
    case Unsupported => "unsupported"
  }

  /** A kind is named as the input type it stands for, so both clients name a control alike. */
  lemma KindNameIsItsType(t: Text, kind: FieldKind)
    requires KeepsKeys(t)
    ensures KindFromRaw(t, KindName(kind)) == kind
    ensures kind.TextInput? ==> KindName(kind) == "text"
    ensures kind.Unsupported? ==> KindName(kind) == "unsupported"
  {
    assert KeyAlphabet(KindName(kind));
  }

  function Join(parts: seq<string>, separator: char): string {
    if parts == [] then ""
    else if |parts| == 1 then parts[0]
    else parts[0] + [separator] + Join(parts[1..], separator)
  }

  const FieldKey: FormField -> string := (f: FormField) => f.key
  const Itself: string -> string := (s: string) => s

  function OptionText(options: seq<string>): string {
    Join(SortBy(options, Itself), '|')
  }

  /** `${item.key}:${item.kind}:${item.required ? 1 : 0}:${options}` */
  function Line(f: FormField): string {
    f.key + ":" + KindName(f.kind) + ":" + (if f.required then "1" else "0") + ":" + OptionText(f.options)
  }

  function Lines(fields: seq<FormField>): (lines: seq<string>)
    ensures |lines| == |fields| && forall i :: 0 <= i < |fields| ==> lines[i] == Line(fields[i])
  {
    seq(|fields|, i requires 0 <= i < |fields| => Line(fields[i]))
  }

  function FingerprintMaterial(fields: seq<FormField>): string {
    Join(Lines(SortBy(fields, FieldKey)), '\n')
  }

  // ---------------------------------------------------------------------------
  // Reading joined text back
  // ---------------------------------------------------------------------------

  function UpTo(s: string, c: char): string {
    if s == "" || s[0] == c then "" else [s[0]] + UpTo(s[1..], c)
  }

  lemma {:induction false} UpToStops(a: string, c: char, rest: string)
    requires c !in a
    ensures UpTo(a + [c] + rest, c) == a
    ensures UpTo(a, c) == a
  {
    if a != "" {
      UpToStops(a[1..], c, rest);
      assert (a + [c] + rest)[1..] == a[1..] + [c] + rest;
    }
  }

  /** A separator that the first parts do not contain splits the text in one way only. */
  lemma SplitOnce(a: string, b: string, c: char, restA: string, restB: string)
    requires c !in a && c !in b
    requires a + [c] + restA == b + [c] + restB
    ensures a == b && restA == restB
  {
    UpToStops(a, c, restA);
    UpToStops(b, c, restB);
    assert restA == (a + [c] + restA)[|a| + 1..];
    assert restB == (b + [c] + restB)[|b| + 1..];
  }

  ghost predicate Separable(parts: seq<string>, c: char) {
    forall i :: 0 <= i < |parts| ==> parts[i] != "" && c !in parts[i]
  }

  lemma {:induction false} JoinIsInjective(a: seq<string>, b: seq<string>, c: char)
    requires Separable(a, c) && Separable(b, c)
    requires Join(a, c) == Join(b, c)
    ensures a == b
  {
    if a == [] || b == [] {
      JoinStart(a, c);
      JoinStart(b, c);
    } else {
      JoinStart(a, c);
      JoinStart(b, c);
      assert a == [a[0]] + a[1..] && b == [b[0]] + b[1..];
      assert (|a| > 1 ==> c in Join(a, c)) && (|b| > 1 ==> c in Join(b, c));
      if |a| > 1 && |b| > 1 {
        SplitOnce(a[0], b[0], c, Join(a[1..], c), Join(b[1..], c));
        JoinIsInjective(a[1..], b[1..], c);
      }
    }
  }

  lemma JoinStart(a: seq<string>, c: char)
    requires Separable(a, c)
    ensures a == [] <==> Join(a, c) == ""
    ensures |a| == 1 ==> c !in Join(a, c)
    ensures |a| > 1 ==> Join(a, c)[|a[0]|] == c
  {
  }

  lemma {:induction false} JoinAvoids(parts: seq<string>, separator: char, c: char)
    requires separator != c && forall i :: 0 <= i < |parts| ==> c !in parts[i]
    ensures c !in Join(parts, separator)
  {
    if |parts| > 1 {
      JoinAvoids(parts[1..], separator, c);
    }
  }

  // ---------------------------------------------------------------------------
  // Lines
  // ---------------------------------------------------------------------------

  /** What `parseFields` guarantees, plus options free of the two separators. */
  ghost predicate PlainField(f: FormField) {
    KeyAlphabet(f.key) && Separable(f.options, '|') && Separable(f.options, '\n')
  }

  ghost predicate PlainForm(fields: seq<FormField>) {
    UniqueNames(fields) && forall i :: 0 <= i < |fields| ==> PlainField(fields[i])
  }

  ghost predicate SameControl(f: FormField, g: FormField) {
    f.kind == g.kind && f.required == g.required && multiset(f.options) == multiset(g.options)
  }

  /** The text of a field can be told from its neighbours': all that is asked of an option is to be one line. */
  ghost predicate LineField(f: FormField) {
    KeyAlphabet(f.key) && forall o :: o in f.options ==> '\n' !in o
  }

  ghost predicate LineForm(fields: seq<FormField>) {
    UniqueNames(fields) && forall i :: 0 <= i < |fields| ==> LineField(fields[i])
  }

  /** The same control, as far as the text of its sorted options tells. */
  ghost predicate SameText(f: FormField, g: FormField) {
    f.kind == g.kind && f.required == g.required && OptionText(f.options) == OptionText(g.options)
  }

  lemma {:induction false} CopiesOf(s: seq<string>, k: string)
    ensures |WithKey(s, Itself, k)| == multiset(s)[k]
    ensures forall i :: 0 <= i < |WithKey(s, Itself, k)| ==> WithKey(s, Itself, k)[i] == k
  {
    if s != [] {
      CopiesOf(s[1..], k);
      WithKeyCons(s[0], s[1..], Itself, k);
      assert s == [s[0]] + s[1..];
      assert multiset(s) == multiset([s[0]]) + multiset(s[1..]);
    }
  }

  lemma OptionTextIsSet(a: seq<string>, b: seq<string>)
    requires Separable(a, '|') && Separable(b, '|')
    ensures OptionText(a) == OptionText(b) <==> multiset(a) == multiset(b)
  {
    SortIsStable(a, Itself);
    SortIsStable(b, Itself);
    SortedSeparable(a, '|');
    SortedSeparable(b, '|');
    if OptionText(a) == OptionText(b) {
      JoinIsInjective(SortBy(a, Itself), SortBy(b, Itself), '|');
    }
    if multiset(a) == multiset(b) {
      forall k
        ensures WithKey(a, Itself, k) == WithKey(b, Itself, k)
      {
        CopiesOf(a, k);
        CopiesOf(b, k);
      }
      SortIsCanonical(a, b, Itself);
    }
  }

  lemma SortedSeparable(a: seq<string>, c: char)
    requires Separable(a, c)
    ensures Separable(SortBy(a, Itself), c)
  {
    SortIsStable(a, Itself);
    forall i | 0 <= i < |SortBy(a, Itself)|
      ensures SortBy(a, Itself)[i] in a
    {
      assert SortBy(a, Itself)[i] in multiset(SortBy(a, Itself));
    }
  }

  lemma KindNamesDiffer(a: FieldKind, b: FieldKind)
    ensures KindName(a) == KindName(b) ==> a == b
    ensures ':' !in KindName(a) && '\n' !in KindName(a)
  {
  }

  lemma SortedAvoids(options: seq<string>, c: char)
    requires forall o :: o in options ==> c !in o
    ensures c != '|' ==> c !in OptionText(options)
  {
    SortIsStable(options, Itself);
    forall i | 0 <= i < |SortBy(options, Itself)|
      ensures c !in SortBy(options, Itself)[i]
    {
      assert SortBy(options, Itself)[i] in multiset(SortBy(options, Itself));
    }
    if c != '|' {
      JoinAvoids(SortBy(options, Itself), '|', c);
    }
  }

  lemma LineIsOneLine(f: FormField)
    requires LineField(f)
    ensures Line(f) != "" && '\n' !in Line(f) && UpTo(Line(f), ':') == f.key
  {
    KindNamesDiffer(f.kind, f.kind);
    SortedAvoids(f.options, '\n');
    LineSplits(f);
    UpToStops(f.key, ':', AfterKey(f));
  }

  lemma LineIsText(f: FormField, g: FormField)
    requires LineField(f) && LineField(g)
    ensures Line(f) == Line(g) <==> f.key == g.key && SameText(f, g)
  {
    if Line(f) == Line(g) {
      LineSplits(f);
      LineSplits(g);
      SplitOnce(f.key, g.key, ':', AfterKey(f), AfterKey(g));
      KindNamesDiffer(f.kind, g.kind);
      KindNamesDiffer(g.kind, f.kind);
      SplitOnce(KindName(f.kind), KindName(g.kind), ':', AfterKind(f), AfterKind(g));
      SplitOnce(Flag(f), Flag(g), ':', OptionText(f.options), OptionText(g.options));
    }
  }

  lemma PlainIsLine(f: FormField)
    requires PlainField(f)
    ensures LineField(f)
  {
    forall o | o in f.options
      ensures '\n' !in o
    {
      var i :| 0 <= i < |f.options| && f.options[i] == o;
    }
  }

  lemma LineIsControl(f: FormField, g: FormField)
    requires PlainField(f) && PlainField(g)
    ensures Line(f) == Line(g) <==> f.key == g.key && SameControl(f, g)
  {
    PlainIsLine(f);
    PlainIsLine(g);
    LineIsText(f, g);
    OptionTextIsSet(f.options, g.options);
  }

  function Flag(f: FormField): string {
    if f.required then "1" else "0"
  }

  function AfterKind(f: FormField): string {
    Flag(f) + [':'] + OptionText(f.options)
  }

  function AfterKey(f: FormField): string {
    KindName(f.kind) + [':'] + AfterKind(f)
  }

  lemma LineSplits(f: FormField)
    ensures Line(f) == f.key + [':'] + AfterKey(f)
  {
  }

  // ---------------------------------------------------------------------------
  // Sorting fields is sorting their lines
  // ---------------------------------------------------------------------------

  const LineKey: string -> string := (s: string) => UpTo(s, ':')

  lemma LinesCons(f: FormField, rest: seq<FormField>)
    ensures Lines([f] + rest) == [Line(f)] + Lines(rest)
  {
  }

  lemma {:induction false} InsertCommutes(f: FormField, fields: seq<FormField>)
    requires LineField(f) && forall i :: 0 <= i < |fields| ==> LineField(fields[i])
    ensures Lines(Insert(f, fields, FieldKey)) == Insert(Line(f), Lines(fields), LineKey)
  {
    LineIsOneLine(f);
    if fields == [] || !Before(fields[0].key, f.key) {
      LinesCons(f, fields);
      if fields != [] {
        LineIsOneLine(fields[0]);
      }
    } else {
      LineIsOneLine(fields[0]);
      assert Lines(fields)[1..] == Lines(fields[1..]);
      InsertCommutes(f, fields[1..]);
      LinesCons(fields[0], Insert(f, fields[1..], FieldKey));
    }
  }

  lemma {:induction false} SortCommutes(fields: seq<FormField>)
    requires forall i :: 0 <= i < |fields| ==> LineField(fields[i])
    ensures Lines(SortBy(fields, FieldKey)) == SortBy(Lines(fields), LineKey)
    ensures forall i :: 0 <= i < |SortBy(fields, FieldKey)| ==> LineField(SortBy(fields, FieldKey)[i])
  {
    SortIsStable(fields, FieldKey);
    forall i | 0 <= i < |SortBy(fields, FieldKey)|
      ensures SortBy(fields, FieldKey)[i] in fields
    {
      assert SortBy(fields, FieldKey)[i] in multiset(SortBy(fields, FieldKey));
    }
    if fields != [] {
      SortCommutes(fields[1..]);
      assert Lines(fields)[1..] == Lines(fields[1..]);
      InsertCommutes(fields[0], SortBy(fields[1..], FieldKey));
    }
  }

  lemma {:induction false} LinesWithKey(fields: seq<FormField>, k: string)
    requires forall i :: 0 <= i < |fields| ==> LineField(fields[i])
    ensures WithKey(Lines(fields), LineKey, k) == Lines(WithKey(fields, FieldKey, k))
  {
    if fields != [] {
      LineIsOneLine(fields[0]);
      LinesWithKey(fields[1..], k);
      assert Lines(fields)[1..] == Lines(fields[1..]);
      LinesCons(fields[0], WithKey(fields[1..], FieldKey, k));
    }
  }

  // ---------------------------------------------------------------------------
  // Material equality is shape equality
  // ---------------------------------------------------------------------------

  /** The controls nobody can name, in page order. */
  function Unnamed(fields: seq<FormField>): seq<FormField> {
    WithKey(fields, FieldKey, "")
  }

  ghost predicate Names(fields: seq<FormField>, k: string) {
    exists i :: 0 <= i < |fields| && fields[i].key == k
  }

  /**
    Two forms have the same shape: the same questions, each asked by the same control with
    the same options, and the same unnamed controls in the same order. Neither the order
    of the questions, nor the order of a control's options, nor any wording counts.
  */
  ghost predicate SameShape(a: seq<FormField>, b: seq<FormField>) {
    && (forall k :: k != "" ==> (Names(a, k) <==> Names(b, k)))
    && (forall i, j :: 0 <= i < |a| && 0 <= j < |b| && a[i].key == b[j].key && a[i].key != "" ==> SameControl(a[i], b[j]))
    && |Unnamed(a)| == |Unnamed(b)|
    && (forall i :: 0 <= i < |Unnamed(a)| ==> SameControl(Unnamed(a)[i], Unnamed(b)[i]))
  }

  /** The same shape, once each control's options are replaced by the text they sort and join to. */
  ghost predicate SameTextShape(a: seq<FormField>, b: seq<FormField>) {
    && (forall k :: k != "" ==> (Names(a, k) <==> Names(b, k)))
    && (forall i, j :: 0 <= i < |a| && 0 <= j < |b| && a[i].key == b[j].key && a[i].key != "" ==> SameText(a[i], b[j]))
    && |Unnamed(a)| == |Unnamed(b)|
    && (forall i :: 0 <= i < |Unnamed(a)| ==> SameText(Unnamed(a)[i], Unnamed(b)[i]))
  }

  lemma MaterialIsLines(a: seq<FormField>, b: seq<FormField>)
    requires LineForm(a) && LineForm(b)
    ensures FingerprintMaterial(a) == FingerprintMaterial(b) <==> SameByKey(Lines(a), Lines(b), LineKey)
  {
    SortCommutes(a);
    SortCommutes(b);
    SortIsCanonical(Lines(a), Lines(b), LineKey);
    var sortedA, sortedB := SortBy(a, FieldKey), SortBy(b, FieldKey);
    forall i | 0 <= i < |sortedA|
      ensures Line(sortedA[i]) != "" && '\n' !in Line(sortedA[i])
    {
      LineIsOneLine(sortedA[i]);
    }
    forall i | 0 <= i < |sortedB|
      ensures Line(sortedB[i]) != "" && '\n' !in Line(sortedB[i])
    {
      LineIsOneLine(sortedB[i]);
    }
    if FingerprintMaterial(a) == FingerprintMaterial(b) {
      JoinIsInjective(Lines(sortedA), Lines(sortedB), '\n');
    }
  }

  lemma {:induction false} NamedPick(fields: seq<FormField>, k: string)
    requires UniqueNames(fields) && k != ""
    ensures |WithKey(fields, FieldKey, k)| <= 1
    ensures WithKey(fields, FieldKey, k) != [] <==> Names(fields, k)
    ensures forall i :: 0 <= i < |fields| && fields[i].key == k ==> WithKey(fields, FieldKey, k) == [fields[i]]
  {
    if fields != [] {
      NamedPick(fields[1..], k);
      assert forall i :: 0 < i < |fields| ==> fields[i] == fields[1..][i - 1];
      if fields[0].key == k {
        assert !Names(fields[1..], k);
      }
    }
  }

  lemma LinesAgreeIffControlsAgree(a: seq<FormField>, b: seq<FormField>)
    requires |a| == |b|
    requires forall i :: 0 <= i < |a| ==> LineField(a[i]) && LineField(b[i]) && a[i].key == b[i].key
    ensures Lines(a) == Lines(b) <==> forall i :: 0 <= i < |a| ==> SameText(a[i], b[i])
  {
    forall i | 0 <= i < |a|
      ensures Lines(a)[i] == Lines(b)[i] <==> SameText(a[i], b[i])
    {
      LineIsText(a[i], b[i]);
    }
  }

  /** The controls under one key agree, in number and one by one. */
  ghost predicate AgreeAt(a: seq<FormField>, b: seq<FormField>, k: string) {
    var inA, inB := WithKey(a, FieldKey, k), WithKey(b, FieldKey, k);
    |inA| == |inB| && forall i :: 0 <= i < |inA| ==> SameText(inA[i], inB[i])
  }

  lemma LinesAgreeAt(a: seq<FormField>, b: seq<FormField>, k: string)
    requires LineForm(a) && LineForm(b)
    ensures WithKey(Lines(a), LineKey, k) == WithKey(Lines(b), LineKey, k) <==> AgreeAt(a, b, k)
  {
    LinesWithKey(a, k);
    LinesWithKey(b, k);
    WithKeyOrigin(a, FieldKey, k);
    WithKeyOrigin(b, FieldKey, k);
    var inA, inB := WithKey(a, FieldKey, k), WithKey(b, FieldKey, k);
    assert forall i :: 0 <= i < |inA| ==> inA[i] in inA;
    assert forall i :: 0 <= i < |inB| ==> inB[i] in inB;
    if |inA| == |inB| {
      LinesAgreeIffControlsAgree(inA, inB);
    } else {
      assert |Lines(inA)| != |Lines(inB)|;
    }
  }

  lemma ShapeAgreesAtName(a: seq<FormField>, b: seq<FormField>, k: string)
    requires UniqueNames(a) && UniqueNames(b) && k != ""
    ensures AgreeAt(a, b, k) <==>
              ((Names(a, k) <==> Names(b, k))
               && forall i, j :: 0 <= i < |a| && 0 <= j < |b| && a[i].key == k == b[j].key ==> SameText(a[i], b[j]))
  {
    NamedPick(a, k);
    NamedPick(b, k);
    if Names(a, k) && Names(b, k) {
      var i :| 0 <= i < |a| && a[i].key == k;
      var j :| 0 <= j < |b| && b[j].key == k;
      var inA, inB := WithKey(a, FieldKey, k), WithKey(b, FieldKey, k);
      assert inA == [a[i]] && inB == [b[j]];
      if SameText(inA[0], inB[0]) {
        assert AgreeAt(a, b, k);
      }
    }
  }

  lemma ShapeAgreesEverywhere(a: seq<FormField>, b: seq<FormField>)
    requires UniqueNames(a) && UniqueNames(b)
    ensures SameTextShape(a, b) <==> forall k :: AgreeAt(a, b, k)
  {
    if SameTextShape(a, b) {
      forall k
        ensures AgreeAt(a, b, k)
      {
        if k != "" { ShapeAgreesAtName(a, b, k); }
      }
    }
    if forall k :: AgreeAt(a, b, k) {
      assert AgreeAt(a, b, "");
      forall k | k != ""
        ensures Names(a, k) <==> Names(b, k)
      {
        assert AgreeAt(a, b, k);
        ShapeAgreesAtName(a, b, k);
      }
      forall i, j | 0 <= i < |a| && 0 <= j < |b| && a[i].key == b[j].key && a[i].key != ""
        ensures SameText(a[i], b[j])
      {
        assert AgreeAt(a, b, a[i].key);
        ShapeAgreesAtName(a, b, a[i].key);
      }
    }
  }

  /**
    Two forms whose options are one line each share a fingerprint text exactly when they agree
    once every list of options is replaced by its sorted, joined text.
  */
  lemma MaterialEqualityIsTextEquality(a: seq<FormField>, b: seq<FormField>)
    requires LineForm(a) && LineForm(b)
    ensures FingerprintMaterial(a) == FingerprintMaterial(b) <==> SameTextShape(a, b)
  {
    MaterialIsLines(a, b);
    ShapeAgreesEverywhere(a, b);
    forall k
      ensures WithKey(Lines(a), LineKey, k) == WithKey(Lines(b), LineKey, k) <==> AgreeAt(a, b, k)
    {
      LinesAgreeAt(a, b, k);
    }
  }

  lemma PlainShapesAgree(a: seq<FormField>, b: seq<FormField>)
    requires PlainForm(a) && PlainForm(b)
    ensures SameTextShape(a, b) <==> SameShape(a, b)
  {
    forall f, g | f in a && g in b
      ensures SameText(f, g) <==> SameControl(f, g)
    {
      OptionTextIsSet(f.options, g.options);
    }
    WithKeyOrigin(a, FieldKey, "");
    WithKeyOrigin(b, FieldKey, "");
    assert forall i :: 0 <= i < |Unnamed(a)| ==> Unnamed(a)[i] in a;
    assert forall i :: 0 <= i < |Unnamed(b)| ==> Unnamed(b)[i] in b;
  }

  /** The fingerprint of a form changes exactly when the form's shape does. */
  lemma MaterialEqualityIsShapeEquality(a: seq<FormField>, b: seq<FormField>)
    requires PlainForm(a) && PlainForm(b)
    ensures FingerprintMaterial(a) == FingerprintMaterial(b) <==> SameShape(a, b)
  {
    forall f | f in a || f in b
      ensures LineField(f)
    {
      PlainIsLine(f);
    }
    MaterialEqualityIsTextEquality(a, b);
    PlainShapesAgree(a, b);
  }

  /** What an option may not contain for the material to be read back. */
  ghost predicate PlainRow(row: Entry) {
    row.Row? ==> forall o :: o in row.options ==> '|' !in o && '\n' !in o
  }

  lemma FieldIsPlain(t: Text, row: Entry, taken: bool)
    requires row.Row? && PlainRow(row) && t.trim("") == ""
    ensures PlainField(FieldOf(t, row, taken))
  {
    KeyIsWellFormed(t, t.trim(row.labelText));
    var options := OptionsOf(t, row);
    forall i | 0 <= i < |options|
      ensures options[i] != "" && '|' !in options[i] && '\n' !in options[i]
    {
      assert options[i] in row.options;
    }
  }

  /** `parseFields` meets the assumptions, but for what an option may contain. */
  lemma ParsedFormIsPlain(t: Text, raw: seq<Entry>)
    requires t.trim("") == ""
    requires forall i :: 0 <= i < |raw| ==> PlainRow(raw[i])
    ensures PlainForm(Parsed(t, raw, {}))
  {
    ParsedNamesAreUnique(t, raw);
    FirstRowKeepsTheKey(t, raw);
    RowsOrigin(raw);
    var fields, rows := Parsed(t, raw, {}), Rows(raw);
    forall i | 0 <= i < |fields|
      ensures PlainField(fields[i])
    {
      assert rows[i] in raw;
      FieldIsPlain(t, rows[i], Taken(t, rows, i, {}));
    }
  }

  lemma RowsOrigin(raw: seq<Entry>)
    ensures forall i :: 0 <= i < |Rows(raw)| ==> Rows(raw)[i] in raw
  {
  }

  /** Pages that ask the same questions in another order, or reorder a list, keep their fingerprint. */
  lemma ParsedFormsCompareByShape(t: Text, raw: seq<Entry>, raw': seq<Entry>)
    requires t.trim("") == ""
    requires forall i :: 0 <= i < |raw| ==> PlainRow(raw[i])
    requires forall i :: 0 <= i < |raw'| ==> PlainRow(raw'[i])
    ensures FingerprintMaterial(Parsed(t, raw, {})) == FingerprintMaterial(Parsed(t, raw', {}))
       <==> SameShape(Parsed(t, raw, {}), Parsed(t, raw', {}))
  {
    ParsedFormIsPlain(t, raw);
    ParsedFormIsPlain(t, raw');
    MaterialEqualityIsShapeEquality(Parsed(t, raw, {}), Parsed(t, raw', {}));
  }

  /** Whatever the options hold but a line feed, two pages compare by the text of their lists. */
  lemma ParsedFormsCompareByText(t: Text, raw: seq<Entry>, raw': seq<Entry>)
    requires forall row :: (row in raw || row in raw') && row.Row? ==> forall o :: o in row.options ==> '\n' !in o
    ensures FingerprintMaterial(Parsed(t, raw, {})) == FingerprintMaterial(Parsed(t, raw', {}))
       <==> SameTextShape(Parsed(t, raw, {}), Parsed(t, raw', {}))
  {
    ParsedFormIsLines(t, raw);
    ParsedFormIsLines(t, raw');
    MaterialEqualityIsTextEquality(Parsed(t, raw, {}), Parsed(t, raw', {}));
  }

  lemma ParsedFormIsLines(t: Text, raw: seq<Entry>)
    requires forall row :: row in raw && row.Row? ==> forall o :: o in row.options ==> '\n' !in o
    ensures LineForm(Parsed(t, raw, {}))
  {
    ParsedNamesAreUnique(t, raw);
    FirstRowKeepsTheKey(t, raw);
    RowsOrigin(raw);
    var fields, rows := Parsed(t, raw, {}), Rows(raw);
    forall i | 0 <= i < |fields|
      ensures LineField(fields[i])
    {
      assert rows[i] in raw;
      KeyIsWellFormed(t, t.trim(rows[i].labelText));
      assert forall o :: o in OptionsOf(t, rows[i]) ==> o in rows[i].options;
    }
  }

  // ---------------------------------------------------------------------------
  // When the text of a list is not the list
  // ---------------------------------------------------------------------------

  ghost predicate NoneEmpty(options: seq<string>) {
    forall i :: 0 <= i < |options| ==> options[i] != ""
  }

  /** Some other list of options has this list's text. */
  ghost predicate IsAmbiguous(options: seq<string>) {
    exists other :: NoneEmpty(other) && multiset(other) != multiset(options) && OptionText(other) == OptionText(options)
  }

  /** The option reads as two, in order, around this separator. */
  ghost predicate ReadsAsTwo(option: string, i: nat) {
    0 < i && i + 1 < |option| && option[i] == '|' && !Before(option[i + 1..], option[..i])
  }

  lemma OneOptionText(o: string)
    ensures OptionText([o]) == o
  {
    assert SortBy([o], Itself) == [o] by {
      assert [o][1..] == [];
    }
  }

  lemma TwoOptionText(u: string, v: string)
    requires !Before(v, u)
    ensures OptionText([u, v]) == u + ['|'] + v
  {
    assert [u, v][1..] == [v] && [v][1..] == [];
    assert SortBy([v], Itself) == [v];
    assert SortBy([u, v], Itself) == Insert(u, [v], Itself) == [u] + [v];
    assert Join([v], '|') == v;
    assert Join([u, v], '|') == u + ['|'] + Join([u, v][1..], '|');
  }

  lemma {:induction false} PrefixIsNotAfter(a: string, b: string)
    ensures a + b == a || Before(a, a + b)
  {
    if a != "" {
      PrefixIsNotAfter(a[1..], b);
      assert (a + b)[1..] == a[1..] + b;
      assert b != "" ==> a[1..] + b != a[1..];
      assert b == "" ==> a + b == a;
    } else {
      assert a + b == b;
    }
  }

  lemma JoinIsNotEmpty(parts: seq<string>, c: char)
    requires NoneEmpty(parts)
    ensures parts == [] <==> Join(parts, c) == ""
  {
  }

  lemma SortedIsNoneEmpty(options: seq<string>)
    requires NoneEmpty(options)
    ensures NoneEmpty(SortBy(options, Itself)) && |SortBy(options, Itself)| == |options|
    ensures Sorted(SortBy(options, Itself), Itself) && multiset(SortBy(options, Itself)) == multiset(options)
  {
    SortIsStable(options, Itself);
    var sorted := SortBy(options, Itself);
    assert |multiset(sorted)| == |sorted| && |multiset(options)| == |options|;
    forall i | 0 <= i < |sorted|
      ensures sorted[i] != ""
    {
      assert sorted[i] in multiset(sorted);
      assert sorted[i] in options;
    }
  }

  /** The text of several options splits as a first option and what follows it, in order. */
  lemma SeveralReadAsTwo(options: seq<string>)
    requires NoneEmpty(options) && |options| >= 2
    ensures exists i :: 0 <= i && ReadsAsTwo(OptionText(options), i)
  {
    SortedIsNoneEmpty(options);
    var sorted := SortBy(options, Itself);
    var u, v := sorted[0], Join(sorted[1..], '|');
    JoinIsNotEmpty(sorted[1..], '|');
    assert OptionText(options) == u + ['|'] + v;
    assert !Before(sorted[1], u);
    FirstIsPrefix(sorted[1..], '|');
    var first := sorted[1];
    PrefixIsNotAfter(first, v[|first|..]);
    assert v == first + v[|first|..];
    if Before(v, u) && v != first {
      BeforeIsTransitive(first, v, u);
    }
    assert OptionText(options)[..|u|] == u && OptionText(options)[|u| + 1..] == v;
    assert ReadsAsTwo(OptionText(options), |u|);
  }

  lemma FirstIsPrefix(parts: seq<string>, c: char)
    requires parts != []
    ensures parts[0] <= Join(parts, c)
  {
  }

  /**
    The text of a list stands for another list too exactly when the list has several options, or
    has one that reads as two in order around a separator. A list of one option without the
    separator, or out of order around it, is all its text can mean.
  */
  lemma AmbiguousIff(options: seq<string>)
    requires NoneEmpty(options)
    ensures IsAmbiguous(options) <==>
            |options| >= 2 || (|options| == 1 && exists i :: 0 <= i && ReadsAsTwo(options[0], i))
  {
    if |options| >= 2 {
      SortedIsNoneEmpty(options);
      JoinIsNotEmpty(SortBy(options, Itself), '|');
      var other := [OptionText(options)];
      OneOptionText(OptionText(options));
      assert |multiset(other)| == 1 && |multiset(options)| == |options|;
    } else if |options| == 1 {
      OneIsAmbiguousIff(options[0]);
      assert options == [options[0]];
    } else {
      forall other | NoneEmpty(other) && OptionText(other) == OptionText(options)
        ensures multiset(other) == multiset(options)
      {
        SortedIsNoneEmpty(other);
        JoinIsNotEmpty(SortBy(other, Itself), '|');
      }
    }
  }

  lemma OneIsAmbiguousIff(o: string)
    requires o != ""
    ensures IsAmbiguous([o]) <==> exists i :: 0 <= i && ReadsAsTwo(o, i)
  {
    OneOptionText(o);
    if i :| 0 <= i && ReadsAsTwo(o, i) {
      var other := [o[..i], o[i + 1..]];
      TwoOptionText(o[..i], o[i + 1..]);
      assert o[..i] + ['|'] + o[i + 1..] == o;
      assert |multiset(other)| == 2 && |multiset([o])| == 1;
      assert NoneEmpty(other);
    }
    if other :| NoneEmpty(other) && multiset(other) != multiset([o]) && OptionText(other) == OptionText([o]) {
      SortedIsNoneEmpty(other);
      JoinIsNotEmpty(SortBy(other, Itself), '|');
      if |other| >= 2 {
        SeveralReadAsTwo(other);
      } else {
        assert |other| == 1 ==> SortBy(other, Itself) == [SortBy(other, Itself)[0]];
      }
    }
  }

  /** Two pages, one offering "a|b" and one "a" and "b", are read as forms of different shape and share a text. */
  lemma SeparatorInOptionIsAmbiguous(t: Text, labelText: string, selector: string)
    requires t.trim("a|b") != "" && t.trim("a") != "" && t.trim("b") != ""
    ensures var one, two := [Row(labelText, selector, "select", false, ["a|b"], [])],
                            [Row(labelText, selector, "select", false, ["a", "b"], [])];
            && FingerprintMaterial(Parsed(t, one, {})) == FingerprintMaterial(Parsed(t, two, {}))
            && !SameShape(Parsed(t, one, {}), Parsed(t, two, {}))
  {
    var row := Row(labelText, selector, "select", false, ["a|b"], []);
    var row' := Row(labelText, selector, "select", false, ["a", "b"], []);
    OneRow(t, row);
    OneRow(t, row');
    var f, g := FieldOf(t, row, false), FieldOf(t, row', false);
    OptionsKept(t, row);
    OptionsKept(t, row');
    OneOptionText("a|b");
    assert !Before("b", "a") by {
      assert 'a' < 'b';
    }
    TwoOptionText("a", "b");
    assert "a" + ['|'] + "b" == "a|b";
    assert Line(f) == Line(g);
    assert Lines([f]) == Lines([g]);
    assert SortBy([f], FieldKey) == [f] && SortBy([g], FieldKey) == [g] by {
      assert [f][1..] == [] && [g][1..] == [];
    }
    assert |multiset(f.options)| == 1 && |multiset(g.options)| == 2;
    assert !SameControl([f][0], [g][0]);
    if f.key == "" {
      WithKeyCons(f, [], FieldKey, "");
      WithKeyCons(g, [], FieldKey, "");
      assert Unnamed([f]) == [f] && Unnamed([g]) == [g];
    }
  }

  lemma OneRow(t: Text, row: Entry)
    requires row.Row?
    ensures Parsed(t, [row], {}) == [FieldOf(t, row, false)]
  {
    assert [row][1..] == [];
  }

  lemma OptionsKept(t: Text, row: Entry)
    requires row.Row? && row.optionValues == [] && 1 <= |row.options| <= 2
    requires forall o :: o in row.options ==> t.trim(o) != ""
    ensures OptionsOf(t, row) == row.options
  {
    var options := row.options;
    assert Kept(t, options, options, 0) == [];
    assert Kept(t, options, options, 1) == [options[0]];
    if |options| == 2 {
      assert Kept(t, options, options, 2) == [options[0]] + [options[1]];
    }
  }
}

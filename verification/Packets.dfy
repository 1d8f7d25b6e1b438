/**
  Packet content: what `content_hash` covers, what a fill client is given, and the answers a
  runner's `needs_input` report turns into (apps/api/src/applications/service.ts, fillable.ts,
  fill.ts).
*/
module Packets {
  import opened Common
  import opened Ordering
  import opened InsertionMap
  import opened FillPlan

  datatype Provenance = UserEntered | FromAnswerBank | FromProfileFact | FromPreference

  datatype PacketAnswer = PacketAnswer(
    questionKey: string, labelText: Option<string>, answer: Option<AnswerValue>, required: bool,
    sensitivity: Sensitivity, provenance: Provenance, sourceId: Option<string>)

  datatype Destination = Destination(url: string, origin: string, connector: Option<string>, version: Option<string>)

  /** Everything a packet snapshots besides its answers. */
  datatype Snapshot = Snapshot(
    profileRevision: nat, jobId: string, jobRevision: nat, resumeId: string, resumeSha: Option<string>,
    destination: Destination, formFingerprint: Option<string>)

  datatype HashedAnswer = HashedAnswer(questionKey: string, answer: Option<AnswerValue>, provenance: Provenance)

  datatype Material = Material(hashVersion: nat, snapshot: Snapshot, answers: seq<HashedAnswer>)

  const PACKET_HASH_VERSION: nat := 1

  const AnswerKey: PacketAnswer -> string := (a: PacketAnswer) => a.questionKey
  const HashedKey: HashedAnswer -> string := (a: HashedAnswer) => a.questionKey

  function Hashed(a: PacketAnswer): HashedAnswer {
    HashedAnswer(a.questionKey, a.answer, a.provenance)
  }

  function AllHashed(answers: seq<PacketAnswer>): (hashed: seq<HashedAnswer>)
    ensures |hashed| == |answers| && forall i :: 0 <= i < |answers| ==> hashed[i] == Hashed(answers[i])
  {
    seq(|answers|, i requires 0 <= i < |answers| => Hashed(answers[i]))
  }

  function BuildPacketHashMaterial(snapshot: Snapshot, answers: seq<PacketAnswer>): Material {
    Material(PACKET_HASH_VERSION, snapshot, AllHashed(SortBy(answers, AnswerKey)))
  }

  /** SHA-256 of canonical JSON, of which only this is used. */
  ghost predicate Injective(digest: Material -> string) {
    forall m, n :: digest(m) == digest(n) ==> m == n
  }

  /** The two lists say the same thing under every key, whatever their order, labels or marks. */
  ghost predicate SameAnswers(a: seq<PacketAnswer>, b: seq<PacketAnswer>) {
    && |a| == |b|
    && forall i :: 0 <= i < |a| ==> exists j :: 0 <= j < |b| && Hashed(b[j]) == Hashed(a[i])
  }

  lemma {:induction false} HashedInsert(x: PacketAnswer, s: seq<PacketAnswer>)
    ensures AllHashed(Insert(x, s, AnswerKey)) == Insert(Hashed(x), AllHashed(s), HashedKey)
  {
    if s != [] {
      assert AllHashed(s)[1..] == AllHashed(s[1..]);
      if Before(s[0].questionKey, x.questionKey) {
        HashedInsert(x, s[1..]);
      }
    }
  }

  lemma {:induction false} HashedSort(s: seq<PacketAnswer>)
    ensures AllHashed(SortBy(s, AnswerKey)) == SortBy(AllHashed(s), HashedKey)
  {
    if s != [] {
      assert AllHashed(s)[1..] == AllHashed(s[1..]);
      HashedSort(s[1..]);
      HashedInsert(s[0], SortBy(s[1..], AnswerKey));
    }
  }

  /** Distinct keys and as many elements: matching one way is matching both ways. */
  lemma {:induction false} CoverIsOnto(a: seq<HashedAnswer>, b: seq<HashedAnswer>)
    requires UniqueKeys(a, HashedKey) && UniqueKeys(b, HashedKey) && |a| == |b|
    requires forall x :: x in a ==> x in b
    ensures forall x :: x in b ==> x in a
  {
    if a != [] {
      var n := |a| - 1;
      assert a[n] in b;
      var j :| 0 <= j < |b| && b[j] == a[n];
      var rest := b[..j] + b[j + 1..];
      forall x | x in a[..n]
        ensures x in rest
      {
        var i :| 0 <= i < n && a[..n][i] == x;
        assert a[i] == x && HashedKey(a[i]) != HashedKey(a[n]);
        assert x in b;
        var m :| 0 <= m < |b| && b[m] == x;
        assert m < j ==> rest[m] == x;
        assert m > j ==> rest[m - 1] == x;
      }
      CoverIsOnto(a[..n], rest);
      forall x | x in b
        ensures x in a
      {
        var m :| 0 <= m < |b| && b[m] == x;
        assert m < j ==> rest[m] == x;
        assert m > j ==> rest[m - 1] == x;
        assert a == a[..n] + [a[n]];
      }
    }
  }

  lemma SortedSameThenSameAnswers(a: seq<PacketAnswer>, b: seq<PacketAnswer>)
    requires SortBy(AllHashed(a), HashedKey) == SortBy(AllHashed(b), HashedKey)
    ensures SameAnswers(a, b)
  {
    var ha, hb := AllHashed(a), AllHashed(b);
    SortIsStable(ha, HashedKey);
    SortIsStable(hb, HashedKey);
    assert multiset(ha) == multiset(hb);
    assert |ha| == |multiset(ha)| && |hb| == |multiset(hb)|;
    forall i | 0 <= i < |a|
      ensures exists j :: 0 <= j < |b| && Hashed(b[j]) == Hashed(a[i])
    {
      assert ha[i] in multiset(ha);
      assert ha[i] in hb;
      var j :| 0 <= j < |hb| && hb[j] == ha[i];
      assert Hashed(b[j]) == Hashed(a[i]);
    }
  }

  lemma SameAnswersThenCover(a: seq<PacketAnswer>, b: seq<PacketAnswer>)
    requires UniqueKeys(a, AnswerKey) && UniqueKeys(b, AnswerKey) && SameAnswers(a, b)
    ensures UniqueKeys(AllHashed(a), HashedKey) && UniqueKeys(AllHashed(b), HashedKey)
    ensures forall x :: x in AllHashed(a) <==> x in AllHashed(b)
  {
    var ha, hb := AllHashed(a), AllHashed(b);
    assert forall i :: 0 <= i < |a| ==> HashedKey(ha[i]) == AnswerKey(a[i]);
    assert forall i :: 0 <= i < |b| ==> HashedKey(hb[i]) == AnswerKey(b[i]);
    forall x | x in ha
      ensures x in hb
    {
      var i :| 0 <= i < |ha| && ha[i] == x;
      var j :| 0 <= j < |b| && Hashed(b[j]) == Hashed(a[i]);
      assert hb[j] == x;
    }
    CoverIsOnto(ha, hb);
  }

  lemma SameElementsSameByKey(ha: seq<HashedAnswer>, hb: seq<HashedAnswer>)
    requires UniqueKeys(ha, HashedKey) && UniqueKeys(hb, HashedKey)
    requires forall x :: x in ha <==> x in hb
    ensures SameByKey(ha, hb, HashedKey)
  {
    forall k
      ensures WithKey(ha, HashedKey, k) == WithKey(hb, HashedKey, k)
    {
      UniqueKeysPick(ha, HashedKey, k);
      UniqueKeysPick(hb, HashedKey, k);
      if i :| 0 <= i < |ha| && HashedKey(ha[i]) == k {
        assert ha[i] in hb;
      }
      if i :| 0 <= i < |hb| && HashedKey(hb[i]) == k {
        assert hb[i] in ha;
      }
    }
  }

  lemma SameAnswersIffSortedSame(a: seq<PacketAnswer>, b: seq<PacketAnswer>)
    requires UniqueKeys(a, AnswerKey) && UniqueKeys(b, AnswerKey)
    ensures AllHashed(SortBy(a, AnswerKey)) == AllHashed(SortBy(b, AnswerKey)) <==> SameAnswers(a, b)
  {
    HashedSort(a);
    HashedSort(b);
    if SortBy(AllHashed(a), HashedKey) == SortBy(AllHashed(b), HashedKey) {
      SortedSameThenSameAnswers(a, b);
    }
    if SameAnswers(a, b) {
      SameAnswersThenCover(a, b);
      SameElementsSameByKey(AllHashed(a), AllHashed(b));
      SortIsCanonical(AllHashed(a), AllHashed(b), HashedKey);
    }
  }

  /**
    A content hash binds exactly what would be sent: two packets share one when, and only
    when, they snapshot the same revisions, CV bytes, destination and form and give every
    question the same answer from the same kind of source, in whatever order.
  */
  lemma HashBindsContent(
    digest: Material -> string, s: Snapshot, a: seq<PacketAnswer>, s': Snapshot, b: seq<PacketAnswer>)
    requires Injective(digest) && UniqueKeys(a, AnswerKey) && UniqueKeys(b, AnswerKey)
    ensures digest(BuildPacketHashMaterial(s, a)) == digest(BuildPacketHashMaterial(s', b))
       <==> s == s' && SameAnswers(a, b)
    ensures BuildPacketHashMaterial(s, a).hashVersion == 1
  {
    SameAnswersIffSortedSame(a, b);
  }

  // ---------------------------------------------------------------------------
  // What travels to a fill client
  // ---------------------------------------------------------------------------

  function FillableFields(answers: seq<PacketAnswer>): seq<FillField> {
    if answers == [] then []
    else
      (match answers[0].answer
       case None => []
       case Some(value) => [FillField(answers[0].questionKey, value, answers[0].required)])
      + FillableFields(answers[1..])
  }

  /** The client may type `value` under `key`. */
  ghost predicate Grants(fields: seq<FillField>, key: string, value: AnswerValue) {
    exists i :: 0 <= i < |fields| && fields[i].questionKey == key && fields[i].answer == value
  }

  ghost predicate Answers(answers: seq<PacketAnswer>, key: string, value: AnswerValue) {
    exists i :: 0 <= i < |answers| && answers[i].questionKey == key && answers[i].answer == Some(value)
  }

  lemma GrantsConcat(a: seq<FillField>, b: seq<FillField>, key: string, value: AnswerValue)
    ensures Grants(a + b, key, value) <==> Grants(a, key, value) || Grants(b, key, value)
  {
    var ab := a + b;
    if i :| 0 <= i < |a| && a[i].questionKey == key && a[i].answer == value {
      assert ab[i] == a[i];
    }
    if i :| 0 <= i < |b| && b[i].questionKey == key && b[i].answer == value {
      assert ab[|a| + i] == b[i];
    }
  }

  lemma AnswersFirstOrRest(answers: seq<PacketAnswer>, key: string, value: AnswerValue)
    requires answers != []
    ensures Answers(answers, key, value) <==>
            (answers[0].questionKey == key && answers[0].answer == Some(value)) || Answers(answers[1..], key, value)
  {
  }

  /** Only answered questions travel, and every answered question does. */
  lemma {:induction false} GrantIsTheAnswers(answers: seq<PacketAnswer>, key: string, value: AnswerValue)
    ensures Grants(FillableFields(answers), key, value) <==> Answers(answers, key, value)
  {
    if answers != [] {
      var rest := FillableFields(answers[1..]);
      var first := match answers[0].answer
        case None => []
        case Some(v) => [FillField(answers[0].questionKey, v, answers[0].required)];
      GrantIsTheAnswers(answers[1..], key, value);
      GrantsConcat(first, rest, key, value);
      AnswersFirstOrRest(answers, key, value);
      if answers[0].questionKey == key && answers[0].answer == Some(value) {
        assert first[0].questionKey == key && first[0].answer == value;
      }
    }
  }

  /** A grant issued for a quoted hash carries exactly the answers that were approved under it. */
  lemma GrantCarriesApprovedAnswers(
    digest: Material -> string, approved: Snapshot, answers: seq<PacketAnswer>,
    granted: Snapshot, answers': seq<PacketAnswer>, key: string, value: AnswerValue)
    requires Injective(digest) && UniqueKeys(answers, AnswerKey) && UniqueKeys(answers', AnswerKey)
    requires digest(BuildPacketHashMaterial(approved, answers)) == digest(BuildPacketHashMaterial(granted, answers'))
    ensures Grants(FillableFields(answers'), key, value) <==> Answers(answers, key, value)
    ensures granted == approved
  {
    HashBindsContent(digest, approved, answers, granted, answers');
    HashBindsContent(digest, granted, answers', approved, answers);
    GrantIsTheAnswers(answers', key, value);
    if Answers(answers, key, value) {
      SameAnswersAnswer(answers, answers', key, value);
    }
    if Answers(answers', key, value) {
      SameAnswersAnswer(answers', answers, key, value);
    }
  }

  lemma SameAnswersAnswer(a: seq<PacketAnswer>, b: seq<PacketAnswer>, key: string, value: AnswerValue)
    requires SameAnswers(a, b) && Answers(a, key, value)
    ensures Answers(b, key, value)
  {
  }

  // ---------------------------------------------------------------------------
  // Required questions and discovered ones
  // ---------------------------------------------------------------------------

  predicate Unresolved(a: PacketAnswer) {
    a.required && a.answer.None?
  }

  function UnresolvedQuestionKeys(answers: seq<PacketAnswer>): seq<string> {
    if answers == [] then []
    else (if Unresolved(answers[0]) then [answers[0].questionKey] else []) + UnresolvedQuestionKeys(answers[1..])
  }

  lemma {:induction false} NothingUnresolved(answers: seq<PacketAnswer>)
    ensures UnresolvedQuestionKeys(answers) == [] <==> forall a :: a in answers && a.required ==> a.answer.Some?
  {
    if answers != [] {
      NothingUnresolved(answers[1..]);
      assert forall i :: 0 < i < |answers| ==> answers[i] == answers[1..][i - 1];
    }
  }

  /** A question the page asked that the runner did not fill. */
  datatype Discovered = Discovered(questionKey: string, labelText: Option<string>, required: bool, neverInferable: bool)

  function FirstWith(fields: seq<Discovered>, key: string): (i: nat)
    ensures i <= |fields|
    ensures i < |fields| ==> fields[i].questionKey == key
    ensures forall j :: 0 <= j < i ==> fields[j].questionKey != key
  {
    if fields == [] || fields[0].questionKey == key then 0 else 1 + FirstWith(fields[1..], key)
  }

  ghost predicate PageRequires(fields: seq<Discovered>, key: string) {
    exists i :: 0 <= i < |fields| && fields[i].questionKey == key && fields[i].required
  }

  /** The answer a merged list holds for a question the packet already had. */
  ghost function Raised(a: PacketAnswer, fields: seq<Discovered>): PacketAnswer {
    a.(required := a.required || PageRequires(fields, a.questionKey))
  }

  /** The blank a merged list holds for a question the packet did not have. */
  ghost function Blank(fields: seq<Discovered>, key: string): PacketAnswer
    requires FirstWith(fields, key) < |fields|
  {
    var field := fields[FirstWith(fields, key)];
    PacketAnswer(key, field.labelText, None, PageRequires(fields, key),
      if field.neverInferable then NeverReuse else Standard, UserEntered, None)
  }

  /** What merging promises, for the first fields of a report. */
  ghost predicate MergedWith(existing: seq<PacketAnswer>, fields: seq<Discovered>, merged: seq<PacketAnswer>) {
    && UniqueKeys(merged, AnswerKey)
    && |existing| <= |merged|
    && (forall i :: 0 <= i < |existing| ==> merged[i] == Raised(existing[i], fields))
    && (forall i :: |existing| <= i < |merged| ==>
          && FirstWith(fields, merged[i].questionKey) < |fields|
          && merged[i] == Blank(fields, merged[i].questionKey))
    && (forall i :: 0 <= i < |fields| ==> HasKey(merged, fields[i].questionKey, AnswerKey))
  }

  lemma {:induction false} FirstWithAppend(fields: seq<Discovered>, field: Discovered, key: string)
    ensures FirstWith(fields + [field], key) ==
            if FirstWith(fields, key) < |fields| then FirstWith(fields, key)
            else if field.questionKey == key then |fields| else |fields| + 1
  {
    if fields != [] && fields[0].questionKey != key {
      assert (fields + [field])[1..] == fields[1..] + [field];
      FirstWithAppend(fields[1..], field, key);
    }
  }

  lemma RequiresAppend(fields: seq<Discovered>, field: Discovered, key: string)
    ensures PageRequires(fields + [field], key) <==>
            PageRequires(fields, key) || (field.questionKey == key && field.required)
  {
    var more := fields + [field];
    assert more[|fields|] == field;
    if PageRequires(fields, key) {
      var i :| 0 <= i < |fields| && fields[i].questionKey == key && fields[i].required;
      assert more[i] == fields[i];
    }
  }

  function NewBlank(field: Discovered): PacketAnswer {
    PacketAnswer(field.questionKey, field.labelText, None, field.required,
      if field.neverInferable then NeverReuse else Standard, UserEntered, None)
  }

  /** One pass of the loop: a known question keeps everything but its required-ness. */
  function MergeOne(merged: seq<PacketAnswer>, field: Discovered): seq<PacketAnswer> {
    var m := IndexOf(merged, field.questionKey, AnswerKey);
    if m < |merged| then merged[m := merged[m].(required := merged[m].required || field.required)]
    else merged + [NewBlank(field)]
  }

  function Merged(existing: seq<PacketAnswer>, fields: seq<Discovered>): seq<PacketAnswer> {
    if fields == [] then existing else MergeOne(Merged(existing, fields[..|fields| - 1]), fields[|fields| - 1])
  }

  lemma MergeOneKeepsKeys(merged: seq<PacketAnswer>, field: Discovered)
    requires UniqueKeys(merged, AnswerKey)
    ensures UniqueKeys(MergeOne(merged, field), AnswerKey)
    ensures |merged| <= |MergeOne(merged, field)|
    ensures forall i :: 0 <= i < |merged| ==> MergeOne(merged, field)[i].questionKey == merged[i].questionKey
    ensures HasKey(MergeOne(merged, field), field.questionKey, AnswerKey)
  {
    var m := IndexOf(merged, field.questionKey, AnswerKey);
    assert AnswerKey(MergeOne(merged, field)[m]) == field.questionKey;
  }

  /** An element of the merged list before and after one more field. */
  lemma MergeOneAt(merged: seq<PacketAnswer>, field: Discovered, i: nat)
    requires UniqueKeys(merged, AnswerKey) && i < |merged|
    ensures MergeOne(merged, field)[i]
         == merged[i].(required := merged[i].required || (merged[i].questionKey == field.questionKey && field.required))
  {
  }

  /** Merging keeps and raises what the packet had, and adds one blank per new question. */
  lemma {:induction false} MergeMeetsItsPromise(existing: seq<PacketAnswer>, fields: seq<Discovered>)
    requires UniqueKeys(existing, AnswerKey)
    ensures MergedWith(existing, fields, Merged(existing, fields))
  {
    if fields != [] {
      var before, field := fields[..|fields| - 1], fields[|fields| - 1];
      assert fields == before + [field];
      MergeMeetsItsPromise(existing, before);
      var merged := Merged(existing, before);
      MergeOneKeepsKeys(merged, field);
      forall i | 0 <= i < |Merged(existing, fields)|
        ensures i < |existing| ==> Merged(existing, fields)[i] == Raised(existing[i], fields)
        ensures i >= |existing| ==>
                  && FirstWith(fields, Merged(existing, fields)[i].questionKey) < |fields|
                  && Merged(existing, fields)[i] == Blank(fields, Merged(existing, fields)[i].questionKey)
      {
        MergedAt(existing, before, field, i);
      }
      forall i | 0 <= i < |fields|
        ensures HasKey(Merged(existing, fields), fields[i].questionKey, AnswerKey)
      {
        if i < |before| {
          var m :| 0 <= m < |merged| && AnswerKey(merged[m]) == before[i].questionKey;
          assert AnswerKey(Merged(existing, fields)[m]) == fields[i].questionKey;
        }
      }
    }
  }

  lemma MergedAt(existing: seq<PacketAnswer>, before: seq<Discovered>, field: Discovered, i: nat)
    requires MergedWith(existing, before, Merged(existing, before))
    requires i < |MergeOne(Merged(existing, before), field)|
    ensures var a, fields := MergeOne(Merged(existing, before), field)[i], before + [field];
            if i < |existing| then a == Raised(existing[i], fields)
            else FirstWith(fields, a.questionKey) < |fields| && a == Blank(fields, a.questionKey)
  {
    var merged := Merged(existing, before);
    if i < |merged| {
      MergeOneAt(merged, field, i);
      RequiresAppend(before, field, merged[i].questionKey);
      FirstWithAppend(before, field, merged[i].questionKey);
      if i >= |existing| {
        var k := FirstWith(before, merged[i].questionKey);
        assert (before + [field])[k] == before[k];
      }
    } else {
      var key, k := field.questionKey, FirstWith(before, field.questionKey);
      assert !HasKey(merged, key, AnswerKey);
      assert forall j :: 0 <= j < |before| ==> before[j].questionKey != key;
      assert k == |before|;
      RequiresAppend(before, field, key);
      FirstWithAppend(before, field, key);
      assert !PageRequires(before, key);
      assert (before + [field])[|before|] == field;
    }
  }

  lemma SetIsMergeOne(merged: seq<PacketAnswer>, field: Discovered, current: Option<PacketAnswer>)
    requires UniqueKeys(merged, AnswerKey)
    requires current.Some? <==> HasKey(merged, field.questionKey, AnswerKey)
    requires current.Some? ==> current.value in merged && AnswerKey(current.value) == field.questionKey
    ensures MergeOne(merged, field) == Put(merged,
              if current.Some? then current.value.(required := current.value.required || field.required)
              else NewBlank(field), AnswerKey)
  {
  }

  /**
    `mergeDiscoveredQuestions`. Stored answers have distinct keys, so collapsing them
    changes nothing (`CollapsedIsIdentity`).
  */
  method MergeDiscoveredQuestions(existing: seq<PacketAnswer>, fields: seq<Discovered>)
    returns (merged: seq<PacketAnswer>)
    ensures merged == Merged(Collapsed(existing, AnswerKey), fields)
  {
    var byKey := new KeyedMap(AnswerKey);
    for i := 0 to |existing|
      invariant fresh(byKey) && byKey.Valid() && byKey.key == AnswerKey
      invariant byKey.Contents() == Collapsed(existing[..i], AnswerKey)
    {
      byKey.Set(existing[i]);
      assert existing[..i + 1][..i] == existing[..i];
    }
    assert existing[..|existing|] == existing;
    ghost var start := byKey.Contents();
    for i := 0 to |fields|
      invariant fresh(byKey) && byKey.Valid() && byKey.key == AnswerKey
      invariant byKey.Contents() == Merged(start, fields[..i])
    {
      var field := fields[i];
      ghost var before := byKey.Contents();
      var current := byKey.Get(field.questionKey);
      SetIsMergeOne(before, field, current);
      if current.Some? {
        byKey.Set(current.value.(required := current.value.required || field.required));
      } else {
        byKey.Set(NewBlank(field));
      }
      assert fields[..i + 1][..i] == fields[..i];
    }
    assert fields[..|fields|] == fields;
    merged := byKey.Values();
  }

  /** No value is lost or made up, and an unanswered question the page requires holds the packet. */
  lemma MergeIsLossless(existing: seq<PacketAnswer>, fields: seq<Discovered>, merged: seq<PacketAnswer>)
    requires UniqueKeys(existing, AnswerKey) && MergedWith(existing, fields, merged)
    ensures forall k, v :: Answers(merged, k, v) <==> Answers(existing, k, v)
    ensures (exists i :: 0 <= i < |fields| && fields[i].required && !HasKey(existing, fields[i].questionKey, AnswerKey))
              ==> UnresolvedQuestionKeys(merged) != []
    ensures UnresolvedQuestionKeys(existing) != [] ==> UnresolvedQuestionKeys(merged) != []
  {
    forall k, v
      ensures Answers(merged, k, v) <==> Answers(existing, k, v)
    {
      if Answers(existing, k, v) {
        var i :| 0 <= i < |existing| && existing[i].questionKey == k && existing[i].answer == Some(v);
        assert merged[i].questionKey == k && merged[i].answer == Some(v);
      }
    }
    NothingUnresolved(merged);
    NothingUnresolved(existing);
    if i :| 0 <= i < |fields| && fields[i].required && !HasKey(existing, fields[i].questionKey, AnswerKey) {
      var key := fields[i].questionKey;
      assert HasKey(merged, key, AnswerKey);
      var m :| 0 <= m < |merged| && AnswerKey(merged[m]) == key;
      assert forall j :: 0 <= j < |existing| ==> AnswerKey(existing[j]) != key;
      assert m >= |existing|;
      assert PageRequires(fields, key);
      assert Unresolved(merged[m]);
    }
    if i :| 0 <= i < |existing| && Unresolved(existing[i]) {
      assert Unresolved(merged[i]);
    }
  }
}

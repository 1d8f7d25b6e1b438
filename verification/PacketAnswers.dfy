/**
  Which answers a packet may be built from: one per question, and each reused value backed by
  a row the person confirmed for this use (apps/api/src/applications/answers.ts).
*/
module PacketAnswers {
  import opened Common
  import opened Ordering
  import opened FillPlan
  import opened Packets

  datatype Scope = General | ForCompany(company: string) | ForJob(job: string)

  datatype BankRow = BankRow(
    questionKey: string, confirmed: bool, expires: Option<Time>, sensitivity: Sensitivity, scope: Scope)

  /** What the answers are checked against: the job, its company as normalized, and the rows in reach. */
  datatype Sources = Sources(job: string, company: string, bank: map<string, BankRow>, facts: map<string, bool>, now: Time)

  datatype Refusal =
    | AnsweredTwice | NeverReused | PreferenceHasNoRow | TypedHasNoRow | BankRowUnnamed | NoSuchEntry
    | WrongQuestion | Unconfirmed | Expired | StoredForReference | OutOfScope | FactUnnamed | NoSuchFact | FactUnconfirmed

  datatype Verdict = Accepted | Refused(index: nat, reason: Refusal)

  predicate ScopeCoversJob(scope: Scope, sources: Sources) {
    match scope
    case General => true
    case ForCompany(company) => company == sources.company
    case ForJob(job) => job == sources.job
  }

  /** The rules that need no stored row. */
  function OwnFault(a: PacketAnswer): Option<Refusal> {
    if a.sensitivity.NeverReuse? && !a.provenance.UserEntered? then Some(NeverReused)
    else if a.provenance.FromPreference? && a.sourceId.Some? then Some(PreferenceHasNoRow)
    else if a.provenance.UserEntered? && a.sourceId.Some? then Some(TypedHasNoRow)
    else None
  }

  function BankFault(a: PacketAnswer, sources: Sources): Option<Refusal> {
    if !a.provenance.FromAnswerBank? then None
    else if a.sourceId.None? then Some(BankRowUnnamed)
    else if a.sourceId.value !in sources.bank then Some(NoSuchEntry)
    else
      var row := sources.bank[a.sourceId.value];
      if row.questionKey != a.questionKey then Some(WrongQuestion)
      else if !row.confirmed then Some(Unconfirmed)
      else if row.expires.Some? && row.expires.value <= sources.now then Some(Expired)
      else if row.sensitivity.NeverReuse? then Some(StoredForReference)
      else if !ScopeCoversJob(row.scope, sources) then Some(OutOfScope)
      else None
  }

  function FactFault(a: PacketAnswer, sources: Sources): Option<Refusal> {
    if !a.provenance.FromProfileFact? then None
    else if a.sourceId.None? then Some(FactUnnamed)
    else if a.sourceId.value !in sources.facts then Some(NoSuchFact)
    else if !sources.facts[a.sourceId.value] then Some(FactUnconfirmed)
    else None
  }

  /** An answer may be used: typed by the person here, or reused from something they confirmed for it. */
  ghost predicate Backed(a: PacketAnswer, sources: Sources) {
    match a.provenance
    case UserEntered => a.sourceId.None?
    case FromPreference => a.sourceId.None? && !a.sensitivity.NeverReuse?
    case FromProfileFact =>
      !a.sensitivity.NeverReuse? && a.sourceId.Some? && a.sourceId.value in sources.facts && sources.facts[a.sourceId.value]
    case FromAnswerBank =>
      && !a.sensitivity.NeverReuse? && a.sourceId.Some? && a.sourceId.value in sources.bank
      && var row := sources.bank[a.sourceId.value];
         && row.questionKey == a.questionKey && row.confirmed && !row.sensitivity.NeverReuse?
         && (row.expires.Some? ==> sources.now < row.expires.value)
         && row.scope in {General, ForCompany(sources.company), ForJob(sources.job)}
  }

  /** The bank row the answer names. */
  ghost predicate FromRow(a: PacketAnswer, sources: Sources, row: BankRow) {
    && a.provenance.FromAnswerBank? && a.sourceId.Some? && a.sourceId.value in sources.bank
    && row == sources.bank[a.sourceId.value]
  }

  /** The answer has the fault that the reason names. */
  ghost predicate Shows(a: PacketAnswer, sources: Sources, reason: Refusal) {
    match reason
    case AnsweredTwice => false
    case NeverReused => a.sensitivity.NeverReuse? && !a.provenance.UserEntered?
    case PreferenceHasNoRow => a.provenance.FromPreference? && a.sourceId.Some?
    case TypedHasNoRow => a.provenance.UserEntered? && a.sourceId.Some?
    case BankRowUnnamed => a.provenance.FromAnswerBank? && a.sourceId.None?
    case NoSuchEntry => a.provenance.FromAnswerBank? && a.sourceId.Some? && a.sourceId.value !in sources.bank
    case WrongQuestion => exists row :: FromRow(a, sources, row) && row.questionKey != a.questionKey
    case Unconfirmed => exists row :: FromRow(a, sources, row) && !row.confirmed
    case Expired => exists row :: FromRow(a, sources, row) && row.expires.Some? && row.expires.value <= sources.now
    case StoredForReference => exists row :: FromRow(a, sources, row) && row.sensitivity.NeverReuse?
    case OutOfScope =>
      exists row :: FromRow(a, sources, row) && row.scope !in {General, ForCompany(sources.company), ForJob(sources.job)}
    case FactUnnamed => a.provenance.FromProfileFact? && a.sourceId.None?
    case NoSuchFact => a.provenance.FromProfileFact? && a.sourceId.Some? && a.sourceId.value !in sources.facts
    case FactUnconfirmed =>
      a.provenance.FromProfileFact? && a.sourceId.Some? && a.sourceId.value in sources.facts
      && !sources.facts[a.sourceId.value]
  }

  lemma FaultsShow(a: PacketAnswer, sources: Sources)
    ensures OwnFault(a).Some? ==> Shows(a, sources, OwnFault(a).value)
    ensures BankFault(a, sources).Some? ==> Shows(a, sources, BankFault(a, sources).value)
    ensures FactFault(a, sources).Some? ==> Shows(a, sources, FactFault(a, sources).value)
    ensures Backed(a, sources) <==> OwnFault(a).None? && BankFault(a, sources).None? && FactFault(a, sources).None?
  {
    if a.provenance.FromAnswerBank? && a.sourceId.Some? && a.sourceId.value in sources.bank {
      assert FromRow(a, sources, sources.bank[a.sourceId.value]);
    }
  }

  /** What a refusal names is really there. */
  ghost predicate HasFault(answers: seq<PacketAnswer>, sources: Sources, i: nat, reason: Refusal) {
    && i < |answers|
    && ((reason.AnsweredTwice? && exists j :: 0 <= j < i && answers[j].questionKey == answers[i].questionKey)
        || Shows(answers[i], sources, reason))
  }

  /**
    `assertPacketAnswers`: every answer's own rules first, then the bank rows and then the
    facts, unnamed ones before the rest.
    It accepts exactly the lists that answer each question once with backed values, and a
    refusal names an answer that has the fault it says.
  */
  method AssertPacketAnswers(answers: seq<PacketAnswer>, sources: Sources) returns (verdict: Verdict)
    ensures verdict.Accepted? <==>
            UniqueKeys(answers, AnswerKey) && forall i :: 0 <= i < |answers| ==> Backed(answers[i], sources)
    ensures verdict.Refused? ==> HasFault(answers, sources, verdict.index, verdict.reason)
  {
    forall i | 0 <= i < |answers|
      ensures OwnFault(answers[i]).Some? ==> Shows(answers[i], sources, OwnFault(answers[i]).value)
      ensures BankFault(answers[i], sources).Some? ==> Shows(answers[i], sources, BankFault(answers[i], sources).value)
      ensures FactFault(answers[i], sources).Some? ==> Shows(answers[i], sources, FactFault(answers[i], sources).value)
      ensures Backed(answers[i], sources) <==>
              OwnFault(answers[i]).None? && BankFault(answers[i], sources).None? && FactFault(answers[i], sources).None?
    {
      FaultsShow(answers[i], sources);
    }
    var seen: set<string> := {};
    for i := 0 to |answers|
      invariant forall k :: k in seen <==> exists j :: 0 <= j < i && answers[j].questionKey == k
      invariant forall a, b :: 0 <= a < b < i ==> AnswerKey(answers[a]) != AnswerKey(answers[b])
      invariant forall j :: 0 <= j < i ==> OwnFault(answers[j]).None?
    {
      var answer := answers[i];
      if answer.questionKey in seen {
        return Refused(i, AnsweredTwice);
      }
      seen := seen + {answer.questionKey};
      var fault := OwnFault(answer);
      if fault.Some? {
        return Refused(i, fault.value);
      }
    }
    for i := 0 to |answers| {
      if BankFault(answers[i], sources) == Some(BankRowUnnamed) {
        return Refused(i, BankRowUnnamed);
      }
    }
    for i := 0 to |answers|
      invariant forall j :: 0 <= j < i ==> BankFault(answers[j], sources).None?
    {
      var fault := BankFault(answers[i], sources);
      if fault.Some? {
        return Refused(i, fault.value);
      }
    }
    for i := 0 to |answers| {
      if FactFault(answers[i], sources) == Some(FactUnnamed) {
        return Refused(i, FactUnnamed);
      }
    }
    for i := 0 to |answers|
      invariant forall j :: 0 <= j < i ==> FactFault(answers[j], sources).None?
    {
      var fault := FactFault(answers[i], sources);
      if fault.Some? {
        return Refused(i, fault.value);
      }
    }
    verdict := Accepted;
  }
}

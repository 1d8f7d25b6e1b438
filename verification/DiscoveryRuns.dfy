/**
  Discovery over time. A log of what was observed (a posting listed, a complete snapshot
  taken, a source deleted) is kept beside the tables; the counters on the provenance rows are
  a fast form of it, and a closure must be justified by it.
*/
module DiscoveryRuns {
  import opened Common
  import opened Ordering
  import opened InsertionMap
  import opened JobStore
  import opened BoardAbsorption

  datatype Fact =
    | Sighted(key: string, through: Option<nat>)
    | Snapshot(source: nat, at: Time, listed: set<string>)
    | Removed(source: nat)

  datatype State = State(db: Db, enabled: set<nat>, log: seq<Fact>)

  datatype Step =
    | Absorb(connector: string, board: string, source: nat, result: FetchResult)
    | FailScan(source: nat)
    | ImportPosting(posting: Posting, origin: Origin, seenAt: Time)
    | SetEnabled(source: nat, on: bool)
    | RemoveSource(source: nat)
    | EditJob(job: nat, patch: Patch, now: Time)

  function Sightings(postings: seq<Posting>, through: Option<nat>): (facts: seq<Fact>)
    ensures |facts| == |postings|
  {
    seq(|postings|, i requires 0 <= i < |postings| => Sighted(postings[i].sourceKey, through))
  }

  /** Deleting a source leaves its rows, and empties their pointer to it. */
  function Detached(rows: seq<Provenance>, source: nat): (after: seq<Provenance>)
    ensures |after| == |rows|
    ensures forall r :: 0 <= r < |rows| ==>
              after[r] == if rows[r].source == Some(source) then rows[r].(source := None) else rows[r]
  {
    seq(|rows|, r requires 0 <= r < |rows| =>
      if rows[r].source == Some(source) then rows[r].(source := None) else rows[r])
  }

  /** What a result shows: each posting it lists, and the whole board if it is a complete snapshot. */
  function Shown(source: nat, result: FetchResult): seq<Fact> {
    var postings := Collapsed(result.postings, PostingKey);
    Sightings(postings, Some(source))
    + if Complete(result) then [Snapshot(source, result.fetchedAt, KeysOf(postings))] else []
  }

  ghost function Next(web: Web, s: State, step: Step): State {
    match step
    case Absorb(connector, board, source, result) =>
      s.(db := Absorbed(web, s.db, s.enabled, connector, board, source, result), log := s.log + Shown(source, result))
    case FailScan(source) => s
    case ImportPosting(posting, origin, seenAt) =>
      s.(db := Upserted(web, s.db, posting, origin, seenAt), log := s.log + [Sighted(posting.sourceKey, origin.source)])
    case SetEnabled(source, on) => s.(enabled := if on then s.enabled + {source} else s.enabled - {source})
    case RemoveSource(source) =>
      State(s.db.(rows := Detached(s.db.rows, source)), s.enabled - {source}, s.log + [Removed(source)])
    case EditJob(job, patch, now) =>
      if job < |s.db.jobs| then s.(db := s.db.(jobs := s.db.jobs[job := Patched(s.db.jobs[job], patch, now)])) else s
  }

  ghost function Run(web: Web, steps: seq<Step>): State {
    if steps == [] then State(Db([], []), {}, [])
    else Next(web, Run(web, steps[..|steps| - 1]), steps[|steps| - 1])
  }

  // ---------------------------------------------------------------------------
  // What the log says about one identity
  // ---------------------------------------------------------------------------

  /** A complete snapshot of this source that does not list this identity. */
  ghost predicate AbsenceAt(log: seq<Fact>, i: nat, key: string, source: nat) {
    i < |log| && log[i].Snapshot? && log[i].source == source && key !in log[i].listed
  }

  /**
    The log shows the identity gone from the source: complete snapshots that do not list it,
    at strictly increasing times, all since it was last listed anywhere.
  */
  ghost predicate Absences(log: seq<Fact>, key: string, source: nat, marks: seq<nat>) {
    && (forall m :: 0 <= m < |marks| ==> AbsenceAt(log, marks[m], key, source))
    && (forall m, n :: 0 <= m < n < |marks| ==> marks[m] < marks[n] && log[marks[m]].at < log[marks[n]].at)
    && (marks != [] ==> forall i :: marks[0] <= i < |log| ==> !(log[i].Sighted? && log[i].key == key))
  }

  lemma AbsencesLast(log: seq<Fact>, fact: Fact, key: string, source: nat, marks: seq<nat>)
    requires Absences(log, key, source, marks) && !(fact.Sighted? && fact.key == key)
    ensures Absences(log + [fact], key, source, marks)
  {
  }

  lemma AbsencesGrow(log: seq<Fact>, at: Time, listed: set<string>, key: string, source: nat, marks: seq<nat>)
    requires Absences(log, key, source, marks) && key !in listed
    requires marks == [] || (marks[|marks| - 1] < |log| && log[marks[|marks| - 1]].Snapshot? && log[marks[|marks| - 1]].at < at)
    ensures Absences(log + [Snapshot(source, at, listed)], key, source, marks + [|log|])
  {
  }

  /** The absences counted for an identity since it was last listed, as positions in the log. */
  datatype Track = Track(known: bool, source: Option<nat>, marks: seq<nat>)

  ghost function Tracked(log: seq<Fact>, key: string): (t: Track)
    ensures forall m :: 0 <= m < |t.marks| ==> t.marks[m] < |log| && log[t.marks[m]].Snapshot?
  {
    if log == [] then Track(false, None, [])
    else
      var n := |log| - 1;
      var before := Tracked(log[..n], key);
      match log[n]
      case Sighted(k, through) => if k == key then Track(true, through, []) else before
      case Snapshot(source, at, listed) =>
        if before.source == Some(source) && key !in listed
           && (before.marks == [] || log[before.marks[|before.marks| - 1]].at < at)
        then before.(marks := before.marks + [n])
        else before
      case Removed(source) => if before.source == Some(source) then before.(source := None) else before
  }

  lemma {:induction false} TrackedAreAbsences(log: seq<Fact>, key: string)
    ensures var t := Tracked(log, key); t.source.Some? ==> Absences(log, key, t.source.value, t.marks)
  {
    if log != [] {
      var n := |log| - 1;
      TrackedAreAbsences(log[..n], key);
      var before, t := Tracked(log[..n], key), Tracked(log, key);
      assert log == log[..n] + [log[n]];
      if t.source.Some? && !(log[n].Sighted? && log[n].key == key) {
        assert before.source == t.source;
        if t.marks == before.marks {
          AbsencesLast(log[..n], log[n], key, t.source.value, t.marks);
        } else {
          AbsencesGrow(log[..n], log[n].at, log[n].listed, key, t.source.value, before.marks);
        }
      }
    }
  }

  /** A row's counters are what the log says about its identity. */
  ghost predicate Agrees(log: seq<Fact>, row: Provenance) {
    var t := Tracked(log, row.sourceKey);
    && t.known && t.source == row.source && |t.marks| == row.missing
    && row.missingSince == (if t.marks == [] then None else Some(log[t.marks[0]].at))
    && row.lastMissing == (if t.marks == [] then None else Some(log[t.marks[|t.marks| - 1]].at))
  }

  ghost predicate AllAgree(log: seq<Fact>, rows: seq<Provenance>) {
    forall r :: 0 <= r < |rows| ==> Agrees(log, rows[r])
  }

  /** A job is active exactly while nothing has closed it. */
  ghost predicate StatusesOk(jobs: seq<Job>) {
    forall j :: 0 <= j < |jobs| ==> (jobs[j].status.Active? ==> jobs[j].closedReason.None?)
  }

  ghost predicate Inv(s: State) {
    Valid(s.db) && AllAgree(s.log, s.db.rows) && StatusesOk(s.db.jobs)
  }

  /** The world once a posting, or several, have been written and noted. */
  function AfterSighting(web: Web, s: State, posting: Posting, origin: Origin, at: Time): State {
    s.(db := Upserted(web, s.db, posting, origin, at), log := s.log + [Sighted(posting.sourceKey, origin.source)])
  }

  function AfterSightings(web: Web, s: State, postings: seq<Posting>, origin: Origin, at: Time): State {
    s.(db := AllUpserted(web, s.db, postings, origin, at), log := s.log + Sightings(postings, origin.source))
  }

  lemma AfterSightingsStep(web: Web, s: State, postings: seq<Posting>, origin: Origin, at: Time)
    ensures postings == [] ==> AfterSightings(web, s, postings, origin, at) == s
    ensures postings != [] ==>
              AfterSightings(web, s, postings, origin, at)
                == AfterSighting(web, AfterSightings(web, s, postings[..|postings| - 1], origin, at),
                     postings[|postings| - 1], origin, at)
  {
    if postings == [] {
      assert s.log + Sightings(postings, origin.source) == s.log;
    } else {
      var n := |postings| - 1;
      assert s.log + Sightings(postings[..n], origin.source) + [Sighted(postings[n].sourceKey, origin.source)]
          == s.log + Sightings(postings, origin.source);
    }
  }

  lemma SightingAgrees(web: Web, s: State, posting: Posting, origin: Origin, at: Time)
    requires Inv(s)
    ensures Inv(AfterSighting(web, s, posting, origin, at))
  {
    var fact := Sighted(posting.sourceKey, origin.source);
    var db := Upserted(web, s.db, posting, origin, at);
    UpsertKeepsValid(web, s.db, posting, origin, at);
    UpsertKeeps(web, s.db, posting, origin, at);
    forall r | 0 <= r < |db.rows|
      ensures Agrees(s.log + [fact], db.rows[r])
    {
      UpsertedRow(web, s.db, posting, origin, at, r);
      SightedAgrees(s.log, fact, db.rows[r]);
    }
  }

  /** A sighting makes its own row fresh and says nothing of the others. */
  lemma SightedAgrees(log: seq<Fact>, fact: Fact, row: Provenance)
    requires fact.Sighted?
    requires if row.sourceKey == fact.key
             then row.source == fact.through && row.missing == 0 && row.missingSince.None? && row.lastMissing.None?
             else Agrees(log, row)
    ensures Agrees(log + [fact], row)
  {
    assert (log + [fact])[..|log|] == log;
  }

  /** After a posting is written, its own row is fresh and every other row is what it was. */
  lemma UpsertedRow(web: Web, db: Db, posting: Posting, origin: Origin, at: Time, r: nat)
    requires Valid(db) && r < |Upserted(web, db, posting, origin, at).rows|
    ensures var row := Upserted(web, db, posting, origin, at).rows[r];
            if row.sourceKey == posting.sourceKey then
              row.source == origin.source && row.missing == 0 && row.missingSince.None? && row.lastMissing.None?
            else r < |db.rows| && row == db.rows[r]
  {
  }

  lemma {:induction false} SightingsAgree(web: Web, s: State, postings: seq<Posting>, origin: Origin, at: Time)
    requires Inv(s)
    ensures Inv(AfterSightings(web, s, postings, origin, at))
  {
    AfterSightingsStep(web, s, postings, origin, at);
    if postings != [] {
      SightingsAgree(web, s, postings[..|postings| - 1], origin, at);
      SightingAgrees(web, AfterSightings(web, s, postings[..|postings| - 1], origin, at),
        postings[|postings| - 1], origin, at);
    }
  }

  lemma SnapshotAgrees(s: State, source: nat, at: Time, listed: set<string>)
    requires Inv(s)
    ensures Inv(s.(db := AbsencesApplied(s.db, s.enabled, source, listed, at), log := s.log + [Snapshot(source, at, listed)]))
  {
    var log := s.log + [Snapshot(source, at, listed)];
    var db := AbsencesApplied(s.db, s.enabled, source, listed, at);
    assert log[..|s.log|] == s.log;
    forall r | 0 <= r < |db.rows|
      ensures Agrees(log, db.rows[r])
    {
      var row := s.db.rows[r];
      assert Agrees(s.log, row);
      var before, t := Tracked(s.log, row.sourceKey), Tracked(log, row.sourceKey);
      assert forall m :: 0 <= m < |before.marks| ==> log[before.marks[m]] == s.log[before.marks[m]];
    }
    ValidAfterAbsences(s.db, s.enabled, source, listed, at);
  }

  lemma ValidAfterAbsences(db: Db, enabled: set<nat>, source: nat, listed: set<string>, at: Time)
    requires Valid(db)
    ensures Valid(AbsencesApplied(db, enabled, source, listed, at))
  {
  }

  lemma RemovalAgrees(s: State, source: nat)
    requires Inv(s)
    ensures Inv(s.(db := s.db.(rows := Detached(s.db.rows, source)), log := s.log + [Removed(source)]))
  {
  }

  /** The world between the postings of a result and its absences. */
  ghost function Written(web: Web, s: State, connector: string, board: string, source: nat, result: FetchResult): State {
    AfterSightings(web, s, Collapsed(result.postings, PostingKey), Origin(connector, Some(source), Some(board)),
      result.fetchedAt)
  }

  lemma AbsorbIsWrittenThenSnapshot(
    web: Web, s: State, connector: string, board: string, source: nat, result: FetchResult)
    ensures var w, s' := Written(web, s, connector, board, source, result),
                         Next(web, s, Absorb(connector, board, source, result));
            var listed := KeysOf(Collapsed(result.postings, PostingKey));
            s' == if Complete(result)
                  then w.(db := AbsencesApplied(w.db, s.enabled, source, listed, result.fetchedAt),
                          log := w.log + [Snapshot(source, result.fetchedAt, listed)])
                  else w
  {
  }

  lemma EditKeeps(s: State, job: nat, patch: Patch, now: Time)
    requires Inv(s) && job < |s.db.jobs|
    ensures Inv(s.(db := s.db.(jobs := s.db.jobs[job := Patched(s.db.jobs[job], patch, now)])))
  {
  }

  lemma StepKeeps(web: Web, s: State, step: Step)
    requires Inv(s)
    ensures Inv(Next(web, s, step))
  {
    match step
    case Absorb(connector, board, source, result) =>
      var postings := Collapsed(result.postings, PostingKey);
      AbsorbIsWrittenThenSnapshot(web, s, connector, board, source, result);
      SightingsAgree(web, s, postings, Origin(connector, Some(source), Some(board)), result.fetchedAt);
      var w := Written(web, s, connector, board, source, result);
      SnapshotAgrees(w, source, result.fetchedAt, KeysOf(postings));
    case FailScan(source) =>
    case ImportPosting(posting, origin, seenAt) => SightingAgrees(web, s, posting, origin, seenAt);
    case SetEnabled(source, on) =>
    case RemoveSource(source) => RemovalAgrees(s, source);
    case EditJob(job, patch, now) =>
      if job < |s.db.jobs| {
        EditKeeps(s, job, patch, now);
      }
  }

  /** Over every run the counters agree with the log, keys stay unique and rows keep to jobs. */
  lemma {:induction false} CountersAgreeWithTheLog(web: Web, steps: seq<Step>)
    ensures Inv(Run(web, steps))
  {
    if steps != [] {
      CountersAgreeWithTheLog(web, steps[..|steps| - 1]);
      StepKeeps(web, Run(web, steps[..|steps| - 1]), steps[|steps| - 1]);
    }
  }

  // ---------------------------------------------------------------------------
  // Closure
  // ---------------------------------------------------------------------------

  /** The log justifies saying this posting is gone from this source. */
  ghost predicate ProvenGone(log: seq<Fact>, key: string, source: nat) {
    exists marks: seq<nat> ::
      && Absences(log, key, source, marks)
      && |marks| >= 2
      && log[marks[|marks| - 1]].at - log[marks[0]].at >= 24 * 60 * 60 * 1000
  }

  lemma AbsencesProve(log: seq<Fact>, key: string, source: nat, marks: seq<nat>)
    requires Absences(log, key, source, marks) && |marks| >= 2
    requires AbsenceAt(log, marks[0], key, source) && AbsenceAt(log, marks[|marks| - 1], key, source)
    requires log[marks[|marks| - 1]].at - log[marks[0]].at >= 24 * 60 * 60 * 1000
    ensures ProvenGone(log, key, source)
  {
  }

  lemma SaysGoneIsProven(log: seq<Fact>, row: Provenance)
    requires Agrees(log, row) && SaysGone(row) && row.source.Some?
    ensures ProvenGone(log, row.sourceKey, row.source.value)
  {
    TrackedAreAbsences(log, row.sourceKey);
    AbsencesProve(log, row.sourceKey, row.source.value, Tracked(log, row.sourceKey).marks);
  }

  /** What must be so for a step of a run to close a job for having disappeared. */
  ghost predicate ClosureIsJustified(s: State, j: nat) {
    && (exists r, b :: b in s.enabled && ListsJob(s.db.rows, r, b, j))
    && forall r, b :: b in s.enabled && ListsJob(s.db.rows, r, b, j) ==> ProvenGone(s.log, s.db.rows[r].sourceKey, b)
  }

  /**
    Whenever a step of any run closes a job that was active, other than at the user's word, it
    is a complete and unrefused snapshot, some enabled board had the job, and the log proves it
    gone from every enabled board that did.
  */
  lemma ClosureIsSound(web: Web, steps: seq<Step>, step: Step, j: nat)
    requires var s, s' := Run(web, steps), Next(web, Run(web, steps), step);
             j < |s.db.jobs| && s.db.jobs[j].status.Active? && j < |s'.db.jobs| && !s'.db.jobs[j].status.Active?
    requires !step.EditJob?
    ensures step.Absorb? && step.result.completeSnapshot && NothingRefused(step.result.observed)
    ensures ClosureIsJustified(Next(web, Run(web, steps), step), j)
    ensures Next(web, Run(web, steps), step).db.jobs[j].closedReason == Some(BySnapshot)
  {
    var s, s' := Run(web, steps), Next(web, Run(web, steps), step);
    CountersAgreeWithTheLog(web, steps);
    StepKeeps(web, s, step);
    match step
    case Absorb(connector, board, source, result) =>
      DenialSeenIff(result.observed);
      AbsorbIsWrittenThenSnapshot(web, s, connector, board, source, result);
      var w := Written(web, s, connector, board, source, result);
      WrittenStaysActive(
        web, s.db, Collapsed(result.postings, PostingKey), Origin(connector, Some(source), Some(board)), result.fetchedAt, j);
      SnapshotClosesExactly(w.db, s.enabled, source, KeysOf(Collapsed(result.postings, PostingKey)), result.fetchedAt, j);
      forall r, b | b in s'.enabled && ListsJob(s'.db.rows, r, b, j)
        ensures ProvenGone(s'.log, s'.db.rows[r].sourceKey, b)
      {
        SaysGoneIsProven(s'.log, s'.db.rows[r]);
      }
    case ImportPosting(posting, origin, seenAt) =>
      AllUpsertedOne(web, s.db, posting, origin, seenAt);
      WrittenStaysActive(web, s.db, [posting], origin, seenAt, j);
    case _ =>
  }

  lemma AllUpsertedOne(web: Web, db: Db, posting: Posting, origin: Origin, at: Time)
    ensures AllUpserted(web, db, [posting], origin, at) == Upserted(web, db, posting, origin, at)
  {
  }

  /** Writing postings closes nothing. */
  lemma {:induction false} WrittenStaysActive(
    web: Web, db: Db, postings: seq<Posting>, origin: Origin, at: Time, j: nat)
    requires Valid(db) && j < |db.jobs| && db.jobs[j].status.Active?
    ensures j < |AllUpserted(web, db, postings, origin, at).jobs|
    ensures AllUpserted(web, db, postings, origin, at).jobs[j].status.Active?
  {
    if postings != [] {
      WrittenStaysActive(web, db, postings[..|postings| - 1], origin, at, j);
    }
  }

  /**
    On the enabled boards the job is known only through this one, which listed it when last read
    and does not now. What boards that are switched off, or deleted, hold of it is left open.
  */
  ghost predicate OnlyThrough(db: Db, enabled: set<nat>, j: nat, source: nat, listed: set<string>) {
    && (exists r :: ListsJob(db.rows, r, source, j))
    && forall r, b :: b in enabled && ListsJob(db.rows, r, b, j) ==>
         && b == source && db.rows[r].sourceKey !in listed
         && db.rows[r].missing == 0 && db.rows[r].missingSince.None? && db.rows[r].lastMissing.None?
  }

  /**
    A job that disappears from the one enabled board that had it stays open after the first
    complete snapshot without it, and closes at the second exactly when that is at least 24 hours
    later, whatever other boards hold of it.
  */
  lemma SecondAbsenceClosesIff(
    db: Db, enabled: set<nat>, source: nat, listed: set<string>, listed': set<string>, at: Time, at': Time, j: nat)
    requires j < |db.jobs| && db.jobs[j].status.Active? && source in enabled
    requires OnlyThrough(db, enabled, j, source, listed) && OnlyThrough(db, enabled, j, source, listed') && at < at'
    ensures var once := AbsencesApplied(db, enabled, source, listed, at);
            var twice := AbsencesApplied(once, enabled, source, listed', at');
            && once.jobs[j] == db.jobs[j]
            && (twice.jobs[j].status.Closed? <==> at' - at >= 24 * 60 * 60 * 1000)
            && (!twice.jobs[j].status.Closed? ==> twice.jobs[j] == db.jobs[j])
  {
    var once := AbsencesApplied(db, enabled, source, listed, at);
    var twice := AbsencesApplied(once, enabled, source, listed', at');
    var r :| ListsJob(db.rows, r, source, j);
    SnapshotClosesExactly(db, enabled, source, listed, at, j);
    SnapshotClosesExactly(once, enabled, source, listed', at', j);
    assert CountsAbsence(db.rows[r], once.rows[r], source, listed, at);
    assert CountsAbsence(once.rows[r], twice.rows[r], source, listed', at');
    assert ListsJob(once.rows, r, source, j) && ListsJob(twice.rows, r, source, j);
    if at' - at >= 24 * 60 * 60 * 1000 {
      forall q, b | b in enabled && ListsJob(twice.rows, q, b, j)
        ensures LongGone(twice.rows[q])
      {
        assert CountsAbsence(db.rows[q], once.rows[q], source, listed, at);
        assert CountsAbsence(once.rows[q], twice.rows[q], source, listed', at');
        assert ListsJob(db.rows, q, b, j);
      }
    }
  }

  predicate Lists(step: Step, key: string) {
    step.Absorb? && key in KeysOf(Collapsed(step.result.postings, PostingKey))
  }

  /**
    A failed, partial or refused scan proves nothing: every job that was active still is, and
    every row it did not list is exactly what it was.
  */
  lemma IncompleteScansProveNothing(web: Web, steps: seq<Step>, step: Step)
    requires step.FailScan? || (step.Absorb? && !(step.result.completeSnapshot && NothingRefused(step.result.observed)))
    ensures var s, s' := Run(web, steps), Next(web, Run(web, steps), step);
            && |s.db.jobs| <= |s'.db.jobs| && |s.db.rows| <= |s'.db.rows|
            && (forall j :: 0 <= j < |s.db.jobs| && s.db.jobs[j].status.Active? ==> s'.db.jobs[j].status.Active?)
            && forall r :: 0 <= r < |s.db.rows| && !Lists(step, s.db.rows[r].sourceKey) ==>
                 s'.db.rows[r] == s.db.rows[r]
  {
    CountersAgreeWithTheLog(web, steps);
    var s := Run(web, steps);
    if step.Absorb? {
      DenialSeenIff(step.result.observed);
      var postings := Collapsed(step.result.postings, PostingKey);
      var origin := Origin(step.connector, Some(step.source), Some(step.board));
      AllUpsertedKeepsOthers(web, s.db, postings, origin, step.result.fetchedAt);
      forall j | 0 <= j < |s.db.jobs| && s.db.jobs[j].status.Active?
        ensures AllUpserted(web, s.db, postings, origin, step.result.fetchedAt).jobs[j].status.Active?
      {
        WrittenStaysActive(web, s.db, postings, origin, step.result.fetchedAt, j);
      }
    }
  }

  lemma {:induction false} AllUpsertedKeepsOthers(web: Web, db: Db, postings: seq<Posting>, origin: Origin, at: Time)
    requires Valid(db)
    ensures var db' := AllUpserted(web, db, postings, origin, at);
            && |db.jobs| <= |db'.jobs| && |db.rows| <= |db'.rows|
            && (forall r :: 0 <= r < |db.rows| && db.rows[r].sourceKey !in KeysOf(postings) ==> db'.rows[r] == db.rows[r])
            && forall r :: |db.rows| <= r < |db'.rows| ==> db'.rows[r].sourceKey in KeysOf(postings)
  {
    if postings != [] {
      var n := |postings| - 1;
      AllUpsertedKeepsOthers(web, db, postings[..n], origin, at);
      AllUpsertedKeepsValid(web, db, postings[..n], origin, at);
      var before := AllUpserted(web, db, postings[..n], origin, at);
      assert KeysOf(postings[..n]) <= KeysOf(postings) && postings[n].sourceKey in KeysOf(postings);
      UpsertKeepsOthers(web, before, postings[n], origin, at);
    }
  }

  lemma UpsertKeepsOthers(web: Web, db: Db, posting: Posting, origin: Origin, at: Time)
    requires Valid(db)
    ensures var db' := Upserted(web, db, posting, origin, at);
            && |db.jobs| <= |db'.jobs| && |db.rows| <= |db'.rows|
            && (forall r :: 0 <= r < |db.rows| && db.rows[r].sourceKey != posting.sourceKey ==> db'.rows[r] == db.rows[r])
            && forall r :: 0 <= r < |db'.rows| && db'.rows[r].sourceKey != posting.sourceKey ==> r < |db.rows|
  {
  }

  // ---------------------------------------------------------------------------
  // A closure that does not stand
  // ---------------------------------------------------------------------------

  /** The board answered, and this is all it lists. */
  function WholeBoard(postings: seq<Posting>, at: Time): FetchResult {
    FetchResult(postings, at, true, Observed([], None, false))
  }

  lemma EmptyBoard(web: Web, db: Db, enabled: set<nat>, connector: string, board: string, source: nat, at: Time)
    ensures Absorbed(web, db, enabled, connector, board, source, WholeBoard([], at))
         == AbsencesApplied(db, enabled, source, {}, at)
  {
    assert KeysOf([]) == {};
  }

  /** Where the store holds the posting alone, listing it again writes it and counts nothing. */
  lemma ListedAlone(
    web: Web, db: Db, enabled: set<nat>, connector: string, board: string, source: nat, posting: Posting, at: Time)
    requires |db.jobs| <= 1 && |db.rows| == |db.jobs|
    requires forall r :: 0 <= r < |db.rows| ==> db.rows[r].sourceKey == posting.sourceKey && db.rows[r].job == 0
    ensures var origin := Origin(connector, Some(source), Some(board));
            var db' := Absorbed(web, db, enabled, connector, board, source, WholeBoard([posting], at));
            && |db'.jobs| == 1 && db'.rows == [RowFor(posting, origin, 0)]
            && db'.jobs[0] == if db.jobs == [] then NewJob(posting, CanonicalKeyFor(web, posting, origin), at)
                              else Refreshed(db.jobs[0], posting, CanonicalKeyFor(web, posting, origin), at)
  {
    var origin := Origin(connector, Some(source), Some(board));
    assert Collapsed([posting], PostingKey) == [posting] by {
      assert [posting][..0] == [];
    }
    AllUpsertedOne(web, db, posting, origin, at);
    assert KeysOf([posting]) == {posting.sourceKey} by {
      assert [posting][0].sourceKey in KeysOf([posting]);
    }
    if db.rows != [] {
      assert SourceKeyOf(db.rows[0]) == posting.sourceKey;
      assert db.rows == [db.rows[0]];
    }
  }

  /** The store is one job with one row, and this posting's row it is. */
  ghost predicate HoldsOnly(s: State, source: nat, posting: Posting) {
    && s.enabled == {source} && |s.db.jobs| == 1 == |s.db.rows|
    && s.db.rows[0].sourceKey == posting.sourceKey && s.db.rows[0].job == 0
  }

  lemma AfterListing(web: Web, s: State, connector: string, board: string, source: nat, posting: Posting, at: Time)
    requires s == State(Db([], []), {source}, s.log) || HoldsOnly(s, source, posting)
    ensures var s' := Next(web, s, Absorb(connector, board, source, WholeBoard([posting], at)));
            && HoldsOnly(s', source, posting)
            && s'.db.rows[0] == RowFor(posting, Origin(connector, Some(source), Some(board)), 0)
            && s'.db.jobs[0].status == if s.db.jobs == [] || Reopens(s.db.jobs[0]) then Active else s.db.jobs[0].status
  {
    ListedAlone(web, s.db, {source}, connector, board, source, posting, at);
  }

  lemma AfterTwoAbsences(web: Web, s: State, connector: string, board: string, source: nat, posting: Posting, at: Time)
    requires HoldsOnly(s, source, posting) && s.db.jobs[0].status.Active?
    requires s.db.rows[0] == RowFor(posting, Origin(connector, Some(source), Some(board)), 0)
    ensures var later := at + HOURS_BETWEEN_SNAPSHOTS * HOUR;
            var once := Next(web, s, Absorb(connector, board, source, WholeBoard([], at)));
            var twice := Next(web, once, Absorb(connector, board, source, WholeBoard([], later)));
            && HoldsOnly(twice, source, posting)
            && twice.db.jobs[0].status.Closed? && twice.db.jobs[0].closedReason == Some(BySnapshot)
  {
    var later := at + HOURS_BETWEEN_SNAPSHOTS * HOUR;
    EmptyBoard(web, s.db, {source}, connector, board, source, at);
    var once := AbsencesApplied(s.db, {source}, source, {}, at);
    EmptyBoard(web, once, {source}, connector, board, source, later);
    assert ListsJob(s.db.rows, 0, source, 0);
    SecondAbsenceClosesIff(s.db, {source}, source, {}, {}, at, later, 0);
  }

  lemma RunExtends(web: Web, steps: seq<Step>, step: Step)
    ensures Run(web, steps + [step]) == Next(web, Run(web, steps), step)
  {
    assert (steps + [step])[..|steps|] == steps;
  }

  /** A run after which a job is closed, and by the snapshots alone. */
  function ListedThenLost(connector: string, board: string, source: nat, posting: Posting, at: Time): seq<Step> {
    ListedOnce(connector, board, source, posting, at)
    + [Absorb(connector, board, source, WholeBoard([], at + 1))]
    + [Absorb(connector, board, source, WholeBoard([], at + 1 + HOURS_BETWEEN_SNAPSHOTS * HOUR))]
  }

  function ListedOnce(connector: string, board: string, source: nat, posting: Posting, at: Time): seq<Step> {
    [SetEnabled(source, true)] + [Absorb(connector, board, source, WholeBoard([posting], at))]
  }

  lemma SwitchedOnIsEmpty(web: Web, source: nat)
    ensures Run(web, [SetEnabled(source, true)]) == State(Db([], []), {source}, [])
  {
    assert [] + [SetEnabled(source, true)] == [SetEnabled(source, true)];
    RunExtends(web, [], SetEnabled(source, true));
  }

  lemma ListedOnceIsActive(web: Web, connector: string, board: string, source: nat, posting: Posting, at: Time)
    ensures var s := Run(web, ListedOnce(connector, board, source, posting, at));
            && HoldsOnly(s, source, posting) && s.db.jobs[0].status.Active?
            && s.db.rows[0] == RowFor(posting, Origin(connector, Some(source), Some(board)), 0)
  {
    var on := [SetEnabled(source, true)];
    SwitchedOnIsEmpty(web, source);
    RunExtends(web, on, Absorb(connector, board, source, WholeBoard([posting], at)));
    AfterListing(web, Run(web, on), connector, board, source, posting, at);
  }

  lemma ListedThenLostCloses(web: Web, connector: string, board: string, source: nat, posting: Posting, at: Time)
    ensures var s := Run(web, ListedThenLost(connector, board, source, posting, at));
            HoldsOnly(s, source, posting) && s.db.jobs[0].status.Closed? && s.db.jobs[0].closedReason == Some(BySnapshot)
  {
    var once := Absorb(connector, board, source, WholeBoard([], at + 1));
    var twice := Absorb(connector, board, source, WholeBoard([], at + 1 + HOURS_BETWEEN_SNAPSHOTS * HOUR));
    var listed := ListedOnce(connector, board, source, posting, at);
    ListedOnceIsActive(web, connector, board, source, posting, at);
    AfterTwoAbsences(web, Run(web, listed), connector, board, source, posting, at + 1);
    RunExtends(web, listed, once);
    RunExtends(web, listed + [once], twice);
  }

  /**
    After any run, an edit of the user's touches one job and nothing else. It closes the job only if
    it is not closed, and claims as the user's only words that change something: sending the same
    title again neither dates it nor keeps the source's next one out.
  */
  lemma EditClaimsOnlyWhatChanges(web: Web, steps: seq<Step>, j: nat, patch: Patch, now: Time)
    requires j < |Run(web, steps).db.jobs|
    ensures var s, edited := Run(web, steps), Run(web, steps + [EditJob(j, patch, now)]);
            && edited.db.rows == s.db.rows && edited.enabled == s.enabled && edited.log == s.log
            && |edited.db.jobs| == |s.db.jobs|
            && (forall k :: 0 <= k < |s.db.jobs| && k != j ==> edited.db.jobs[k] == s.db.jobs[k])
            && var job, after := s.db.jobs[j], edited.db.jobs[j];
            && after.revision == job.revision + 1
            && (if patch.close && !job.status.Closed?
                then after.status.Closed? && after.closedAt == Some(now) && after.closedReason == Some(ByUser)
                else after.status == job.status && after.closedAt == job.closedAt && after.closedReason == job.closedReason)
            && (if patch.title.Some? && patch.title.value != job.content.title
                then after.content.title == patch.title.value && after.titleEdited == Some(now)
                else after.content.title == job.content.title && after.titleEdited == job.titleEdited)
            && (if patch.company.Some? && patch.company.value != job.content.company
                then after.content.company == patch.company.value && after.companyEdited == Some(now)
                else after.content.company == job.content.company && after.companyEdited == job.companyEdited)
            && after.content.hash == job.content.hash && after.content.body == job.content.body
            && after.canonicalKey == job.canonicalKey && after.firstSeen == job.firstSeen
            && after.lastSeen == job.lastSeen && after.lastFetched == job.lastFetched
  {
    RunExtends(web, steps, EditJob(j, patch, now));
  }

  /**
    After any run that leaves a job closed without the user, the user's own closure is undone as
    soon as the posting is listed again; `ListedThenLost` is such a run.
  */
  lemma ClosureOfALostJobIsUndone(web: Web, steps: seq<Step>, r: nat, now: Time, posting: Posting, origin: Origin, at: Time)
    requires var db := Run(web, steps).db;
             && r < |db.rows| && db.rows[r].sourceKey == posting.sourceKey && db.rows[r].job < |db.jobs|
             && db.jobs[db.rows[r].job].status.Closed? && db.jobs[db.rows[r].job].closedReason != Some(ByUser)
    ensures var j := Run(web, steps).db.rows[r].job;
            var closed := Next(web, Run(web, steps), EditJob(j, Patch(true, None, None), now));
            var back := Next(web, closed, ImportPosting(posting, origin, at));
            && j < |closed.db.jobs| == |back.db.jobs|
            && closed.db.jobs[j].status.Closed? && back.db.jobs[j].status.Active?
  {
    CountersAgreeWithTheLog(web, steps);
    OneRowPerKey(Run(web, steps).db, posting.sourceKey, r);
  }
}

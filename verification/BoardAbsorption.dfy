/**
  What a board fetch does to the jobs: postings are written, a complete snapshot counts the
  absences, and a job every enabled board has lost for long enough closes
  (apps/api/src/discovery/apply-board.ts).
*/
module BoardAbsorption {
  import opened Common
  import opened Ordering
  import opened InsertionMap
  import opened JobStore

  const SNAPSHOTS_TO_CLOSE: nat := 2
  const HOURS_BETWEEN_SNAPSHOTS: int := 24

  // ---------------------------------------------------------------------------
  // Refusals
  // ---------------------------------------------------------------------------

  datatype WarningCode = AccessDenied | RateLimited | OtherWarning

  datatype Denial = Denied(code: WarningCode) | NotDenied

  /** What the worker observed; `httpStatus` and a blocked state are separate signals. */
  datatype Observed = Observed(warnings: seq<WarningCode>, httpStatus: Option<int>, blocked: bool)

  function FirstDenial(warnings: seq<WarningCode>): Denial {
    if warnings == [] then NotDenied
    else if !warnings[0].OtherWarning? then Denied(warnings[0])
    else FirstDenial(warnings[1..])
  }

  function DenialFrom(o: Observed): Denial {
    if FirstDenial(o.warnings).Denied? then FirstDenial(o.warnings)
    else if o.httpStatus == Some(429) then Denied(RateLimited)
    else if o.httpStatus == Some(403) || o.httpStatus == Some(401) then Denied(AccessDenied)
    else if o.blocked then Denied(AccessDenied)
    else NotDenied
  }

  /** None of the three ways a worker reports a refusal: warnings, HTTP status, a blocked state. */
  ghost predicate NothingRefused(o: Observed) {
    && (forall i :: 0 <= i < |o.warnings| ==> o.warnings[i].OtherWarning?)
    && o.httpStatus !in {Some(429), Some(403), Some(401)} && !o.blocked
  }

  /** A refusal is seen whichever way the worker reported it, and only then; a warning says which. */
  lemma {:induction false} DenialSeenIff(o: Observed)
    ensures DenialFrom(o).NotDenied? <==> NothingRefused(o)
    ensures forall i | 0 <= i < |o.warnings| && !o.warnings[i].OtherWarning? ::
              (forall k :: 0 <= k < i ==> o.warnings[k].OtherWarning?) ==> DenialFrom(o) == Denied(o.warnings[i])
    ensures !NothingRefused(o) && (forall i :: 0 <= i < |o.warnings| ==> o.warnings[i].OtherWarning?) ==>
              DenialFrom(o) == Denied(if o.httpStatus == Some(429) then RateLimited else AccessDenied)
    decreases |o.warnings|
  {
    if o.warnings != [] && o.warnings[0].OtherWarning? {
      DenialSeenIff(o.(warnings := o.warnings[1..]));
      assert forall i :: 0 < i < |o.warnings| ==> o.warnings[i] == o.warnings[1..][i - 1];
    }
  }

  // ---------------------------------------------------------------------------
  // Absences
  // ---------------------------------------------------------------------------

  /** This snapshot counts against the row: its board did not list it, and is not older than one counted. */
  predicate Misses(row: Provenance, source: nat, seen: set<string>, at: Time) {
    && row.source == Some(source) && row.sourceKey !in seen
    && (row.lastMissing.None? || row.lastMissing.value < at)
  }

  function Missed(row: Provenance, at: Time): Provenance {
    row.(missing := row.missing + 1,
         missingSince := if row.missingSince.Some? then row.missingSince else Some(at),
         lastMissing := Some(at))
  }

  function RowAfter(row: Provenance, source: nat, seen: set<string>, at: Time): Provenance {
    if Misses(row, source, seen, at) then Missed(row, at) else row
  }

  function RowsAfter(rows: seq<Provenance>, source: nat, seen: set<string>, at: Time): (after: seq<Provenance>)
    ensures |after| == |rows| && forall r :: 0 <= r < |rows| ==> after[r] == RowAfter(rows[r], source, seen, at)
  {
    seq(|rows|, r requires 0 <= r < |rows| => RowAfter(rows[r], source, seen, at))
  }

  /** Some row of this job was counted by the snapshot. */
  ghost predicate Affected(rows: seq<Provenance>, source: nat, seen: set<string>, at: Time, job: nat) {
    exists r :: 0 <= r < |rows| && rows[r].job == job && Misses(rows[r], source, seen, at)
  }

  predicate Votes(row: Provenance, enabled: set<nat>, job: nat) {
    row.job == job && row.source.Some? && row.source.value in enabled
  }

  predicate SaysGone(row: Provenance) {
    && row.missing >= SNAPSHOTS_TO_CLOSE
    && row.missingSince.Some? && row.lastMissing.Some?
    && row.lastMissing.value - row.missingSince.value >= HOURS_BETWEEN_SNAPSHOTS * HOUR
  }

  /** There is a vote, and every vote says the posting is gone. */
  ghost predicate Gone(rows: seq<Provenance>, enabled: set<nat>, job: nat) {
    && (exists r :: 0 <= r < |rows| && Votes(rows[r], enabled, job))
    && forall r :: 0 <= r < |rows| && Votes(rows[r], enabled, job) ==> SaysGone(rows[r])
  }

  function CloseAt(job: Job, at: Time): Job {
    job.(status := Closed, closedAt := Some(at), closedReason := Some(BySnapshot))
  }

  /** The job, after the snapshot's closures. */
  ghost function JobAfter(db: Db, enabled: set<nat>, source: nat, seen: set<string>, at: Time, j: nat): Job
    requires j < |db.jobs|
  {
    if db.jobs[j].status.Active? && Affected(db.rows, source, seen, at, j)
       && Gone(RowsAfter(db.rows, source, seen, at), enabled, j)
    then CloseAt(db.jobs[j], at) else db.jobs[j]
  }

  /** `applyAbsences` */
  ghost function AbsencesApplied(db: Db, enabled: set<nat>, source: nat, seen: set<string>, at: Time): (after: Db)
    ensures |after.jobs| == |db.jobs|
    ensures forall j :: 0 <= j < |db.jobs| ==> after.jobs[j] == JobAfter(db, enabled, source, seen, at, j)
  {
    Db(seq(|db.jobs|, j requires 0 <= j < |db.jobs| => JobAfter(db, enabled, source, seen, at, j)),
       RowsAfter(db.rows, source, seen, at))
  }

  // ---------------------------------------------------------------------------
  // The closure rule, on the rows themselves
  // ---------------------------------------------------------------------------

  /** Row `r` says that this board had the job. */
  ghost predicate ListsJob(rows: seq<Provenance>, r: int, board: nat, job: nat) {
    0 <= r < |rows| && rows[r].job == job && rows[r].source == Some(board)
  }

  /** Two snapshots or more without the posting, the last at least 24 hours after the first. */
  ghost predicate LongGone(row: Provenance) {
    && row.missing >= 2 && row.missingSince.Some? && row.lastMissing.Some?
    && row.lastMissing.value - row.missingSince.value >= 24 * 60 * 60 * 1000
  }

  /** Some enabled board had the job, and the posting is long gone from every enabled board that did. */
  ghost predicate GoneEverywhere(rows: seq<Provenance>, enabled: set<nat>, job: nat) {
    && (exists r, b :: b in enabled && ListsJob(rows, r, b, job))
    && forall r, b :: b in enabled && ListsJob(rows, r, b, job) ==> LongGone(rows[r])
  }

  lemma GoneIsEverywhere(rows: seq<Provenance>, enabled: set<nat>, job: nat)
    ensures Gone(rows, enabled, job) <==> GoneEverywhere(rows, enabled, job)
  {
    if Gone(rows, enabled, job) {
      var r :| 0 <= r < |rows| && Votes(rows[r], enabled, job);
      assert ListsJob(rows, r, rows[r].source.value, job);
      forall q, b | b in enabled && ListsJob(rows, q, b, job)
        ensures LongGone(rows[q])
      {
        assert Votes(rows[q], enabled, job);
      }
    }
    if GoneEverywhere(rows, enabled, job) {
      var r, b :| b in enabled && ListsJob(rows, r, b, job);
      assert Votes(rows[r], enabled, job);
      forall q | 0 <= q < |rows| && Votes(rows[q], enabled, job)
        ensures SaysGone(rows[q])
      {
        assert ListsJob(rows, q, rows[q].source.value, job);
      }
    }
  }

  /** What a complete snapshot of this source makes of a row: one absence more, or nothing. */
  ghost predicate CountsAbsence(before: Provenance, after: Provenance, source: nat, listed: set<string>, at: Time) {
    if before.source == Some(source) && before.sourceKey !in listed
       && (before.lastMissing.None? || before.lastMissing.value < at)
    then
      && after.missing == before.missing + 1 && after.lastMissing == Some(at)
      && after.missingSince == Some(if before.missingSince.Some? then before.missingSince.value else at)
      && after.(missing := 0, missingSince := None, lastMissing := None)
           == before.(missing := 0, missingSince := None, lastMissing := None)
    else after == before
  }

  /**
    A snapshot closes exactly the active jobs it counts an absence of and that are then gone from
    every enabled board that had them; no other job changes, and each row says what was counted.
  */
  lemma SnapshotClosesExactly(db: Db, enabled: set<nat>, source: nat, listed: set<string>, at: Time, j: nat)
    requires j < |db.jobs|
    ensures var after := AbsencesApplied(db, enabled, source, listed, at);
            && |after.jobs| == |db.jobs| && |after.rows| == |db.rows|
            && (forall r :: 0 <= r < |db.rows| ==> CountsAbsence(db.rows[r], after.rows[r], source, listed, at))
            && (if && db.jobs[j].status.Active?
                   && (exists r :: ListsJob(db.rows, r, source, j) && after.rows[r] != db.rows[r])
                   && GoneEverywhere(after.rows, enabled, j)
                then && after.jobs[j].status.Closed? && after.jobs[j].closedAt == Some(at)
                     && after.jobs[j].closedReason == Some(BySnapshot)
                     && after.jobs[j].(status := Active, closedAt := db.jobs[j].closedAt, closedReason := db.jobs[j].closedReason)
                          == db.jobs[j]
                else after.jobs[j] == db.jobs[j])
  {
    var after := AbsencesApplied(db, enabled, source, listed, at);
    GoneIsEverywhere(after.rows, enabled, j);
    if r :| 0 <= r < |db.rows| && db.rows[r].job == j && Misses(db.rows[r], source, listed, at) {
      assert ListsJob(db.rows, r, source, j) && after.rows[r].missing != db.rows[r].missing;
    }
  }

  method CloseIfGone(tables: JobTables, enabled: set<nat>, job: nat, at: Time) returns (closed: bool)
    requires job < |tables.jobs|
    modifies tables`jobs
    ensures closed <==> old(tables.jobs)[job].status.Active? && GoneEverywhere(tables.rows, enabled, job)
    ensures tables.jobs == if closed then old(tables.jobs)[job := CloseAt(old(tables.jobs)[job], at)] else old(tables.jobs)
  {
    GoneIsEverywhere(tables.rows, enabled, job);
    if !tables.jobs[job].status.Active? {
      return false;
    }
    var votes := 0;
    for r := 0 to |tables.rows|
      invariant votes > 0 <==> exists q :: 0 <= q < r && Votes(tables.rows[q], enabled, job)
      invariant votes >= 0
      invariant forall q :: 0 <= q < r && Votes(tables.rows[q], enabled, job) ==> SaysGone(tables.rows[q])
      invariant tables.jobs == old(tables.jobs)
    {
      if Votes(tables.rows[r], enabled, job) {
        votes := votes + 1;
        if !SaysGone(tables.rows[r]) {
          return false;
        }
      }
    }
    if votes == 0 {
      return false;
    }
    tables.jobs := tables.jobs[job := CloseAt(tables.jobs[job], at)];
    closed := true;
  }

  /** How many of the first `n` jobs were active and are not. */
  function ClosedCount(before: seq<Job>, after: seq<Job>, n: nat): nat
    requires n <= |before| == |after|
  {
    if n == 0 then 0
    else ClosedCount(before, after, n - 1) + (if before[n - 1].status.Active? && !after[n - 1].status.Active? then 1 else 0)
  }

  lemma {:induction false} ClosedCountStep(before: seq<Job>, after: seq<Job>, j: nat, job: Job, n: nat)
    requires j < |before| == |after| && n <= |before|
    requires before[j].status.Active? && after[j].status.Active? && !job.status.Active?
    ensures ClosedCount(before, after[j := job], n) == ClosedCount(before, after, n) + (if j < n then 1 else 0)
  {
    if n > 0 {
      ClosedCountStep(before, after, j, job, n - 1);
    }
  }

  lemma {:induction false} NothingClosed(jobs: seq<Job>, n: nat)
    requires n <= |jobs|
    ensures ClosedCount(jobs, jobs, n) == 0
  {
    if n > 0 {
      NothingClosed(jobs, n - 1);
    }
  }

  /** The rows the snapshot counts against, and the jobs they belong to, each once. */
  method CountAbsences(tables: JobTables, source: nat, seen: set<string>, at: Time) returns (affected: seq<nat>)
    modifies tables`rows
    ensures tables.rows == RowsAfter(old(tables.rows), source, seen, at)
    ensures forall j :: j in affected <==> Affected(old(tables.rows), source, seen, at, j)
    ensures forall i, j :: 0 <= i < j < |affected| ==> affected[i] != affected[j]
  {
    affected := [];
    for r := 0 to |tables.rows|
      invariant |tables.rows| == |old(tables.rows)|
      invariant forall q :: 0 <= q < |tables.rows| ==>
                  tables.rows[q] == if q < r then RowAfter(old(tables.rows)[q], source, seen, at) else old(tables.rows)[q]
      invariant forall j :: j in affected <==>
                  exists q :: 0 <= q < r && old(tables.rows)[q].job == j && Misses(old(tables.rows)[q], source, seen, at)
      invariant forall i, j :: 0 <= i < j < |affected| ==> affected[i] != affected[j]
    {
      var row := tables.rows[r];
      if row.source == Some(source) && row.sourceKey !in seen {
        if row.lastMissing.None? || row.lastMissing.value < at {
          tables.rows := tables.rows[r := Missed(row, at)];
          if row.job !in affected {
            affected := affected + [row.job];
          }
        }
      }
    }
  }

  method ApplyAbsences(tables: JobTables, enabled: set<nat>, source: nat, seen: set<string>, at: Time) returns (closed: nat)
    requires Valid(tables.View())
    modifies tables
    ensures tables.View() == AbsencesApplied(old(tables.View()), enabled, source, seen, at)
    ensures closed == ClosedCount(old(tables.jobs), tables.jobs, |tables.jobs|)
  {
    ghost var db := tables.View();
    var affected := CountAbsences(tables, source, seen, at);
    closed := 0;
    NothingClosed(db.jobs, |db.jobs|);
    ghost var done: set<nat> := {};
    for i := 0 to |affected|
      invariant tables.rows == RowsAfter(db.rows, source, seen, at) && |tables.jobs| == |db.jobs|
      invariant forall k :: 0 <= k < |affected| ==> (affected[k] in done <==> k < i)
      invariant forall j :: j in done ==> j in affected
      invariant forall j :: 0 <= j < |db.jobs| ==>
                  tables.jobs[j] == if j in done then JobAfter(db, enabled, source, seen, at, j) else db.jobs[j]
      invariant closed == ClosedCount(db.jobs, tables.jobs, |db.jobs|)
    {
      var j := affected[i];
      assert j in affected;
      AffectedExists(db, source, seen, at, j);
      ghost var before := tables.jobs;
      GoneIsEverywhere(tables.rows, enabled, j);
      var gone := CloseIfGone(tables, enabled, j, at);
      done := done + {j};
      if gone {
        ClosedCountStep(db.jobs, before, j, CloseAt(before[j], at), |db.jobs|);
        closed := closed + 1;
      }
    }
    AbsencesAre(db, enabled, source, seen, at, tables.View());
  }

  lemma AffectedExists(db: Db, source: nat, seen: set<string>, at: Time, job: nat)
    requires Valid(db) && Affected(db.rows, source, seen, at, job)
    ensures job < |db.jobs|
  {
  }

  lemma AbsencesAre(db: Db, enabled: set<nat>, source: nat, seen: set<string>, at: Time, after: Db)
    requires after.rows == RowsAfter(db.rows, source, seen, at) && |after.jobs| == |db.jobs|
    requires forall j :: 0 <= j < |db.jobs| ==>
               after.jobs[j] == JobAfter(db, enabled, source, seen, at, j)
               || (!Affected(db.rows, source, seen, at, j) && after.jobs[j] == db.jobs[j])
    ensures after == AbsencesApplied(db, enabled, source, seen, at)
  {
  }

  // ---------------------------------------------------------------------------
  // A whole result
  // ---------------------------------------------------------------------------

  datatype FetchResult = FetchResult(
    postings: seq<Posting>, fetchedAt: Time, completeSnapshot: bool, observed: Observed)

  const PostingKey: Posting -> string := (p: Posting) => p.sourceKey

  /** Only an unrefused fetch that listed the whole board is a complete snapshot. */
  predicate Complete(result: FetchResult) {
    result.completeSnapshot && DenialFrom(result.observed).NotDenied?
  }

  function AllUpserted(web: Web, db: Db, postings: seq<Posting>, origin: Origin, at: Time): Db {
    if postings == [] then db
    else
      Upserted(web, AllUpserted(web, db, postings[..|postings| - 1], origin, at), postings[|postings| - 1], origin, at)
  }

  function KeysOf(postings: seq<Posting>): set<string> {
    set i | 0 <= i < |postings| :: postings[i].sourceKey
  }

  /** `applyFetchBoardResult`, for the jobs. */
  ghost function Absorbed(
    web: Web, db: Db, enabled: set<nat>, connector: string, board: string, source: nat, result: FetchResult): Db
  {
    var postings := Collapsed(result.postings, PostingKey);
    var written := AllUpserted(web, db, postings, Origin(connector, Some(source), Some(board)), result.fetchedAt);
    if Complete(result) then AbsencesApplied(written, enabled, source, KeysOf(postings), result.fetchedAt) else written
  }

  datatype ScanStatus = Succeeded | Partial | Failed

  datatype Counts = Counts(fetched: nat, created: nat, updated: nat, untouched: nat, closed: nat)

  method DedupeBySourceKey(postings: seq<Posting>) returns (deduped: seq<Posting>)
    ensures deduped == Collapsed(postings, PostingKey)
  {
    var byKey := new KeyedMap(PostingKey);
    for i := 0 to |postings|
      invariant fresh(byKey) && byKey.Valid() && byKey.key == PostingKey
      invariant byKey.Contents() == Collapsed(postings[..i], PostingKey)
    {
      byKey.Set(postings[i]);
      assert postings[..i + 1][..i] == postings[..i];
    }
    assert postings[..|postings|] == postings;
    deduped := byKey.Values();
  }

  lemma {:induction false} AllUpsertedKeepsValid(web: Web, db: Db, postings: seq<Posting>, origin: Origin, at: Time)
    requires Valid(db)
    ensures Valid(AllUpserted(web, db, postings, origin, at))
  {
    if postings != [] {
      AllUpsertedKeepsValid(web, db, postings[..|postings| - 1], origin, at);
      UpsertKeepsValid(web, AllUpserted(web, db, postings[..|postings| - 1], origin, at),
        postings[|postings| - 1], origin, at);
    }
  }

  /** How often these jobs were written with new content: a job starts at revision one. */
  function Revisions(jobs: seq<Job>): nat {
    if jobs == [] then 0 else Revisions(jobs[..|jobs| - 1]) + jobs[|jobs| - 1].revision
  }

  lemma {:induction false} RevisionsOfOneMoved(before: seq<Job>, after: seq<Job>, j: nat)
    requires j < |before| == |after| && forall k :: 0 <= k < |before| && k != j ==> after[k].revision == before[k].revision
    ensures Revisions(after) - Revisions(before) == after[j].revision - before[j].revision
  {
    var n := |before| - 1;
    if j < n {
      RevisionsOfOneMoved(before[..n], after[..n], j);
    } else {
      RevisionsSame(before[..n], after[..n]);
    }
  }

  lemma {:induction false} RevisionsSame(before: seq<Job>, after: seq<Job>)
    requires |before| == |after| && forall k :: 0 <= k < |before| ==> after[k].revision == before[k].revision
    ensures Revisions(after) == Revisions(before)
  {
    if before != [] {
      var n := |before| - 1;
      RevisionsSame(before[..n], after[..n]);
    }
  }

  lemma RevisionsOfOneMore(before: seq<Job>, after: seq<Job>)
    requires |after| == |before| + 1 && forall k :: 0 <= k < |before| ==> after[k].revision == before[k].revision
    ensures Revisions(after) == Revisions(before) + after[|before|].revision
  {
    RevisionsSame(before, after[..|before|]);
  }

  /** One posting of a result: a new job, or one more revision of an old one, or neither. */
  method WritePosting(tables: JobTables, web: Web, posting: Posting, origin: Origin, at: Time) returns (outcome: UpsertOutcome)
    requires Valid(tables.View())
    modifies tables
    ensures tables.View() == Upserted(web, old(tables.View()), posting, origin, at) && Valid(tables.View())
    ensures |tables.jobs| == |old(tables.jobs)| + (if outcome.created then 1 else 0)
    ensures Revisions(tables.jobs) == Revisions(old(tables.jobs)) + (if outcome.created || outcome.updated then 1 else 0)
  {
    UpsertKeepsValid(web, tables.View(), posting, origin, at);
    ghost var before := tables.jobs;
    outcome := tables.UpsertNormalizedJob(web, posting, origin, at);
    if outcome.created {
      RevisionsOfOneMore(before, tables.jobs);
    } else {
      RevisionsOfOneMoved(before, tables.jobs, outcome.job);
    }
  }

  /** The loop over the postings: each is new, or rewrites the job it goes to, or leaves its content alone. */
  method WritePostings(tables: JobTables, web: Web, postings: seq<Posting>, origin: Origin, at: Time)
    returns (created: nat, updated: nat, untouched: nat)
    requires Valid(tables.View())
    modifies tables
    ensures Valid(tables.View()) && tables.View() == AllUpserted(web, old(tables.View()), postings, origin, at)
    ensures created + updated + untouched == |postings|
    ensures created == |tables.jobs| - |old(tables.jobs)|
    ensures Revisions(tables.jobs) == Revisions(old(tables.jobs)) + created + updated
  {
    hide Valid, Upserted, Revisions;
    ghost var db := tables.View();
    created, updated, untouched := 0, 0, 0;
    for i := 0 to |postings|
      invariant Valid(tables.View()) && tables.View() == AllUpserted(web, db, postings[..i], origin, at)
      invariant created + updated + untouched == i
      invariant created == |tables.jobs| - |db.jobs|
      invariant Revisions(tables.jobs) == Revisions(db.jobs) + created + updated
    {
      assert postings[..i + 1][..i] == postings[..i];
      var outcome := WritePosting(tables, web, postings[i], origin, at);
      if outcome.created {
        created := created + 1;
      } else if outcome.updated {
        updated := updated + 1;
      } else {
        untouched := untouched + 1;
      }
    }
    assert postings[..|postings|] == postings;
  }

  /**
    The loop over a result's postings and, for a complete snapshot, the absences. The counts
    account for every distinct posting once, for every new job, and for every closure.
  */
  method ApplyFetchBoardResult(
    tables: JobTables, web: Web, enabled: set<nat>, connector: string, board: string, source: nat, result: FetchResult)
    returns (counts: Counts, status: ScanStatus, complete: bool)
    requires Valid(tables.View())
    modifies tables
    ensures tables.View() == Absorbed(web, old(tables.View()), enabled, connector, board, source, result)
    ensures complete <==> result.completeSnapshot && NothingRefused(result.observed)
    ensures var postings := Collapsed(result.postings, PostingKey);
            && counts.fetched == |result.postings|
            && counts.created + counts.updated + counts.untouched == |postings|
            && counts.created == |tables.jobs| - |old(tables.jobs)|
            && counts.created + counts.updated == Revisions(tables.jobs) - Revisions(old(tables.jobs))
            && counts.closed == ClosedCount(
                 AllUpserted(web, old(tables.View()), postings,
                   Origin(connector, Some(source), Some(board)), result.fetchedAt).jobs,
                 tables.jobs, |tables.jobs|)
            && (status.Failed? <==> !NothingRefused(result.observed) && postings == [])
            && (status.Succeeded? <==> complete)
  {
    hide Valid, AllUpserted, Revisions, ClosedCount;
    DenialSeenIff(result.observed);
    ghost var db := tables.View();
    var denial := DenialFrom(result.observed);
    var postings := DedupeBySourceKey(result.postings);
    var origin := Origin(connector, Some(source), Some(board));
    var closed := 0;
    var created, updated, untouched := WritePostings(tables, web, postings, origin, result.fetchedAt);
    ghost var written := tables.jobs;
    NothingClosed(written, |written|);
    complete := result.completeSnapshot && denial.NotDenied?;
    if complete {
      closed := ApplyAbsences(tables, enabled, source, set p | p in postings :: p.sourceKey, result.fetchedAt);
      RevisionsSame(written, tables.jobs);
      assert (set p | p in postings :: p.sourceKey) == KeysOf(postings);
    }
    if denial.Denied? {
      status := if |postings| > 0 then Partial else Failed;
    } else {
      status := if complete then Succeeded else Partial;
    }
    counts := Counts(|result.postings|, created, updated, untouched, closed);
  }
}

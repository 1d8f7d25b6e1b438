/**
  Identity over every run of discovery, and what applying one snapshot twice does.
*/
module DiscoveryGuarantees {
  import opened Common
  import opened Ordering
  import opened InsertionMap
  import opened JobStore
  import opened BoardAbsorption
  import opened DiscoveryRuns

  // ---------------------------------------------------------------------------
  // Identity
  // ---------------------------------------------------------------------------

  /** The canonical keys of the postings a step writes. */
  function KeysWritten(web: Web, step: Step): set<string> {
    match step
    case Absorb(connector, board, source, result) =>
      var postings := Collapsed(result.postings, PostingKey);
      set i | 0 <= i < |postings| :: CanonicalKeyFor(web, postings[i], Origin(connector, Some(source), Some(board)))
    case ImportPosting(posting, origin, seenAt) => {CanonicalKeyFor(web, posting, origin)}
    case _ => {}
  }

  lemma {:induction false} AllUpsertedKeeps(
    web: Web, db: Db, postings: seq<Posting>, origin: Origin, at: Time, keys: set<string>)
    requires Valid(db) && forall i :: 0 <= i < |postings| ==> CanonicalKeyFor(web, postings[i], origin) in keys
    ensures StoreKept(db, AllUpserted(web, db, postings, origin, at))
    ensures ContentKept(db, AllUpserted(web, db, postings, origin, at), keys)
  {
    if postings != [] {
      var n := |postings| - 1;
      var before := AllUpserted(web, db, postings[..n], origin, at);
      AllUpsertedKeeps(web, db, postings[..n], origin, at, keys);
      AllUpsertedKeepsValid(web, db, postings[..n], origin, at);
      UpsertKeeps(web, before, postings[n], origin, at);
      StoreKeptTransitive(db, before, Upserted(web, before, postings[n], origin, at));
      ContentKeptTransitive(db, before, Upserted(web, before, postings[n], origin, at), keys,
        CanonicalKeyFor(web, postings[n], origin));
    }
  }

  lemma ContentKeptTransitive(a: Db, b: Db, c: Db, keys: set<string>, key: string)
    requires StoreKept(a, b) && ContentKept(a, b, keys) && ContentKept(b, c, {key}) && key in keys
    ensures ContentKept(a, c, keys)
  {
  }

  lemma AbsencesKeep(db: Db, enabled: set<nat>, source: nat, listed: set<string>, at: Time)
    requires Valid(db) && StatusesOk(db.jobs)
    ensures StoreKept(db, AbsencesApplied(db, enabled, source, listed, at))
    ensures ContentKept(db, AbsencesApplied(db, enabled, source, listed, at), {})
  {
  }

  lemma ListedKeys(postings: seq<Posting>)
    ensures KeysOf(Collapsed(postings, PostingKey)) == set p | p in postings :: p.sourceKey
  {
    CollapsedIsLastOfEach(postings, PostingKey);
    var collapsed := Collapsed(postings, PostingKey);
    forall i | 0 <= i < |collapsed|
      ensures collapsed[i] in postings
    {
      assert LastWithKey(postings, collapsed[i], PostingKey);
    }
    forall p | p in postings
      ensures p.sourceKey in KeysOf(collapsed)
    {
      var i :| 0 <= i < |postings| && postings[i] == p;
      assert HasKey(collapsed, PostingKey(postings[i]), PostingKey);
      var k :| 0 <= k < |collapsed| && PostingKey(collapsed[k]) == p.sourceKey;
      assert collapsed[k].sourceKey in KeysOf(collapsed);
    }
  }

  /**
    A whole scan, start to end. Where the result is complete and unrefused, every row it does not
    list is counted, and an active job closes exactly when one of its rows on this board was, and
    the posting is then long gone from every enabled board that had it.
  */
  lemma ScanClosesExactly(
    web: Web, db: Db, enabled: set<nat>, connector: string, board: string, source: nat, result: FetchResult, j: nat)
    requires Valid(db) && j < |db.jobs| && db.jobs[j].status.Active?
    requires result.completeSnapshot && NothingRefused(result.observed)
    ensures var after := Absorbed(web, db, enabled, connector, board, source, result);
            var listed := set p | p in result.postings :: p.sourceKey;
            && |db.rows| <= |after.rows| && |db.jobs| <= |after.jobs|
            && (forall r :: 0 <= r < |db.rows| && db.rows[r].sourceKey !in listed ==>
                  CountsAbsence(db.rows[r], after.rows[r], source, listed, result.fetchedAt))
            && (!after.jobs[j].status.Active? <==>
                  && (exists r :: ListsJob(db.rows, r, source, j) && db.rows[r].sourceKey !in listed
                                  && after.rows[r] != db.rows[r])
                  && GoneEverywhere(after.rows, enabled, j))
  {
    var postings, at := Collapsed(result.postings, PostingKey), result.fetchedAt;
    var origin := Origin(connector, Some(source), Some(board));
    ListedKeys(result.postings);
    DenialSeenIff(result.observed);
    AllUpsertedKeepsOthers(web, db, postings, origin, at);
    AllUpsertedKeeps(web, db, postings, origin, at, KeysWritten(web, Absorb(connector, board, source, result)));
    WrittenStaysActive(web, db, postings, origin, at, j);
    CountedAfterWriting(db, AllUpserted(web, db, postings, origin, at), enabled, source, KeysOf(postings), at, j);
  }

  lemma CountedAfterWriting(db: Db, written: Db, enabled: set<nat>, source: nat, listed: set<string>, at: Time, j: nat)
    requires StoreKept(db, written) && j < |db.jobs| && written.jobs[j].status.Active?
    requires forall r :: 0 <= r < |db.rows| && db.rows[r].sourceKey !in listed ==> written.rows[r] == db.rows[r]
    requires forall r :: |db.rows| <= r < |written.rows| ==> written.rows[r].sourceKey in listed
    ensures var after := AbsencesApplied(written, enabled, source, listed, at);
            && |after.rows| == |written.rows| && |after.jobs| == |written.jobs|
            && (forall r :: 0 <= r < |db.rows| && db.rows[r].sourceKey !in listed ==>
                  CountsAbsence(db.rows[r], after.rows[r], source, listed, at))
            && (!after.jobs[j].status.Active? <==>
                  && (exists r :: ListsJob(db.rows, r, source, j) && db.rows[r].sourceKey !in listed
                                  && after.rows[r] != db.rows[r])
                  && GoneEverywhere(after.rows, enabled, j))
  {
    SnapshotClosesExactly(written, enabled, source, listed, at, j);
    var after := AbsencesApplied(written, enabled, source, listed, at);
    assert forall r :: 0 <= r < |written.rows| ==> CountsAbsence(written.rows[r], after.rows[r], source, listed, at);
    if r :| ListsJob(written.rows, r, source, j) && after.rows[r] != written.rows[r] {
      assert r < |db.rows| && written.rows[r] == db.rows[r] && ListsJob(db.rows, r, source, j);
    }
    if r :| ListsJob(db.rows, r, source, j) && db.rows[r].sourceKey !in listed && after.rows[r] != db.rows[r] {
      assert ListsJob(written.rows, r, source, j);
    }
  }

  /**
    Whatever discovery does, on any run: a row never moves to another job, a job keeps its key,
    is never unseen and never loses what the user corrected or closed, and its content and
    revision change only for a posting with its own canonical key.
  */
  lemma DiscoveryKeepsIdentity(web: Web, steps: seq<Step>, step: Step)
    requires !step.EditJob?
    ensures var s, s' := Run(web, steps), Next(web, Run(web, steps), step);
            StoreKept(s.db, s'.db) && ContentKept(s.db, s'.db, KeysWritten(web, step)) && Valid(s'.db)
  {
    var s := Run(web, steps);
    CountersAgreeWithTheLog(web, steps);
    StepKeeps(web, s, step);
    match step
    case Absorb(connector, board, source, result) =>
      var postings := Collapsed(result.postings, PostingKey);
      var origin := Origin(connector, Some(source), Some(board));
      AbsorbIsWrittenThenSnapshot(web, s, connector, board, source, result);
      AllUpsertedKeeps(web, s.db, postings, origin, result.fetchedAt, KeysWritten(web, step));
      SightingsAgree(web, s, postings, origin, result.fetchedAt);
      var written := AllUpserted(web, s.db, postings, origin, result.fetchedAt);
      var applied := AbsencesApplied(written, s.enabled, source, KeysOf(postings), result.fetchedAt);
      AbsencesKeep(written, s.enabled, source, KeysOf(postings), result.fetchedAt);
      StoreKeptTransitive(s.db, written, applied);
      forall j | 0 <= j < |s.db.jobs| && s.db.jobs[j].canonicalKey !in KeysWritten(web, step)
        ensures applied.jobs[j].content == s.db.jobs[j].content && applied.jobs[j].revision == s.db.jobs[j].revision
      {
        assert written.jobs[j].canonicalKey !in {};
      }
    case ImportPosting(posting, origin, seenAt) => UpsertKeeps(web, s.db, posting, origin, seenAt);
    case _ =>
  }

  /** What survives edits too: identity, sightings, and the user's closures. */
  ghost predicate Lasts(a: Db, b: Db) {
    && |a.jobs| <= |b.jobs| && |a.rows| <= |b.rows|
    && (forall j :: 0 <= j < |a.jobs| ==>
          && b.jobs[j].canonicalKey == a.jobs[j].canonicalKey
          && a.jobs[j].lastSeen <= b.jobs[j].lastSeen && a.jobs[j].revision <= b.jobs[j].revision
          && (a.jobs[j].titleEdited.Some? ==> b.jobs[j].titleEdited.Some?)
          && (a.jobs[j].closedReason == Some(ByUser) && a.jobs[j].status.Closed? ==>
                b.jobs[j].closedReason == Some(ByUser) && b.jobs[j].status.Closed? && b.jobs[j].closedAt == a.jobs[j].closedAt))
    && forall r :: 0 <= r < |a.rows| ==> b.rows[r].sourceKey == a.rows[r].sourceKey && b.rows[r].job == a.rows[r].job
  }

  lemma LastsTransitive(a: Db, b: Db, c: Db)
    requires Lasts(a, b) && Lasts(b, c)
    ensures Lasts(a, c)
  {
  }

  lemma StepLasts(web: Web, steps: seq<Step>, step: Step)
    ensures Lasts(Run(web, steps).db, Next(web, Run(web, steps), step).db)
  {
    if !step.EditJob? {
      DiscoveryKeepsIdentity(web, steps, step);
      var s, s' := Run(web, steps), Next(web, Run(web, steps), step);
      assert forall j :: 0 <= j < |s.db.jobs| ==> JobKept(s.db.jobs[j], s'.db.jobs[j]);
    }
  }

  /**
    In every continuation of every run: keys and rows stay where they are, a job is never seen
    less recently, and what the user closed stays closed.
  */
  lemma {:induction false} RunsLast(web: Web, past: seq<Step>, future: seq<Step>)
    ensures Lasts(Run(web, past).db, Run(web, past + future).db)
  {
    hide Next;
    if future == [] {
      assert past + future == past;
    } else {
      var n := |future| - 1;
      RunsLast(web, past, future[..n]);
      StepLasts(web, past + future[..n], future[n]);
      assert (past + future)[..|past + future| - 1] == past + future[..n] && (past + future)[|past + future| - 1] == future[n];
      LastsTransitive(Run(web, past).db, Run(web, past + future[..n]).db, Run(web, past + future).db);
    }
  }

  // ---------------------------------------------------------------------------
  // Replaying a snapshot
  // ---------------------------------------------------------------------------

  /** Writing this posting again would change nothing. */
  ghost predicate Settled(web: Web, db: Db, posting: Posting, origin: Origin, at: Time) {
    var r := IndexOf(db.rows, posting.sourceKey, SourceKeyOf);
    && r < |db.rows| && db.rows[r].job < |db.jobs|
    && db.rows[r] == RowFor(posting, origin, db.rows[r].job)
    && var job := db.jobs[db.rows[r].job];
       && !Changes(job, posting, CanonicalKeyFor(web, posting, origin))
       && !Reopens(job)
       && at <= job.lastSeen
       && job.lastFetched.Some? && posting.retrievedAt <= job.lastFetched.value
  }

  ghost predicate AllSettled(web: Web, db: Db, postings: seq<Posting>, origin: Origin, at: Time) {
    forall i :: 0 <= i < |postings| ==> Settled(web, db, postings[i], origin, at)
  }

  lemma SettledIsFixed(web: Web, db: Db, posting: Posting, origin: Origin, at: Time)
    requires Settled(web, db, posting, origin, at)
    ensures Upserted(web, db, posting, origin, at) == db
  {
  }

  lemma UpsertSettles(web: Web, db: Db, posting: Posting, origin: Origin, at: Time)
    requires Valid(db)
    ensures Settled(web, Upserted(web, db, posting, origin, at), posting, origin, at)
  {
    var key := CanonicalKeyFor(web, posting, origin);
    var link := FindExisting(web, db, posting, key, origin);
    LinkedOnlyByIdentity(web, db, posting, origin);
    UpsertKeepsValid(web, db, posting, origin, at);
    var j := if link.Some? then link.value.job else |db.jobs|;
    var rows := Put(db.rows, RowFor(posting, origin, j), SourceKeyOf);
    var i := IndexOf(db.rows, posting.sourceKey, SourceKeyOf);
    assert SourceKeyOf(RowFor(posting, origin, j)) == posting.sourceKey;
    assert rows[i] == RowFor(posting, origin, j);
    OneRowPerKey(Upserted(web, db, posting, origin, at), posting.sourceKey, i);
  }

  /** Two postings of one result that share a canonical key share their content too. */
  ghost predicate OneContentPerKey(web: Web, postings: seq<Posting>, origin: Origin) {
    forall i, j :: 0 <= i < j < |postings| ==> Agreeing(web, postings[i], postings[j], origin)
  }

  predicate Agreeing(web: Web, p: Posting, q: Posting, origin: Origin) {
    CanonicalKeyFor(web, p, origin) == CanonicalKeyFor(web, q, origin) ==> p.content.hash == q.content.hash
  }

  lemma UpsertKeepsSettled(web: Web, db: Db, p: Posting, q: Posting, origin: Origin, at: Time)
    requires Valid(db) && Settled(web, db, p, origin, at) && p.sourceKey != q.sourceKey
    requires Agreeing(web, p, q, origin)
    ensures Settled(web, Upserted(web, db, q, origin, at), p, origin, at)
  {
    var r := IndexOf(db.rows, p.sourceKey, SourceKeyOf);
    var db' := Upserted(web, db, q, origin, at);
    UpsertKeepsValid(web, db, q, origin, at);
    UpsertKeepsOthers(web, db, q, origin, at);
    assert SourceKeyOf(db.rows[r]) == p.sourceKey;
    OneRowPerKey(db', p.sourceKey, r);
    JobStaysSettled(web, db, p, q, origin, at, db.rows[r].job);
  }

  lemma JobStaysSettled(web: Web, db: Db, p: Posting, q: Posting, origin: Origin, at: Time, j: nat)
    requires j < |db.jobs| && !Changes(db.jobs[j], p, CanonicalKeyFor(web, p, origin)) && !Reopens(db.jobs[j])
    requires at <= db.jobs[j].lastSeen
    requires db.jobs[j].lastFetched.Some? && p.retrievedAt <= db.jobs[j].lastFetched.value
    requires Agreeing(web, p, q, origin)
    ensures var job := Upserted(web, db, q, origin, at).jobs[j];
            && !Changes(job, p, CanonicalKeyFor(web, p, origin)) && !Reopens(job) && at <= job.lastSeen
            && job.lastFetched.Some? && p.retrievedAt <= job.lastFetched.value
  {
  }

  lemma {:induction false} AllSettle(web: Web, db: Db, postings: seq<Posting>, origin: Origin, at: Time)
    requires Valid(db) && UniqueKeys(postings, PostingKey) && OneContentPerKey(web, postings, origin)
    ensures AllSettled(web, AllUpserted(web, db, postings, origin, at), postings, origin, at)
  {
    if postings != [] {
      var n := |postings| - 1;
      AllSettle(web, db, postings[..n], origin, at);
      AllUpsertedKeepsValid(web, db, postings[..n], origin, at);
      OneMoreSettles(web, AllUpserted(web, db, postings[..n], origin, at), postings, origin, at);
    }
  }

  lemma OneMoreSettles(web: Web, before: Db, postings: seq<Posting>, origin: Origin, at: Time)
    requires postings != [] && Valid(before)
    requires UniqueKeys(postings, PostingKey) && OneContentPerKey(web, postings, origin)
    requires AllSettled(web, before, postings[..|postings| - 1], origin, at)
    ensures AllSettled(web, Upserted(web, before, postings[|postings| - 1], origin, at), postings, origin, at)
  {
    var n := |postings| - 1;
    UpsertSettles(web, before, postings[n], origin, at);
    forall i | 0 <= i < n
      ensures Settled(web, Upserted(web, before, postings[n], origin, at), postings[i], origin, at)
    {
      assert postings[..n][i] == postings[i];
      assert PostingKey(postings[i]) != PostingKey(postings[n]);
      UpsertKeepsSettled(web, before, postings[i], postings[n], origin, at);
    }
  }

  lemma {:induction false} AllFixed(web: Web, db: Db, postings: seq<Posting>, origin: Origin, at: Time)
    requires AllSettled(web, db, postings, origin, at)
    ensures AllUpserted(web, db, postings, origin, at) == db
  {
    if postings != [] {
      var n := |postings| - 1;
      assert forall i :: 0 <= i < n ==> postings[..n][i] == postings[i];
      AllFixed(web, db, postings[..n], origin, at);
      SettledIsFixed(web, db, postings[n], origin, at);
    }
  }

  /** A posting the snapshot lists through an enabled source is not closed by it. */
  lemma AbsencesKeepSettled(
    web: Web, db: Db, enabled: set<nat>, source: nat, listed: set<string>, p: Posting, origin: Origin, at: Time)
    requires Valid(db) && source in enabled && origin.source == Some(source) && p.sourceKey in listed
    requires Settled(web, db, p, origin, at)
    ensures Settled(web, AbsencesApplied(db, enabled, source, listed, at), p, origin, at)
  {
    var r := IndexOf(db.rows, p.sourceKey, SourceKeyOf);
    var after := AbsencesApplied(db, enabled, source, listed, at);
    ValidAfterAbsences(db, enabled, source, listed, at);
    assert after.rows[r] == db.rows[r];
    assert SourceKeyOf(after.rows[r]) == p.sourceKey;
    OneRowPerKey(after, p.sourceKey, r);
    assert Votes(after.rows[r], enabled, db.rows[r].job) && !SaysGone(after.rows[r]);
    assert after.jobs[db.rows[r].job] == JobAfter(db, enabled, source, listed, at, db.rows[r].job);
  }

  /** A snapshot time counts once. */
  lemma AbsencesCountOnce(db: Db, enabled: set<nat>, source: nat, listed: set<string>, at: Time)
    ensures var after := AbsencesApplied(db, enabled, source, listed, at);
            AbsencesApplied(after, enabled, source, listed, at) == after
  {
  }

  /**
    Applying a complete snapshot of an enabled source a second time changes nothing at all: no
    job's content, revision, status or times, no row's job or counters. It asks only that
    postings the result gives one canonical key do not contradict each other.
  */
  lemma SnapshotReplayChangesNothing(
    web: Web, db: Db, enabled: set<nat>, connector: string, board: string, source: nat, result: FetchResult)
    requires Valid(db) && source in enabled && Complete(result)
    requires OneContentPerKey(web, Collapsed(result.postings, PostingKey), Origin(connector, Some(source), Some(board)))
    ensures var once := Absorbed(web, db, enabled, connector, board, source, result);
            Absorbed(web, once, enabled, connector, board, source, result) == once
  {
    var postings, at := Collapsed(result.postings, PostingKey), result.fetchedAt;
    var origin := Origin(connector, Some(source), Some(board));
    CollapsedIsLastOfEach(result.postings, PostingKey);
    var written := AllUpserted(web, db, postings, origin, at);
    AllUpsertedKeepsValid(web, db, postings, origin, at);
    AllSettle(web, db, postings, origin, at);
    var once := AbsencesApplied(written, enabled, source, KeysOf(postings), at);
    forall i | 0 <= i < |postings|
      ensures Settled(web, once, postings[i], origin, at)
    {
      AbsencesKeepSettled(web, written, enabled, source, KeysOf(postings), postings[i], origin, at);
    }
    AllFixed(web, once, postings, origin, at);
    AbsencesCountOnce(written, enabled, source, KeysOf(postings), at);
  }

  // ---------------------------------------------------------------------------
  // Results that contradict themselves
  // ---------------------------------------------------------------------------

  /** A posting with this source key lands on this job, which owns the canonical key. */
  ghost predicate HomeIs(db: Db, sourceKey: string, key: string, k: nat) {
    && k < |db.jobs| && db.jobs[k].canonicalKey == key
    && forall r :: 0 <= r < |db.rows| && db.rows[r].sourceKey == sourceKey ==> db.rows[r].job == k
  }

  lemma HomeIsFound(web: Web, db: Db, p: Posting, origin: Origin, k: nat)
    requires Valid(db) && HomeIs(db, p.sourceKey, CanonicalKeyFor(web, p, origin), k)
    ensures var link := FindExisting(web, db, p, CanonicalKeyFor(web, p, origin), origin);
            link.Some? && link.value.job == k
  {
    var key := CanonicalKeyFor(web, p, origin);
    var r, j := IndexOf(db.rows, p.sourceKey, SourceKeyOf), IndexOf(db.jobs, key, CanonicalKeyOf);
    assert CanonicalKeyOf(db.jobs[k]) == key;
    assert j == k by {
      assert j <= k && CanonicalKeyOf(db.jobs[j]) == key;
    }
    assert r < |db.rows| ==> SourceKeyOf(db.rows[r]) == p.sourceKey;
  }

  lemma HomeKept(web: Web, db: Db, p: Posting, x: Posting, origin: Origin, at: Time, k: nat)
    requires Valid(db) && HomeIs(db, p.sourceKey, CanonicalKeyFor(web, p, origin), k)
    requires x == p || x.sourceKey != p.sourceKey
    ensures HomeIs(Upserted(web, db, x, origin, at), p.sourceKey, CanonicalKeyFor(web, p, origin), k)
  {
    var db' := Upserted(web, db, x, origin, at);
    UpsertKeeps(web, db, x, origin, at);
    assert JobKept(db.jobs[k], db'.jobs[k]);
    if x == p {
      HomeIsFound(web, db, p, origin, k);
      PutKeepsKeys(db.rows, RowFor(p, origin, k), SourceKeyOf);
      assert forall r :: 0 <= r < |db'.rows| ==>
          db'.rows[r] == if SourceKeyOf(db'.rows[r]) == p.sourceKey then RowFor(p, origin, k) else db.rows[r];
    } else {
      forall r | 0 <= r < |db'.rows| && db'.rows[r].sourceKey == p.sourceKey
        ensures db'.rows[r].job == k
      {
        UpsertedRow(web, db, x, origin, at, r);
      }
    }
  }

  lemma {:induction false} HomeKeptByAll(
    web: Web, db: Db, p: Posting, postings: seq<Posting>, origin: Origin, at: Time, k: nat)
    requires Valid(db) && HomeIs(db, p.sourceKey, CanonicalKeyFor(web, p, origin), k)
    requires forall x :: x in postings ==> x == p || x.sourceKey != p.sourceKey
    ensures HomeIs(AllUpserted(web, db, postings, origin, at), p.sourceKey, CanonicalKeyFor(web, p, origin), k)
  {
    if postings != [] {
      var n := |postings| - 1;
      HomeKeptByAll(web, db, p, postings[..n], origin, at, k);
      AllUpsertedKeepsValid(web, db, postings[..n], origin, at);
      HomeKept(web, AllUpserted(web, db, postings[..n], origin, at), p, postings[n], origin, at, k);
    }
  }

  /** Once a posting of the batch is written, its job says what it says. */
  lemma HashAfter(web: Web, db: Db, postings: seq<Posting>, i: nat, origin: Origin, at: Time, k: nat)
    requires Valid(db) && UniqueKeys(postings, PostingKey) && i < |postings|
    requires HomeIs(db, postings[i].sourceKey, CanonicalKeyFor(web, postings[i], origin), k)
    ensures var db' := AllUpserted(web, db, postings[..i + 1], origin, at);
            k < |db'.jobs| && db'.jobs[k].content.hash == postings[i].content.hash
  {
    var before := AllUpserted(web, db, postings[..i], origin, at);
    assert forall j :: 0 <= j < i ==> PostingKey(postings[j]) != PostingKey(postings[i]);
    HomeKeptByAll(web, db, postings[i], postings[..i], origin, at, k);
    AllUpsertedKeepsValid(web, db, postings[..i], origin, at);
    WrittenAtHome(web, before, postings[i], origin, at, k);
    assert postings[..i + 1][..i] == postings[..i] && postings[..i + 1][i] == postings[i];
  }

  lemma WrittenAtHome(web: Web, db: Db, p: Posting, origin: Origin, at: Time, k: nat)
    requires Valid(db) && HomeIs(db, p.sourceKey, CanonicalKeyFor(web, p, origin), k)
    ensures var db' := Upserted(web, db, p, origin, at);
            k < |db'.jobs| && db'.jobs[k].content.hash == p.content.hash
  {
    HomeIsFound(web, db, p, origin, k);
  }

  lemma {:induction false} WrittenInTwo(web: Web, db: Db, a: seq<Posting>, b: seq<Posting>, origin: Origin, at: Time)
    ensures AllUpserted(web, db, a + b, origin, at) == AllUpserted(web, AllUpserted(web, db, a, origin, at), b, origin, at)
  {
    if b == [] {
      assert a + b == a;
    } else {
      var n := |b| - 1;
      WrittenInTwo(web, db, a, b[..n], origin, at);
      assert (a + b)[..|a + b| - 1] == a + b[..n] && (a + b)[|a + b| - 1] == b[n];
    }
  }

  lemma WritingKeeps(web: Web, db: Db, postings: seq<Posting>, origin: Origin, at: Time)
    requires Valid(db)
    ensures StoreKept(db, AllUpserted(web, db, postings, origin, at)) && Valid(AllUpserted(web, db, postings, origin, at))
  {
    AllUpsertedKeeps(web, db, postings, origin, at,
      set i | 0 <= i < |postings| :: CanonicalKeyFor(web, postings[i], origin));
    AllUpsertedKeepsValid(web, db, postings, origin, at);
  }

  /** A posting still to come stays at home while the others are written. */
  lemma LaterHome(web: Web, db: Db, postings: seq<Posting>, i: nat, p: Posting, origin: Origin, at: Time, k: nat)
    requires Valid(db) && UniqueKeys(postings, PostingKey) && i < |postings| && p in postings[i + 1..]
    requires HomeIs(db, p.sourceKey, CanonicalKeyFor(web, p, origin), k)
    ensures HomeIs(AllUpserted(web, db, postings[..i + 1], origin, at), p.sourceKey, CanonicalKeyFor(web, p, origin), k)
  {
    var j :| i < j < |postings| && postings[j] == p;
    assert forall m :: 0 <= m <= i ==> PostingKey(postings[m]) != PostingKey(postings[j]);
    HomeKeptByAll(web, db, p, postings[..i + 1], origin, at, k);
  }

  /** The store once a posting of a batch has been written; the rest of the batch goes on from there. */
  lemma StageOf(web: Web, db: Db, postings: seq<Posting>, i: nat, p: Posting, origin: Origin, at: Time, k: nat)
    returns (stage: Db)
    requires HomeIs(db, p.sourceKey, CanonicalKeyFor(web, p, origin), k)
    requires Valid(db) && UniqueKeys(postings, PostingKey) && i < |postings|
    requires HomeIs(db, postings[i].sourceKey, CanonicalKeyFor(web, postings[i], origin), k)
    ensures Valid(stage) && StoreKept(db, stage)
    ensures k < |stage.jobs| && stage.jobs[k].content.hash == postings[i].content.hash
    ensures AllUpserted(web, db, postings, origin, at) == AllUpserted(web, stage, postings[i + 1..], origin, at)
    ensures p in postings[i + 1..] ==> HomeIs(stage, p.sourceKey, CanonicalKeyFor(web, p, origin), k)
  {
    stage := AllUpserted(web, db, postings[..i + 1], origin, at);
    HashAfter(web, db, postings, i, origin, at, k);
    WritingKeeps(web, db, postings[..i + 1], origin, at);
    WrittenInTwo(web, db, postings[..i + 1], postings[i + 1..], origin, at);
    assert postings[..i + 1] + postings[i + 1..] == postings;
    if p in postings[i + 1..] {
      LaterHome(web, db, postings, i, p, origin, at, k);
    }
  }

  /** The job's revision once one posting at home on it is written, and that the rest only adds to it. */
  lemma RestKeeps(web: Web, first: Db, rest: seq<Posting>, m: nat, origin: Origin, at: Time, k: nat)
    requires Valid(first) && UniqueKeys(rest, PostingKey) && m < |rest| && k < |first.jobs|
    requires HomeIs(first, rest[m].sourceKey, CanonicalKeyFor(web, rest[m], origin), k)
    requires first.jobs[k].content.hash != rest[m].content.hash
    ensures var last := AllUpserted(web, first, rest, origin, at);
            k < |last.jobs| && first.jobs[k].revision < last.jobs[k].revision
  {
    var second := StageOf(web, first, rest, m, rest[m], origin, at, k);
    WritingKeeps(web, second, rest[m + 1..], origin, at);
    RewritingRaises(first, second, AllUpserted(web, second, rest[m + 1..], origin, at), k);
  }

  lemma RewritingRaises(a: Db, b: Db, c: Db, k: nat)
    requires StoreKept(a, b) && StoreKept(b, c) && k < |a.jobs|
    requires a.jobs[k].content.hash != b.jobs[k].content.hash
    ensures k < |c.jobs| && a.jobs[k].revision < c.jobs[k].revision
  {
    assert JobKept(a.jobs[k], b.jobs[k]) && JobKept(b.jobs[k], c.jobs[k]);
  }

  /** Two postings that disagree about one job, written in turn, rewrite it. */
  lemma DisagreementRaises(
    web: Web, db: Db, postings: seq<Posting>, i: nat, j: nat, origin: Origin, at: Time, k: nat)
    requires Valid(db) && UniqueKeys(postings, PostingKey) && i < j < |postings|
    requires !Agreeing(web, postings[i], postings[j], origin)
    requires HomeIs(db, postings[i].sourceKey, CanonicalKeyFor(web, postings[i], origin), k)
    requires HomeIs(db, postings[j].sourceKey, CanonicalKeyFor(web, postings[j], origin), k)
    ensures var db' := AllUpserted(web, db, postings, origin, at);
            k < |db'.jobs| && db.jobs[k].revision < db'.jobs[k].revision
  {
    hide AllUpserted, Upserted, StoreKept, Valid, UniqueKeys, CanonicalKeyFor;
    var p := postings[j];
    assert p == postings[i + 1..][j - i - 1];
    var first := StageOf(web, db, postings, i, p, origin, at, k);
    assert first.jobs[k].content.hash != p.content.hash;
    LaterKeysAreUnique(postings, i + 1);
    RestRaises(web, db, first, postings[i + 1..], j - i - 1, p, origin, at, k);
  }

  lemma LaterKeysAreUnique(postings: seq<Posting>, i: nat)
    requires UniqueKeys(postings, PostingKey) && i <= |postings|
    ensures UniqueKeys(postings[i..], PostingKey)
  {
    assert forall a :: 0 <= a < |postings| - i ==> postings[i..][a] == postings[i + a];
  }

  lemma RestRaises(
    web: Web, db: Db, first: Db, rest: seq<Posting>, m: nat, p: Posting, origin: Origin, at: Time, k: nat)
    requires StoreKept(db, first) && k < |db.jobs|
    requires Valid(first) && UniqueKeys(rest, PostingKey) && m < |rest| && rest[m] == p
    requires HomeIs(first, p.sourceKey, CanonicalKeyFor(web, p, origin), k)
    requires first.jobs[k].content.hash != p.content.hash
    ensures var last := AllUpserted(web, first, rest, origin, at);
            k < |last.jobs| && db.jobs[k].revision < last.jobs[k].revision
  {
    RestKeeps(web, first, rest, m, origin, at, k);
    assert JobKept(db.jobs[k], first.jobs[k]);
  }

  lemma AbsencesKeepHomes(db: Db, enabled: set<nat>, source: nat, listed: set<string>, at: Time, j: nat)
    requires j < |db.jobs|
    ensures var after := AbsencesApplied(db, enabled, source, listed, at);
            && after.jobs[j].canonicalKey == db.jobs[j].canonicalKey && after.jobs[j].revision == db.jobs[j].revision
            && |after.rows| == |db.rows|
            && forall r :: 0 <= r < |db.rows| ==>
                 after.rows[r].job == db.rows[r].job && after.rows[r].sourceKey == db.rows[r].sourceKey
  {
  }

  function JobOwning(key: string): Job {
    Job(key, Content("", "", "", ""), Active, None, None, None, None, 1, 0, 0, None)
  }

  ghost predicate ReplayIsIdempotent(
    web: Web, db: Db, enabled: set<nat>, connector: string, board: string, source: nat, result: FetchResult)
  {
    var once := Absorbed(web, db, enabled, connector, board, source, result);
    Absorbed(web, once, enabled, connector, board, source, result) == once
  }

  /**
    Where a complete result gives one canonical key two contents, there is a store on which
    replaying it is not idempotent: where a job owns the key, each replay raises its revision.
  */
  lemma ContradictionsAreRewritten(
    web: Web, enabled: set<nat>, connector: string, board: string, source: nat, result: FetchResult) returns (db: Db)
    requires Complete(result)
    requires !OneContentPerKey(web, Collapsed(result.postings, PostingKey), Origin(connector, Some(source), Some(board)))
    ensures Valid(db) && !ReplayIsIdempotent(web, db, enabled, connector, board, source, result)
  {
    var postings, at := Collapsed(result.postings, PostingKey), result.fetchedAt;
    var origin := Origin(connector, Some(source), Some(board));
    CollapsedIsLastOfEach(result.postings, PostingKey);
    var i, j :| 0 <= i < j < |postings| && !Agreeing(web, postings[i], postings[j], origin);
    db := Db([JobOwning(CanonicalKeyFor(web, postings[i], origin))], []);
    var once := Absorbed(web, db, enabled, connector, board, source, result);
    OnceIsHome(web, db, enabled, connector, board, source, result, i);
    OnceIsHome(web, db, enabled, connector, board, source, result, j);
    DisagreementRaises(web, once, postings, i, j, origin, at, 0);
    AbsencesKeepHomes(AllUpserted(web, once, postings, origin, at), enabled, source, KeysOf(postings), at, 0);
  }

  /** After a result, each of its postings whose key a job owned without rows is at home there. */
  lemma OnceIsHome(
    web: Web, db: Db, enabled: set<nat>, connector: string, board: string, source: nat, result: FetchResult, i: nat)
    requires Complete(result) && Valid(db) && |db.jobs| == 1 && db.rows == []
    requires i < |Collapsed(result.postings, PostingKey)|
    requires var origin := Origin(connector, Some(source), Some(board));
             db.jobs[0].canonicalKey == CanonicalKeyFor(web, Collapsed(result.postings, PostingKey)[i], origin)
    ensures var origin := Origin(connector, Some(source), Some(board));
            var once := Absorbed(web, db, enabled, connector, board, source, result);
            var p := Collapsed(result.postings, PostingKey)[i];
            Valid(once) && HomeIs(once, p.sourceKey, CanonicalKeyFor(web, p, origin), 0)
  {
    var postings, at := Collapsed(result.postings, PostingKey), result.fetchedAt;
    var origin := Origin(connector, Some(source), Some(board));
    CollapsedIsLastOfEach(result.postings, PostingKey);
    var p := postings[i];
    forall x | x in postings
      ensures x == p || x.sourceKey != p.sourceKey
    {
      var m :| 0 <= m < |postings| && postings[m] == x;
      assert m != i ==> PostingKey(postings[m]) != PostingKey(postings[i]);
    }
    HomeKeptByAll(web, db, p, postings, origin, at, 0);
    var written := AllUpserted(web, db, postings, origin, at);
    AllUpsertedKeepsValid(web, db, postings, origin, at);
    AbsencesKeepHomes(written, enabled, source, KeysOf(postings), at, 0);
    ValidAfterAbsences(written, enabled, source, KeysOf(postings), at);
  }

  /**
    A complete result of an enabled source may be applied twice for the price of once, whatever
    the store, exactly when it gives no canonical key two contents.
  */
  lemma ReplayIsIdempotentIff(
    web: Web, enabled: set<nat>, connector: string, board: string, source: nat, result: FetchResult)
    requires source in enabled && Complete(result)
    ensures OneContentPerKey(web, Collapsed(result.postings, PostingKey), Origin(connector, Some(source), Some(board)))
       <==> forall db :: Valid(db) ==> ReplayIsIdempotent(web, db, enabled, connector, board, source, result)
  {
    if OneContentPerKey(web, Collapsed(result.postings, PostingKey), Origin(connector, Some(source), Some(board))) {
      forall db | Valid(db)
        ensures ReplayIsIdempotent(web, db, enabled, connector, board, source, result)
      {
        SnapshotReplayChangesNothing(web, db, enabled, connector, board, source, result);
      }
    } else {
      var db := ContradictionsAreRewritten(web, enabled, connector, board, source, result);
    }
  }
}

/**
  What holds over every run of an application, however its handlers interleave: the
  invariant, that each move was valid at the instant it was committed, and the guarantees
  about filling, packets, submissions and sessions that follow.
*/
module ApplicationSafety {
  import opened Common
  import opened Ordering
  import opened InsertionMap
  import opened FillPlan
  import opened Packets
  import opened ApplicationMachine
  import opened ApplicationCommits
  import opened ApplicationRuns
  import opened ApplicationInvariant

  // ---------------------------------------------------------------------------
  // The invariant over runs
  // ---------------------------------------------------------------------------

  lemma PacketStepKeeps(digest: Material -> string, run: seq<World>, step: Step)
    requires Recorded(run) && Inv(digest, run[|run| - 1]) && Commit(digest, run, step).Some? && WritesPackets(step)
    ensures Inv(digest, Commit(digest, run, step).value)
  {
    var w := run[|run| - 1];
    match step
    case DoCreatePacket(row, snapshot, answers) =>
      ReadIsCurrent(run, row, row);
      CreatePacketKeeps(digest, w, snapshot, answers);
    case DoApprove(row, packet, quotedHash, live, now, approvedAt, ttl) =>
      ReadIsCurrent(run, row, packet);
      ApproveKeeps(digest, w, w.row.currentPacket.value, quotedHash, live, now, approvedAt, ttl);
    case DoReconcile(row, packet, live, now) =>
      ReadIsCurrent(run, row, packet);
      ReconcileKeeps(digest, w, w.row.currentPacket.value, live, now);
    case DoRunnerResult(first, row, p, outcome, discovered, fingerprint) =>
      ReadIsCurrent(run, row, row);
      RunnerStepKeeps(digest, w, run[first].row, p, outcome, discovered, fingerprint);
    case _ =>
  }

  lemma RunnerStepKeeps(
    digest: Material -> string, w: World, first: Row, p: nat, outcome: FillOutcome,
    discovered: seq<Discovered>, fingerprint: Option<string>)
    requires Inv(digest, w) && p < |w.packets|
    requires RunnerResult(digest, w, first, w.row, p, outcome, discovered, fingerprint).Some?
    ensures Inv(digest, RunnerResult(digest, w, first, w.row, p, outcome, discovered, fingerprint).value)
  {
    var answers := Merged(Collapsed(w.packets[p].answers, AnswerKey), discovered);
    if outcome.QuestionsLeft? && first.currentPacket == Some(p) && UnresolvedQuestionKeys(answers) != [] {
      RunnerRevisionKeeps(digest, w, p, discovered, fingerprint);
    } else {
      RunnerPauseKeeps(digest, w, p, outcome);
    }
  }

  lemma FillStepKeeps(digest: Material -> string, run: seq<World>, step: Step)
    requires Recorded(run) && Inv(digest, run[|run| - 1]) && Commit(digest, run, step).Some? && StartsOrEndsFill(step)
    ensures Inv(digest, Commit(digest, run, step).value)
  {
    var w := run[|run| - 1];
    match step
    case DoRequestFill(row, packet, live, now) =>
      ReadIsCurrent(run, row, packet);
      RequestFillKeeps(digest, w, w.row.currentPacket.value, live, now);
    case DoCreateSession(auth, row, packet, device, declared, quotedHash, tabOrigin, live, now) =>
      ReadIsCurrent(run, row, packet);
      CreateSessionKeeps(digest, w, w.row.currentPacket.value, device, declared, quotedHash, tabOrigin, live, now);
    case DoReportSession(auth, row, session, pageOrigin, outcome, now) =>
      ReadIsCurrent(run, row, row);
      SessionIsHeld(run, auth, session);
      ReportSessionKeeps(digest, w, session, run[auth].sessions[session], pageOrigin, outcome, now);
    case DoRunnerFailure(row, p) =>
      if run[row].row.status.Filling? {
        ReadIsCurrent(run, row, row);
        RunnerFailureKeeps(digest, w, p);
      } else {
        NoteKeeps(digest, w, EventInput(FillFailed, Runner, About(p)));
      }
    case _ =>
  }

  /** A session read earlier differs from the stored one in nothing but its end. */
  lemma SessionIsHeld(run: seq<World>, auth: nat, session: nat)
    requires Recorded(run) && auth < |run| && session < |run[auth].sessions|
    ensures session < |run[|run| - 1].sessions|
    ensures run[|run| - 1].sessions[session].(ended := None) == run[auth].sessions[session].(ended := None)
    ensures run[auth].sessions[session].ended.Some? ==> run[|run| - 1].sessions[session] == run[auth].sessions[session]
  {
  }

  lemma OutcomeStepKeeps(digest: Material -> string, run: seq<World>, step: Step)
    requires Recorded(run) && Inv(digest, run[|run| - 1]) && Commit(digest, run, step).Some? && Settles(step)
    ensures Inv(digest, Commit(digest, run, step).value)
  {
    var w := run[|run| - 1];
    match step
    case DoObserveFromSession(auth, session, declared, seenOrigin, observation) =>
      ApplyObservationKeeps(digest, w, run[auth].sessions[session].packet, observation);
    case DoRunnerObservation(row, p, observation) =>
      if run[row].row.status.AwaitingUserSubmit? {
        ReadIsCurrent(run, row, row);
        ApplyObservationKeeps(digest, w, p, observation);
      } else {
        NoteKeeps(digest, w, EventInput(Note, Runner, About(p)));
      }
    case DoRequestObservation(row) =>
      ReadIsCurrent(run, row, row);
      RequestObservationKeeps(digest, w, w.row.currentPacket.value);
    case DoRecordOutcome(row, told, kind, report, now) =>
      ReadIsCurrent(run, row, row);
      RecordOutcomeKeeps(digest, w, told, kind, report, now);
    case _ =>
  }

  lemma CommitKeeps(digest: Material -> string, run: seq<World>, step: Step)
    requires Recorded(run) && Inv(digest, run[|run| - 1]) && Commit(digest, run, step).Some?
    ensures Inv(digest, Commit(digest, run, step).value)
  {
    if WritesPackets(step) {
      PacketStepKeeps(digest, run, step);
    } else if StartsOrEndsFill(step) {
      FillStepKeeps(digest, run, step);
    } else if Settles(step) {
      OutcomeStepKeeps(digest, run, step);
    } else {
      SessionsEndedKeeps(digest, run[|run| - 1], Commit(digest, run, step).value);
    }
  }

  /** The invariant holds in every world of every run, whatever its handlers had read. */
  lemma {:induction false} RunKeepsInvariant(digest: Material -> string, run: seq<World>, steps: seq<Step>, i: nat)
    requires IsRun(digest, run, steps) && i < |run|
    ensures Inv(digest, run[i])
  {
    if i == 0 {
      NewApplicationIsSound(digest, {});
    } else {
      RunKeepsInvariant(digest, run, steps, i - 1);
      IsRunPrefix(digest, run, steps, i - 1);
      RunIsRecorded(digest, run[..i], steps[..i - 1]);
      assert Commit(digest, run[..i - 1 + 1], steps[i - 1]) == Some(run[i]);
      CommitKeeps(digest, run[..i], steps[i - 1]);
    }
  }

  /** What the lemmas below need of the world a step commits on. */
  lemma StepContext(digest: Material -> string, run: seq<World>, steps: seq<Step>, k: nat)
    requires IsRun(digest, run, steps) && k < |steps|
    ensures Recorded(run[..k + 1]) && Inv(digest, run[k]) && Inv(digest, run[k + 1])
    ensures run[..k + 1][|run[..k + 1]| - 1] == run[k]
    ensures Commit(digest, run[..k + 1], steps[k]) == Some(run[k + 1])
    ensures Follows(digest, run[..k + 1], steps[k])
  {
    RunKeepsInvariant(digest, run, steps, k);
    RunKeepsInvariant(digest, run, steps, k + 1);
    IsRunPrefix(digest, run, steps, k);
    RunIsRecorded(digest, run[..k + 1], steps[..k]);
    CommitFollows(digest, run[..k + 1], steps[k]);
  }

  /** The row a step checked is the current one, or a revision nothing can be committed on. */
  ghost predicate UsesCurrentRow(run: seq<World>, step: Step) {
    run != [] && (RowUsed(run, step).revision == run[|run| - 1].row.revision ==> RowUsed(run, step) == run[|run| - 1].row)
  }

  /** The step committed, with nothing said of the worlds themselves. */
  lemma StepCommits(digest: Material -> string, run: seq<World>, steps: seq<Step>, k: nat)
    requires IsRun(digest, run, steps) && k < |steps|
    ensures |run[..k + 1]| == k + 1 && run[..k + 1][k] == run[k]
    ensures Commit(digest, run[..k + 1], steps[k]) == Some(run[k + 1])
    ensures UsesCurrentRow(run[..k + 1], steps[k])
  {
    StepContext(digest, run, steps, k);
    UsedRowIsCurrent(run[..k + 1], steps[k]);
  }

  /** A step appends at most one event. */
  lemma StepAppends(digest: Material -> string, run: seq<World>, steps: seq<Step>, k: nat)
    requires IsRun(digest, run, steps) && k < |steps|
    ensures run[k].events <= run[k + 1].events && |run[k + 1].events| <= |run[k].events| + 1
  {
    StepContext(digest, run, steps, k);
  }

  // ---------------------------------------------------------------------------
  // Optimistic commits
  // ---------------------------------------------------------------------------

  /**
    A committed move was valid when it was committed: the row its handler had checked, however
    long ago, is the row it replaced; the revision rises by one; one event records the move;
    and each of its hops is allowed.
  */
  lemma MovesAreValidAtCommit(digest: Material -> string, run: seq<World>, steps: seq<Step>, k: nat)
    requires IsRun(digest, run, steps) && k < |steps| && run[k + 1].row != run[k].row
    ensures RowUsed(run[..k + 1], steps[k]) == run[k].row
    ensures run[k + 1].row.revision == run[k].row.revision + 1
    ensures |run[k + 1].events| == |run[k].events| + 1 && run[k].events <= run[k + 1].events
    ensures var e := run[k + 1].events[|run[k].events|];
            && e.before == Some(run[k].row.status) && e.after == Some(run[k + 1].row.status)
            && Hops(e)[0] == run[k].row.status && Hops(e)[|Hops(e)| - 1] == run[k + 1].row.status
            && forall h :: 0 < h < |Hops(e)| ==> Hops(e)[h - 1] == Hops(e)[h] || EntersFrom(Hops(e)[h - 1], Hops(e)[h])
  {
    StepContext(digest, run, steps, k);
    UsedRowIsCurrent(run[..k + 1], steps[k]);
    var e := run[k + 1].events[|run[k].events|];
    assert EventOk(e);
    forall h | 0 < h < |Hops(e)|
      ensures Hops(e)[h - 1] == Hops(e)[h] || EntersFrom(Hops(e)[h - 1], Hops(e)[h])
    {
      AllowedIff(Hops(e)[h - 1], Hops(e)[h]);
    }
  }

  lemma UsedRowIsCurrent(run: seq<World>, step: Step)
    requires Recorded(run)
    ensures RowUsed(run, step).revision == run[|run| - 1].row.revision ==> RowUsed(run, step) == run[|run| - 1].row
  {
  }

  lemma MoveSpendsItsRevision(
    digest: Material -> string, run: seq<World>, steps: seq<Step>, k: nat, read: nat, next: nat)
    requires IsRun(digest, run, steps) && k < |steps| && run[k + 1].row != run[k].row
    requires read == RowUsed(run[..k + 1], steps[k]).revision && next == run[k + 1].row.revision
    ensures read == run[k].row.revision && next == read + 1
  {
    MovesAreValidAtCommit(digest, run, steps, k);
  }

  /** Of all the handlers that read one revision, at most one ever moves the application. */
  lemma OneMovePerRevision(digest: Material -> string, run: seq<World>, steps: seq<Step>, j: nat, k: nat)
    requires IsRun(digest, run, steps) && j < k < |steps|
    requires run[j + 1].row != run[j].row && run[k + 1].row != run[k].row
    ensures RowUsed(run[..j + 1], steps[j]).revision < RowUsed(run[..k + 1], steps[k]).revision
  {
    var read, read' := RowUsed(run[..j + 1], steps[j]).revision, RowUsed(run[..k + 1], steps[k]).revision;
    MoveSpendsItsRevision(digest, run, steps, j, read, run[j + 1].row.revision);
    MoveSpendsItsRevision(digest, run, steps, k, read', run[k + 1].row.revision);
    RunIsLater(digest, run, steps, j + 1, k);
  }

  /**
    The history of every world of a run replays to its row: sequences are 1 to n, each move
    starts where the last one ended, the last one ended at the stored status, and the revision
    is one more than the number of moves.
  */
  lemma HistoryReplays(digest: Material -> string, run: seq<World>, steps: seq<Step>, i: nat)
    requires IsRun(digest, run, steps) && i < |run|
    ensures var events := run[i].events;
            && (forall n :: 0 <= n < |events| ==> events[n].sequence == n + 1)
            && (forall m, n :: 0 <= m < n < |events| && LastStatus(events, n, m) && events[n].before.Some? ==>
                  events[n].before == events[m].after)
            && (forall n: nat :: LastStatus(events, |events|, n) ==> events[n].after == Some(run[i].row.status))
            && run[i].row.revision == 1 + Moves(events)
  {
    RunKeepsInvariant(digest, run, steps, i);
    ReplayIsAChain(run[i].events);
  }
}

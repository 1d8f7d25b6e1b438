/**
  The handlers themselves, as they write: each does its writes in order inside one
  transaction, and a refused transition takes all of them back. Every one is proved to commit
  exactly what the function of the same name says, or nothing.
*/
module ApplicationHandlers {
  import opened Common
  import opened Ordering
  import opened InsertionMap
  import opened FillPlan
  import opened Packets
  import opened PacketAnswers
  import opened ApplicationMachine
  import opened ApplicationCommits

  /** The rows now hold what was committed, or what they held when the transaction began. */
  ghost predicate Settled(was: World, committed: Option<World>, ok: bool, now: World) {
    && (ok <==> committed.Some?)
    && now == (if committed.Some? then committed.value else was)
  }

  /** Rolling back, where the transition was refused. */
  method Close(rows: ApplicationRows, was: World, ok: bool)
    modifies rows
    ensures rows.View() == if ok then old(rows.View()) else was
  {
    if !ok {
      rows.row, rows.packets, rows.events, rows.sessions, rows.revoked :=
        was.row, was.packets, was.events, was.sessions, was.revoked;
    }
  }

  method UnansweredRequired(answers: seq<PacketAnswer>) returns (keys: seq<string>)
    ensures keys == UnresolvedQuestionKeys(answers)
  {
    keys := [];
    for n := 0 to |answers|
      invariant keys + UnresolvedQuestionKeys(answers[n..]) == UnresolvedQuestionKeys(answers)
    {
      assert answers[n..][0] == answers[n] && answers[n..][1..] == answers[n + 1..];
      if Unresolved(answers[n]) {
        keys := keys + [answers[n].questionKey];
      }
    }
  }

  /** `createApplicationPacket`, which is also refused for answers `assertPacketAnswers` refuses. */
  method CreateApplicationPacket(
    rows: ApplicationRows, digest: Material -> string, read: Row, snapshot: Snapshot,
    answers: seq<PacketAnswer>, sources: Sources) returns (ok: bool)
    modifies rows
    ensures ok ==> Settled(old(rows.View()), CreatePacket(digest, old(rows.View()), read, snapshot, answers), true, rows.View())
    ensures !ok ==> rows.View() == old(rows.View())
    ensures ok <==> && (forall i :: 0 <= i < |answers| ==> Backed(answers[i], sources))
                    && CreatePacket(digest, old(rows.View()), read, snapshot, answers).Some?
  {
    if AtOrPastSubmission(read.status) || read.status.Cancelled? {
      return false;
    }
    var verdict := AssertPacketAnswers(answers, sources);
    if verdict.Refused? {
      return false;
    }
    var contentHash := digest(BuildPacketHashMaterial(snapshot, answers));
    var unresolved := UnansweredRequired(answers);
    var target := if unresolved != [] then NeedsInput else ReadyForReview;

    var was := World(rows.row, rows.packets, rows.events, rows.sessions, rows.revoked);
    var id := |rows.packets|;
    rows.packets := rows.packets + [Packet(snapshot, answers, contentHash, None)];
    ok := rows.TransitionApplication(read, if read.status.Preparing? then [target] else [Preparing, target],
      EventInput(PacketCreated, User, About(id)), NO_COLUMNS.(currentPacket := Some(id)));
    Close(rows, was, ok);
  }

  method ApproveApplication(
    rows: ApplicationRows, read: Row, p: nat, packet: Packet, quotedHash: string, live: Live,
    now: Time, approvedAt: Time, ttl: int) returns (ok: bool)
    requires p < |rows.packets|
    modifies rows
    ensures Settled(old(rows.View()), Approve(old(rows.View()), read, p, packet, quotedHash, live, now, approvedAt, ttl),
              ok, rows.View())
  {
    if packet.contentHash != quotedHash {
      return false;
    }
    var unresolved := UnansweredRequired(packet.answers);
    if unresolved != [] || PacketStaleness(packet, live, now) != [] || !read.status.ReadyForReview? {
      return false;
    }
    var expires := ApprovalExpiry(approvedAt, ttl);
    var was := World(rows.row, rows.packets, rows.events, rows.sessions, rows.revoked);
    rows.packets := rows.packets[p := rows.packets[p].(approval := Some(Approval(approvedAt, packet.contentHash, expires)))];
    ok := rows.TransitionApplication(read, [Approved],
      EventInput(PacketApproved, User, Approving(p, packet.contentHash, expires)), NO_COLUMNS);
    Close(rows, was, ok);
  }

  /** One application of `reconcileApplications`. */
  method ReconcileApplication(rows: ApplicationRows, read: Row, p: nat, packet: Packet, live: Live, now: Time)
    returns (ok: bool)
    requires p < |rows.packets|
    modifies rows
    ensures Settled(old(rows.View()), Reconcile(old(rows.View()), read, p, packet, live, now), ok, rows.View())
    ensures ok ==>
              && read.status.Approved? && packet.approval.Some?
              && |rows.packets| == |old(rows.packets)| && rows.packets[p].approval.None?
              && (if Describes(packet.snapshot, live)
                  then packet.approval.value.expires <= now && rows.row.status.ReadyForReview?
                  else rows.row.status.Preparing?)
  {
    FreshMeansDescribed(packet, live, now);
    var staleness := PacketStaleness(packet, live, now);
    if packet.approval.None? || |staleness| == 0 || !read.status.Approved? {
      return false;
    }
    var expiredOnly := |staleness| == 1 && staleness[0] == ApprovalRanOut;
    assert expiredOnly <==> staleness == [ApprovalRanOut];
    var was := World(rows.row, rows.packets, rows.events, rows.sessions, rows.revoked);
    rows.packets := rows.packets[p := rows.packets[p].(approval := None)];
    ok := rows.TransitionApplication(read, [if expiredOnly then ReadyForReview else Preparing],
      EventInput(if expiredOnly then ApprovalExpired else ApprovalInvalidated, System, About(p)), NO_COLUMNS);
    Close(rows, was, ok);
  }

  /** `fillApplication`, once a paired runner for this origin was found. */
  method FillApplication(rows: ApplicationRows, read: Row, p: nat, packet: Packet, live: Live, now: Time) returns (ok: bool)
    modifies rows
    ensures Settled(old(rows.View()), RequestFill(old(rows.View()), read, p, packet, live, now), ok, rows.View())
    ensures ok ==>
              && read.status.Approved? && rows.row.status.Filling?
              && (forall a :: a in packet.answers && a.required ==> a.answer.Some?)
              && Describes(packet.snapshot, live)
              && packet.approval.Some? && now < packet.approval.value.expires
  {
    NothingUnresolved(packet.answers);
    FreshMeansDescribed(packet, live, now);
    if read.status.OutcomeUnknown? || !read.status.Approved? || packet.approval.None? {
      return false;
    }
    if PacketStaleness(packet, live, now) != [] {
      return false;
    }
    var unresolved := UnansweredRequired(packet.answers);
    if unresolved != [] {
      return false;
    }
    ok := rows.TransitionApplication(read, [Filling], EventInput(FillRequested, User, About(p)), NO_COLUMNS);
  }

  /** Ends, as one update does, every open session that has run out. */
  method EndExpiredSessions(sessions: seq<Session>, now: Time) returns (ended: seq<Session>)
    ensures ended == EndExpired(sessions, now)
  {
    ended := [];
    for s := 0 to |sessions|
      invariant ended == EndExpired(sessions, now)[..s]
    {
      if sessions[s].ended.None? && sessions[s].expires <= now {
        ended := ended + [sessions[s].(ended := Some(Ending(now, Superseded)))];
      } else {
        ended := ended + [sessions[s]];
      }
    }
  }

  method CreateFillSession(
    rows: ApplicationRows, read: Row, p: nat, packet: Packet, device: nat, declared: seq<string>,
    quotedHash: string, tabOrigin: string, live: Live, now: Time) returns (ok: bool)
    modifies rows
    ensures Settled(old(rows.View()),
              CreateSession(old(rows.View()), read, p, packet, device, declared, quotedHash, tabOrigin, live, now),
              ok, rows.View())
    ensures ok ==>
              && read.status.Approved? && rows.row.status.Filling?
              && (forall a :: a in packet.answers && a.required ==> a.answer.Some?)
              && Describes(packet.snapshot, live)
              && packet.approval.Some? && now < packet.approval.value.expires
              && quotedHash == packet.contentHash && tabOrigin == packet.snapshot.destination.origin
              && (declared == [] || exists i :: 0 <= i < |declared| && declared[i] == tabOrigin)
  {
    NothingUnresolved(packet.answers);
    FreshMeansDescribed(packet, live, now);
    var unresolved := UnansweredRequired(packet.answers);
    if !read.status.Approved? || packet.approval.None? || PacketStaleness(packet, live, now) != [] || unresolved != []
      || quotedHash != packet.contentHash || tabOrigin != packet.snapshot.destination.origin
      || !Permits(declared, tabOrigin)
    {
      return false;
    }
    var was := World(rows.row, rows.packets, rows.events, rows.sessions, rows.revoked);
    rows.sessions := EndExpiredSessions(rows.sessions, now);
    var open := false;
    for s := 0 to |rows.sessions|
      invariant rows.sessions == EndExpired(was.sessions, now)
      invariant rows.View() == was.(sessions := rows.sessions)
      invariant open <==> exists t :: 0 <= t < s && rows.sessions[t].ended.None?
    {
      open := open || rows.sessions[s].ended.None?;
    }
    if open {
      Close(rows, was, false);
      return false;
    }
    rows.sessions := rows.sessions + [Session(device, p, packet.contentHash, tabOrigin, now + FILL_SESSION_TTL, None)];
    ok := rows.TransitionApplication(read, [Filling], EventInput(FillRequested, User, About(p)), NO_COLUMNS);
    Close(rows, was, ok);
  }

  method ReportFillSession(
    rows: ApplicationRows, read: Row, s: nat, held: Session, pageOrigin: Option<string>, outcome: FillOutcome, now: Time)
    returns (ok: bool)
    requires s < |rows.sessions|
    modifies rows
    ensures Settled(old(rows.View()), ReportSession(old(rows.View()), read, s, held, pageOrigin, outcome, now),
              ok, rows.View())
    ensures ok ==>
              && held.ended.None? && now < held.expires && old(rows.sessions)[s].ended.None?
              && |rows.sessions| == |old(rows.sessions)| && rows.sessions[s].ended == Some(Ending(now, Reported))
              && rows.row.status
                   == (match outcome
                       case AwaitingSubmit => AwaitingUserSubmit
                       case QuestionsLeft => NeedsInput
                       case NoAdapter => Approved)
  {
    if held.ended.Some? || held.expires <= now || (pageOrigin.Some? && pageOrigin.value != held.origin) {
      return false;
    }
    var was := World(rows.row, rows.packets, rows.events, rows.sessions, rows.revoked);
    if rows.sessions[s].ended.Some? {
      return false;
    }
    rows.sessions := rows.sessions[s := rows.sessions[s].(ended := Some(Ending(now, Reported)))];
    ok := rows.TransitionApplication(read, [FillStatus(outcome)],
      EventInput(FillPaused, Runner, About(held.packet)), NO_COLUMNS);
    Close(rows, was, ok);
  }

  /** `applyFillLocalResult` with `writeDiscoveredPacket` inside it. */
  method ApplyFillLocalResult(
    rows: ApplicationRows, digest: Material -> string, first: Row, read: Row, p: nat, outcome: FillOutcome,
    discovered: seq<Discovered>, fingerprint: Option<string>) returns (ok: bool)
    requires p < |rows.packets|
    modifies rows
    ensures Settled(old(rows.View()),
              RunnerResult(digest, old(rows.View()), first, read, p, outcome, discovered, fingerprint), ok, rows.View())
  {
    var was := World(rows.row, rows.packets, rows.events, rows.sessions, rows.revoked);
    if outcome.QuestionsLeft? && first.currentPacket == Some(p) {
      var previous := rows.packets[p];
      var answers := MergeDiscoveredQuestions(previous.answers, discovered);
      var unresolved := UnansweredRequired(answers);
      if unresolved != [] {
        var snapshot := previous.snapshot.(formFingerprint := fingerprint);
        var contentHash := digest(BuildPacketHashMaterial(snapshot, answers));
        if p + 1 < |rows.packets| {
          // A packet with this revision exists, and the unique index says so.
          return false;
        }
        rows.packets := rows.packets + [Packet(snapshot, answers, contentHash, None)];
        rows.packets := rows.packets[p := previous.(approval := None)];
        assert rows.packets == WithApproval(was, p, None).packets + [NewPacket(digest, snapshot, answers)];
        ok := rows.TransitionApplication(read, [NeedsInput], EventInput(FillPaused, Runner, About(p + 1)),
          NO_COLUMNS.(currentPacket := Some(p + 1)));
        Close(rows, was, ok);
        return;
      }
    }
    ok := rows.TransitionApplication(read, [FillStatus(outcome)], EventInput(FillPaused, Runner, About(p)), NO_COLUMNS);
    Close(rows, was, ok);
  }

  method ApplyFillLocalFailure(rows: ApplicationRows, read: Row, p: nat) returns (ok: bool)
    modifies rows
    ensures Settled(old(rows.View()), RunnerFailure(old(rows.View()), read, p), ok, rows.View())
    ensures rows.row == old(rows.row) || (read.status.Filling? && rows.row.status.Failed?)
    ensures ok ==> rows.row.status.Failed? || !read.status.Filling?
    ensures ok ==> |rows.events| == |old(rows.events)| + 1 && rows.events[|old(rows.events)|].kind.FillFailed?
  {
    if !read.status.Filling? {
      rows.AppendApplicationEvent(EventInput(FillFailed, Runner, About(p)), None, None, []);
      return true;
    }
    ok := rows.TransitionApplication(read, [Failed], EventInput(FillFailed, Runner, About(p)), NO_COLUMNS);
  }

  method ObserveApplication(rows: ApplicationRows, read: Row, p: nat, o: Observation) returns (ok: bool)
    modifies rows
    ensures Settled(old(rows.View()), ApplyObservation(old(rows.View()), read, p, o), ok, rows.View())
    ensures !ok || !read.status.AwaitingUserSubmit? ==> rows.row == old(rows.row)
    ensures ok ==> |rows.events| == |old(rows.events)| + 1 && rows.events[|old(rows.events)|].actor.Runner?
    ensures ok && read.status.AwaitingUserSubmit? ==>
              && (rows.row.status.Submitted? <==> Coherent(o) && o.observed)
              && (!rows.row.status.Submitted? ==>
                    rows.row.status.OutcomeUnknown? && rows.row.evidence == old(rows.row.evidence))
  {
    var observed := Coherent(o) && o.observed;
    if !read.status.AwaitingUserSubmit? {
      rows.AppendApplicationEvent(EventInput(Note, Runner, About(p)), None, None, []);
      return true;
    }
    if !observed {
      ok := rows.TransitionApplication(read, [OutcomeUnknown], EventInput(OutcomeRecorded, Runner, About(p)), NO_COLUMNS);
      return;
    }
    var seen := o.confirmation.value;
    ok := rows.TransitionApplication(read, [Submitted], EventInput(SubmissionRecorded, Runner, About(p)),
      Columns(Some(Some(seen.observedAt)),
              Some(Some(Evidence(AdapterObserved, Some(seen.observedAt), seen.detail))), None));
  }

  method RecordApplicationOutcome(
    rows: ApplicationRows, read: Row, outcome: Outcome, kind: EvidenceKind, report: Option<Report>, now: Time)
    returns (ok: bool)
    modifies rows
    ensures Settled(old(rows.View()), RecordOutcome(old(rows.View()), read, outcome, kind, report, now), ok, rows.View())
    ensures ok && (rows.row.evidence.Some? || rows.row.submittedAt.Some?) ==> AtOrPastSubmission(rows.row.status)
    ensures ok && rows.row.evidence.Some? ==> !rows.row.evidence.value.kind.AdapterObserved?
    ensures ok && outcome.WasSubmitted? ==> rows.row.evidence.Some? && rows.row.submittedAt.Some?
  {
    if kind.AdapterObserved? || (outcome.WasSubmitted? && kind.NoEvidence?) {
      return false;
    }
    var target := OutcomeStatus(outcome);
    var observedAt: Option<Time> := None;
    if report.Some? {
      observedAt := report.value.observedAt;
    }
    var evidence: Option<Evidence> := None;
    if !kind.NoEvidence? || report.Some? {
      evidence := Some(Evidence(kind, observedAt, if report.Some? then report.value.detail else ""));
    }
    var submittedAt := read.submittedAt;
    if outcome.WasSubmitted? {
      submittedAt := Some(if observedAt.Some? then observedAt.value else now);
    }
    if outcome.WasNotSubmitted? || !AtOrPastSubmission(target) {
      submittedAt, evidence := None, None;
    }
    ok := rows.TransitionApplication(read, [target],
      EventInput(
        if outcome.WasCancelled? then CancellationRecorded
        else if outcome.WasSubmitted? then SubmissionRecorded else OutcomeRecorded, User, Nothing),
      Columns(Some(submittedAt), Some(evidence), None));
  }

  /** `revokeDevice`: the credential and this application's sessions, in one transaction. */
  method RevokePairedDevice(rows: ApplicationRows, device: nat, now: Time)
    modifies rows
    ensures rows.View() == RevokeDevice(old(rows.View()), device, now)
  {
    ghost var was := rows.View();
    rows.revoked := rows.revoked + {device};
    for s := 0 to |rows.sessions|
      invariant |rows.sessions| == |was.sessions|
      invariant rows.View() == was.(revoked := was.revoked + {device}, sessions := rows.sessions)
      invariant forall t :: 0 <= t < |was.sessions| ==>
                  rows.sessions[t] == if t < s then EndOfDevice(was.sessions, device, now)[t] else was.sessions[t]
    {
      if rows.sessions[s].device == device && rows.sessions[s].ended.None? {
        rows.sessions := rows.sessions[s := rows.sessions[s].(ended := Some(Ending(now, DeviceRevoked)))];
      }
    }
    assert rows.sessions == EndOfDevice(was.sessions, device, now);
  }
}

/**
  Runs of one application: any number of handlers at once, each committing on reads that may
  be arbitrarily old. A run is the sequence of committed worlds; a step names the earlier
  worlds its handler read.
*/
module ApplicationRuns {
  import opened Common
  import opened Ordering
  import opened InsertionMap
  import opened FillPlan
  import opened Packets
  import opened ApplicationMachine
  import opened ApplicationCommits

  /**
    One committed transaction. `row` is the position in the run of the world the application
    row was read from, `packet` that of the packet row, and `auth` that of the device or
    session.
  */
  datatype Step =
    | DoCreatePacket(row: nat, snapshot: Snapshot, answers: seq<PacketAnswer>)
    | DoApprove(row: nat, packet: nat, quotedHash: string, live: Live, now: Time, approvedAt: Time, ttl: int)
    | DoReconcile(row: nat, packet: nat, live: Live, now: Time)
    | DoRequestFill(row: nat, packet: nat, live: Live, now: Time)
    | DoCreateSession(auth: nat, row: nat, packet: nat, device: nat, declared: seq<string>,
        quotedHash: string, tabOrigin: string, live: Live, now: Time)
    | DoReportSession(auth: nat, row: nat, session: nat, pageOrigin: Option<string>, outcome: FillOutcome, now: Time)
    | DoEndSession(auth: nat, session: nat, now: Time)
    | DoObserveFromSession(auth: nat, session: nat, declared: seq<string>, seenOrigin: string, observation: Observation)
    | DoRunnerResult(first: nat, row: nat, p: nat, outcome: FillOutcome, discovered: seq<Discovered>, fingerprint: Option<string>)
    | DoRunnerFailure(row: nat, p: nat)
    | DoRunnerObservation(row: nat, p: nat, observation: Observation)
    | DoRequestObservation(row: nat)
    | DoRecordOutcome(row: nat, told: Outcome, kind: EvidenceKind, report: Option<Report>, now: Time)
    | DoRevokeDevice(device: nat, now: Time)
    | DoSweepSessions(now: Time)

  /** A handler that authenticates as this device gets past authentication in this world. */
  predicate Authenticates(w: World, device: nat) {
    device !in w.revoked
  }

  /** The packet the row names, where the handler finds it. */
  predicate Reads(run: seq<World>, row: nat, packet: nat) {
    && row <= packet < |run|
    && run[row].row.currentPacket.Some?
    && run[row].row.currentPacket.value < |run[packet].packets|
    && run[row].row.currentPacket.value < |run[|run| - 1].packets|
  }

  predicate HoldsSession(run: seq<World>, auth: nat, session: nat) {
    && auth < |run|
    && session < |run[auth].sessions| && session < |run[|run| - 1].sessions|
    && Authenticates(run[auth], run[auth].sessions[session].device)
  }

  /** The world a step commits at the end of a run, or nothing when it is refused. */
  ghost function Commit(digest: Material -> string, run: seq<World>, step: Step): Option<World>
    requires run != []
  {
    var w := run[|run| - 1];
    match step
    case DoCreatePacket(row, snapshot, answers) =>
      if row >= |run| then None else CreatePacket(digest, w, run[row].row, snapshot, answers)
    case DoApprove(row, packet, quotedHash, live, now, approvedAt, ttl) =>
      if !Reads(run, row, packet) then None
      else
        var p := run[row].row.currentPacket.value;
        Approve(w, run[row].row, p, run[packet].packets[p], quotedHash, live, now, approvedAt, ttl)
    case DoReconcile(row, packet, live, now) =>
      if !Reads(run, row, packet) then None
      else
        var p := run[row].row.currentPacket.value;
        Reconcile(w, run[row].row, p, run[packet].packets[p], live, now)
    case DoRequestFill(row, packet, live, now) =>
      if !Reads(run, row, packet) then None
      else
        var p := run[row].row.currentPacket.value;
        RequestFill(w, run[row].row, p, run[packet].packets[p], live, now)
    case DoCreateSession(auth, row, packet, device, declared, quotedHash, tabOrigin, live, now) =>
      if auth > row || !Reads(run, row, packet) || !Authenticates(run[auth], device) then None
      else
        var p := run[row].row.currentPacket.value;
        CreateSession(w, run[row].row, p, run[packet].packets[p], device, declared, quotedHash, tabOrigin, live, now)
    case DoReportSession(auth, row, session, pageOrigin, outcome, now) =>
      if auth > row || row >= |run| || !HoldsSession(run, auth, session) then None
      else ReportSession(w, run[row].row, session, run[auth].sessions[session], pageOrigin, outcome, now)
    case DoEndSession(auth, session, now) =>
      if !HoldsSession(run, auth, session) || w.sessions[session].ended.Some? then None
      else Some(EndSession(w, session, now, CancelledByDevice))
    case DoObserveFromSession(auth, session, declared, seenOrigin, observation) =>
      if !HoldsSession(run, auth, session) || run[auth].sessions[session].packet >= |w.packets| then None
      else
        var held := run[auth].sessions[session];
        ObserveFromSession(w, held, w.packets[held.packet], declared, seenOrigin, observation)
    case DoRunnerResult(first, row, p, outcome, discovered, fingerprint) =>
      if first > row || row >= |run| || p >= |run[first].packets| || p >= |w.packets| then None
      else RunnerResult(digest, w, run[first].row, run[row].row, p, outcome, discovered, fingerprint)
    case DoRunnerFailure(row, p) =>
      if row >= |run| then None else RunnerFailure(w, run[row].row, p)
    case DoRunnerObservation(row, p, observation) =>
      if row >= |run| then None else ApplyObservation(w, run[row].row, p, observation)
    case DoRequestObservation(row) =>
      if row >= |run| || run[row].row.currentPacket.None? then None
      else RequestObservation(w, run[row].row, run[row].row.currentPacket.value)
    case DoRecordOutcome(row, told, kind, report, now) =>
      if row >= |run| then None else RecordOutcome(w, run[row].row, told, kind, report, now)
    case DoRevokeDevice(device, now) => Some(RevokeDevice(w, device, now))
    case DoSweepSessions(now) => Some(w.(sessions := EndExpired(w.sessions, now)))
  }

  /** A run: it starts with a new application, and each world is what some step committed. */
  ghost predicate IsRun(digest: Material -> string, run: seq<World>, steps: seq<Step>) {
    && |run| == |steps| + 1
    && run[0] == NewApplication({})
    && forall k :: 0 <= k < |steps| ==> Commit(digest, run[..k + 1], steps[k]) == Some(run[k + 1])
  }

  // ---------------------------------------------------------------------------
  // What every step keeps
  // ---------------------------------------------------------------------------

  /** Packets are only added, and a stored packet changes in nothing but its approval. */
  ghost predicate PacketsKept(a: seq<Packet>, b: seq<Packet>) {
    |a| <= |b| && forall p :: 0 <= p < |a| ==> b[p].(approval := None) == a[p].(approval := None)
  }

  /** Sessions are only added; a session changes in nothing but its end, and that once. */
  ghost predicate SessionsKept(a: seq<Session>, b: seq<Session>) {
    && |a| <= |b|
    && forall s :: 0 <= s < |a| ==> b[s].(ended := None) == a[s].(ended := None) && (a[s].ended.Some? ==> b[s] == a[s])
  }

  ghost predicate Later(a: World, b: World) {
    && a.row.revision <= b.row.revision
    && (a.row.revision == b.row.revision ==> a.row == b.row && a.packets == b.packets)
    && PacketsKept(a.packets, b.packets)
    && a.events <= b.events
    && SessionsKept(a.sessions, b.sessions)
    && a.revoked <= b.revoked
  }

  /** `w'` follows `w` either without touching the row, or by one recorded move from the row `read`. */
  ghost predicate StepsFrom(w: World, read: Row, w': World) {
    || (w'.row == w.row && w'.packets == w.packets
        && (w'.events == w.events
            || (|w'.events| == |w.events| + 1 && w'.events[|w.events|].before.None? && w'.events[|w.events|].after.None?)))
    || (&& w.row.revision == read.revision && w'.row.revision == read.revision + 1
        && |w'.events| == |w.events| + 1
        && w'.events[|w.events|].before == Some(read.status)
        && w'.events[|w.events|].after == Some(w'.row.status))
  }

  lemma LaterIsTransitive(a: World, b: World, c: World)
    requires Later(a, b) && Later(b, c)
    ensures Later(a, c)
  {
  }

  lemma MoveIsLater(w: World, base: World, read: Row, path: seq<Status>, ev: EventInput, columns: Columns)
    requires Transitioned(base, read, path, ev, columns).Some?
    requires base.row == w.row && base.events == w.events && base.revoked == w.revoked
    requires PacketsKept(w.packets, base.packets) && SessionsKept(w.sessions, base.sessions)
    ensures Later(w, Transitioned(base, read, path, ev, columns).value)
    ensures StepsFrom(w, read, Transitioned(base, read, path, ev, columns).value)
  {
  }

  /** A commit that leaves the row and the packets alone. */
  lemma AsideIsLater(w: World, w': World)
    requires w'.row == w.row && w'.packets == w.packets && w.events <= w'.events
    requires SessionsKept(w.sessions, w'.sessions) && w.revoked <= w'.revoked
    ensures Later(w, w')
  {
  }

  lemma CreatePacketIsLater(digest: Material -> string, w: World, read: Row, snapshot: Snapshot, answers: seq<PacketAnswer>)
    requires CreatePacket(digest, w, read, snapshot, answers).Some?
    ensures Later(w, CreatePacket(digest, w, read, snapshot, answers).value)
    ensures StepsFrom(w, read, CreatePacket(digest, w, read, snapshot, answers).value)
  {
    var target := if UnresolvedQuestionKeys(answers) != [] then NeedsInput else ReadyForReview;
    MoveIsLater(w, w.(packets := w.packets + [NewPacket(digest, snapshot, answers)]), read,
      if read.status.Preparing? then [target] else [Preparing, target],
      EventInput(PacketCreated, User, About(|w.packets|)), NO_COLUMNS.(currentPacket := Some(|w.packets|)));
  }

  lemma CreateSessionIsLater(
    w: World, read: Row, p: nat, packet: Packet, device: nat, declared: seq<string>,
    quotedHash: string, tabOrigin: string, live: Live, now: Time)
    requires CreateSession(w, read, p, packet, device, declared, quotedHash, tabOrigin, live, now).Some?
    ensures Later(w, CreateSession(w, read, p, packet, device, declared, quotedHash, tabOrigin, live, now).value)
    ensures StepsFrom(w, read, CreateSession(w, read, p, packet, device, declared, quotedHash, tabOrigin, live, now).value)
  {
    var added := Session(device, p, packet.contentHash, tabOrigin, now + FILL_SESSION_TTL, None);
    MoveIsLater(w, w.(sessions := EndExpired(w.sessions, now) + [added]), read, [Filling],
      EventInput(FillRequested, User, About(p)), NO_COLUMNS);
  }

  lemma ReportSessionIsLater(
    w: World, read: Row, s: nat, held: Session, pageOrigin: Option<string>, outcome: FillOutcome, now: Time)
    requires s < |w.sessions| && ReportSession(w, read, s, held, pageOrigin, outcome, now).Some?
    ensures Later(w, ReportSession(w, read, s, held, pageOrigin, outcome, now).value)
    ensures StepsFrom(w, read, ReportSession(w, read, s, held, pageOrigin, outcome, now).value)
  {
  }

  lemma RunnerResultIsLater(
    digest: Material -> string, w: World, first: Row, read: Row, p: nat, outcome: FillOutcome,
    discovered: seq<Discovered>, fingerprint: Option<string>)
    requires p < |w.packets| && RunnerResult(digest, w, first, read, p, outcome, discovered, fingerprint).Some?
    ensures Later(w, RunnerResult(digest, w, first, read, p, outcome, discovered, fingerprint).value)
    ensures StepsFrom(w, read, RunnerResult(digest, w, first, read, p, outcome, discovered, fingerprint).value)
  {
  }

  lemma ApplyObservationIsLater(w: World, read: Row, p: nat, o: Observation)
    requires ApplyObservation(w, read, p, o).Some?
    ensures Later(w, ApplyObservation(w, read, p, o).value)
    ensures StepsFrom(w, read, ApplyObservation(w, read, p, o).value)
  {
  }

  lemma RecordOutcomeIsLater(
    w: World, read: Row, outcome: Outcome, kind: EvidenceKind, report: Option<Report>, now: Time)
    requires RecordOutcome(w, read, outcome, kind, report, now).Some?
    ensures Later(w, RecordOutcome(w, read, outcome, kind, report, now).value)
    ensures StepsFrom(w, read, RecordOutcome(w, read, outcome, kind, report, now).value)
  {
  }

  lemma ApproveIsLater(
    w: World, read: Row, p: nat, packet: Packet, quotedHash: string, live: Live, now: Time, approvedAt: Time, ttl: int)
    requires p < |w.packets| && Approve(w, read, p, packet, quotedHash, live, now, approvedAt, ttl).Some?
    ensures Later(w, Approve(w, read, p, packet, quotedHash, live, now, approvedAt, ttl).value)
    ensures StepsFrom(w, read, Approve(w, read, p, packet, quotedHash, live, now, approvedAt, ttl).value)
  {
  }

  lemma ReconcileIsLater(w: World, read: Row, p: nat, packet: Packet, live: Live, now: Time)
    requires p < |w.packets| && Reconcile(w, read, p, packet, live, now).Some?
    ensures Later(w, Reconcile(w, read, p, packet, live, now).value)
    ensures StepsFrom(w, read, Reconcile(w, read, p, packet, live, now).value)
  {
  }

  /** The row a step's transition checks and compares; the last one where the step locks it. */
  ghost function RowUsed(run: seq<World>, step: Step): Row
    requires run != []
  {
    var last := |run| - 1;
    var index := match step
      case DoCreatePacket(row, _, _) => row
      case DoApprove(row, _, _, _, _, _, _) => row
      case DoReconcile(row, _, _, _) => row
      case DoRequestFill(row, _, _, _) => row
      case DoCreateSession(_, row, _, _, _, _, _, _, _) => row
      case DoReportSession(_, row, _, _, _, _) => row
      case DoRunnerResult(_, row, _, _, _, _) => row
      case DoRunnerFailure(row, _) => row
      case DoRunnerObservation(row, _, _) => row
      case DoRequestObservation(row) => row
      case DoRecordOutcome(row, _, _, _, _) => row
      case _ => last;
    run[if index < |run| then index else last].row
  }

  /** What a step promises about the worlds before and after it. */
  ghost predicate Follows(digest: Material -> string, run: seq<World>, step: Step)
    requires run != [] && Commit(digest, run, step).Some?
  {
    && Later(run[|run| - 1], Commit(digest, run, step).value)
    && StepsFrom(run[|run| - 1], RowUsed(run, step), Commit(digest, run, step).value)
  }

  predicate WritesPackets(step: Step) {
    step.DoCreatePacket? || step.DoApprove? || step.DoReconcile? || step.DoRunnerResult?
  }

  predicate StartsOrEndsFill(step: Step) {
    step.DoRequestFill? || step.DoCreateSession? || step.DoReportSession? || step.DoRunnerFailure?
  }

  predicate Settles(step: Step) {
    step.DoObserveFromSession? || step.DoRunnerObservation? || step.DoRequestObservation? || step.DoRecordOutcome?
  }

  lemma PacketStepFollows(digest: Material -> string, run: seq<World>, step: Step)
    requires run != [] && Commit(digest, run, step).Some? && WritesPackets(step)
    ensures Follows(digest, run, step)
  {
    var w := run[|run| - 1];
    match step
    case DoCreatePacket(row, snapshot, answers) =>
      CreatePacketIsLater(digest, w, run[row].row, snapshot, answers);
    case DoApprove(row, packet, quotedHash, live, now, approvedAt, ttl) =>
      var p := run[row].row.currentPacket.value;
      ApproveIsLater(w, run[row].row, p, run[packet].packets[p], quotedHash, live, now, approvedAt, ttl);
    case DoReconcile(row, packet, live, now) =>
      var p := run[row].row.currentPacket.value;
      ReconcileIsLater(w, run[row].row, p, run[packet].packets[p], live, now);
    case DoRunnerResult(first, row, p, outcome, discovered, fingerprint) =>
      RunnerResultIsLater(digest, w, run[first].row, run[row].row, p, outcome, discovered, fingerprint);
    case _ =>
  }

  lemma FillStepFollows(digest: Material -> string, run: seq<World>, step: Step)
    requires run != [] && Commit(digest, run, step).Some? && StartsOrEndsFill(step)
    ensures Follows(digest, run, step)
  {
    var w, w' := run[|run| - 1], Commit(digest, run, step).value;
    match step
    case DoRequestFill(row, packet, live, now) =>
      MoveIsLater(w, w, run[row].row, [Filling],
        EventInput(FillRequested, User, About(run[row].row.currentPacket.value)), NO_COLUMNS);
    case DoCreateSession(auth, row, packet, device, declared, quotedHash, tabOrigin, live, now) =>
      var p := run[row].row.currentPacket.value;
      CreateSessionIsLater(w, run[row].row, p, run[packet].packets[p], device, declared, quotedHash, tabOrigin, live, now);
    case DoReportSession(auth, row, session, pageOrigin, outcome, now) =>
      ReportSessionIsLater(w, run[row].row, session, run[auth].sessions[session], pageOrigin, outcome, now);
    case DoRunnerFailure(row, p) =>
      if run[row].row.status.Filling? {
        MoveIsLater(w, w, run[row].row, [Failed], EventInput(FillFailed, Runner, About(p)), NO_COLUMNS);
      } else {
        AsideIsLater(w, w');
      }
    case _ =>
  }

  lemma OutcomeStepFollows(digest: Material -> string, run: seq<World>, step: Step)
    requires run != [] && Commit(digest, run, step).Some? && Settles(step)
    ensures Follows(digest, run, step)
  {
    var w := run[|run| - 1];
    match step
    case DoObserveFromSession(auth, session, declared, seenOrigin, observation) =>
      ApplyObservationIsLater(w, w.row, run[auth].sessions[session].packet, observation);
    case DoRunnerObservation(row, p, observation) => ApplyObservationIsLater(w, run[row].row, p, observation);
    case DoRequestObservation(row) =>
      MoveIsLater(w, w, run[row].row, [AwaitingUserSubmit],
        EventInput(Note, User, About(run[row].row.currentPacket.value)), NO_COLUMNS);
    case DoRecordOutcome(row, told, kind, report, now) =>
      RecordOutcomeIsLater(w, run[row].row, told, kind, report, now);
    case _ =>
  }

  /** Whatever was read, a committed step leaves a later world, by one move or none. */
  lemma CommitFollows(digest: Material -> string, run: seq<World>, step: Step)
    requires run != [] && Commit(digest, run, step).Some?
    ensures Follows(digest, run, step)
  {
    if WritesPackets(step) {
      PacketStepFollows(digest, run, step);
    } else if StartsOrEndsFill(step) {
      FillStepFollows(digest, run, step);
    } else if Settles(step) {
      OutcomeStepFollows(digest, run, step);
    } else {
      AsideIsLater(run[|run| - 1], Commit(digest, run, step).value);
    }
  }

  lemma IsRunPrefix(digest: Material -> string, run: seq<World>, steps: seq<Step>, n: nat)
    requires IsRun(digest, run, steps) && n <= |steps|
    ensures IsRun(digest, run[..n + 1], steps[..n])
  {
    forall k | 0 <= k < n
      ensures Commit(digest, run[..n + 1][..k + 1], steps[..n][k]) == Some(run[..n + 1][k + 1])
    {
      assert run[..n + 1][..k + 1] == run[..k + 1];
    }
  }

  lemma {:induction false} RunIsLater(digest: Material -> string, run: seq<World>, steps: seq<Step>, i: nat, j: nat)
    requires IsRun(digest, run, steps) && i <= j <= |steps|
    ensures Later(run[i], run[j])
    decreases j - i
  {
    if i < j {
      RunIsLater(digest, run, steps, i, j - 1);
      CommitFollows(digest, run[..j], steps[j - 1]);
      assert Commit(digest, run[..j], steps[j - 1]) == Some(run[j]) && run[..j][j - 1] == run[j - 1];
      LaterIsTransitive(run[i], run[j - 1], run[j]);
    }
  }

  /** Every world of the run is a past of its last. */
  ghost predicate Recorded(run: seq<World>) {
    run != [] && forall i, j :: 0 <= i <= j < |run| ==> Later(run[i], run[j])
  }

  lemma RunIsRecorded(digest: Material -> string, run: seq<World>, steps: seq<Step>)
    requires IsRun(digest, run, steps)
    ensures Recorded(run)
  {
    forall i, j | 0 <= i <= j < |run|
      ensures Later(run[i], run[j])
    {
      RunIsLater(digest, run, steps, i, j);
    }
  }

  /** A row whose revision still stands was read fresh, and so was any packet read after it. */
  lemma ReadIsCurrent(run: seq<World>, row: nat, packet: nat)
    requires Recorded(run) && row <= packet < |run|
    requires run[row].row.revision == run[|run| - 1].row.revision
    ensures run[row].row == run[|run| - 1].row
    ensures run[packet].packets == run[|run| - 1].packets
  {
  }
}

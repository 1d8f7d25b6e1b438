/**
  What each handler commits, given what it read. A handler reads the application row, later
  reads the packet and the live world, checks, and then writes in one transaction that goes
  through `transitionApplication`; the reads may be old by the time the transaction runs
  (apps/api/src/routes/applications.ts, fill.ts, observe.ts, fill-sessions.ts, devices.ts and
  apps/api/src/applications/service.ts, fillable.ts, fill.ts, observe.ts).
*/
module ApplicationCommits {
  import opened Common
  import opened Ordering
  import opened InsertionMap
  import opened FillPlan
  import opened Packets
  import opened ApplicationMachine

  // ---------------------------------------------------------------------------
  // Freshness and approval
  // ---------------------------------------------------------------------------

  const PACKET_APPROVAL_MAX_TTL_HOURS: int := 24
  const FILL_SESSION_TTL: Time := 600 * 1000

  /** The world as a handler finds it: what a packet's snapshot is compared against. */
  datatype Live = Live(profileRevision: nat, jobRevision: nat, resumeSha: Option<string>, url: string, origin: string)

  datatype Staleness = ProfileRevisionChanged | JobRevisionChanged | ResumeChanged | DestinationChanged | ApprovalRanOut

  function PacketStaleness(packet: Packet, live: Live, now: Time): seq<Staleness> {
    (if live.profileRevision != packet.snapshot.profileRevision then [ProfileRevisionChanged] else [])
    + (if live.jobRevision != packet.snapshot.jobRevision then [JobRevisionChanged] else [])
    + (if live.resumeSha != packet.snapshot.resumeSha then [ResumeChanged] else [])
    + (if live.url != packet.snapshot.destination.url || live.origin != packet.snapshot.destination.origin
       then [DestinationChanged] else [])
    + (if packet.approval.Some? && packet.approval.value.expires <= now then [ApprovalRanOut] else [])
  }

  /** The snapshot still describes the live world. */
  ghost predicate Describes(s: Snapshot, live: Live) {
    && s.profileRevision == live.profileRevision
    && s.jobRevision == live.jobRevision
    && s.resumeSha == live.resumeSha
    && s.destination.url == live.url
    && s.destination.origin == live.origin
  }

  /** Nothing is stale exactly when the snapshot describes the live world and no approval has run out. */
  lemma FreshMeansDescribed(packet: Packet, live: Live, now: Time)
    ensures PacketStaleness(packet, live, now) == []
       <==> Describes(packet.snapshot, live) && (packet.approval.Some? ==> now < packet.approval.value.expires)
    ensures PacketStaleness(packet, live, now) == [ApprovalRanOut]
       <==> Describes(packet.snapshot, live) && packet.approval.Some? && packet.approval.value.expires <= now
  {
    var s := PacketStaleness(packet, live, now);
    if Describes(packet.snapshot, live) {
      assert s == if packet.approval.Some? && packet.approval.value.expires <= now then [ApprovalRanOut] else [];
    } else {
      assert s[0] != ApprovalRanOut;
    }
  }

  function ApprovalExpiry(approvedAt: Time, configuredTtlHours: int): Time {
    var atLeast := if configuredTtlHours < 1 then 1 else configuredTtlHours;
    var hours := if PACKET_APPROVAL_MAX_TTL_HOURS < atLeast then PACKET_APPROVAL_MAX_TTL_HOURS else atLeast;
    approvedAt + hours * HOUR
  }

  /** An approval lasts at least an hour and at most a day, and the user's setting in between. */
  lemma ExpiryIsBounded(approvedAt: Time, ttl: int)
    ensures approvedAt + HOUR <= ApprovalExpiry(approvedAt, ttl) <= approvedAt + PACKET_APPROVAL_MAX_TTL_HOURS * HOUR
    ensures 1 <= ttl <= PACKET_APPROVAL_MAX_TTL_HOURS ==> ApprovalExpiry(approvedAt, ttl) == approvedAt + ttl * HOUR
  {
  }

  /** `fillRefusal(...) === null`, for the packet the row names. */
  predicate MayFill(read: Row, packet: Packet, live: Live, now: Time) {
    && read.status.Approved?
    && packet.approval.Some?
    && PacketStaleness(packet, live, now) == []
    && UnresolvedQuestionKeys(packet.answers) == []
  }

  // ---------------------------------------------------------------------------
  // Packets
  // ---------------------------------------------------------------------------

  function NewPacket(digest: Material -> string, snapshot: Snapshot, answers: seq<PacketAnswer>): Packet {
    Packet(snapshot, answers, digest(BuildPacketHashMaterial(snapshot, answers)), None)
  }

  ghost function CreatePacket(
    digest: Material -> string, w: World, read: Row, snapshot: Snapshot, answers: seq<PacketAnswer>): Option<World>
  {
    if AtOrPastSubmission(read.status) || read.status.Cancelled? || !UniqueKeys(answers, AnswerKey) then None
    else
      var target := if UnresolvedQuestionKeys(answers) != [] then NeedsInput else ReadyForReview;
      var w' := w.(packets := w.packets + [NewPacket(digest, snapshot, answers)]);
      Transitioned(w', read, if read.status.Preparing? then [target] else [Preparing, target],
        EventInput(PacketCreated, User, About(|w.packets|)), NO_COLUMNS.(currentPacket := Some(|w.packets|)))
  }

  function WithApproval(w: World, p: nat, approval: Option<Approval>): World
    requires p < |w.packets|
  {
    w.(packets := w.packets[p := w.packets[p].(approval := approval)])
  }

  /** `packet` is the row's packet as the handler read it. */
  function Approve(
    w: World, read: Row, p: nat, packet: Packet, quotedHash: string, live: Live, now: Time, approvedAt: Time, ttl: int)
    : Option<World>
    requires p < |w.packets|
  {
    if packet.contentHash != quotedHash || UnresolvedQuestionKeys(packet.answers) != []
      || PacketStaleness(packet, live, now) != [] || !read.status.ReadyForReview? then None
    else
      var expires := ApprovalExpiry(approvedAt, ttl);
      Transitioned(WithApproval(w, p, Some(Approval(approvedAt, packet.contentHash, expires))), read, [Approved],
        EventInput(PacketApproved, User, Approving(p, packet.contentHash, expires)), NO_COLUMNS)
  }

  function Reconcile(w: World, read: Row, p: nat, packet: Packet, live: Live, now: Time): Option<World>
    requires p < |w.packets|
  {
    var stale := PacketStaleness(packet, live, now);
    if packet.approval.None? || stale == [] || !read.status.Approved? then None
    else
      var expiredOnly := stale == [ApprovalRanOut];
      Transitioned(WithApproval(w, p, None), read, [if expiredOnly then ReadyForReview else Preparing],
        EventInput(if expiredOnly then ApprovalExpired else ApprovalInvalidated, System, About(p)), NO_COLUMNS)
  }

  // ---------------------------------------------------------------------------
  // Filling
  // ---------------------------------------------------------------------------

  /** `POST /applications/:id/fill`, once a paired runner for this origin was found. */
  function RequestFill(w: World, read: Row, p: nat, packet: Packet, live: Live, now: Time): Option<World> {
    if !MayFill(read, packet, live, now) then None
    else Transitioned(w, read, [Filling], EventInput(FillRequested, User, About(p)), NO_COLUMNS)
  }

  function EndedIf(s: Session, when: bool, at: Time, reason: EndReason): Session {
    if when && s.ended.None? then s.(ended := Some(Ending(at, reason))) else s
  }

  /** Sessions whose time has run out are ended before a new one is inserted. */
  function EndExpired(sessions: seq<Session>, now: Time): (r: seq<Session>)
    ensures |r| == |sessions|
    ensures forall i :: 0 <= i < |r| ==> r[i] == EndedIf(sessions[i], sessions[i].expires <= now, now, Superseded)
  {
    seq(|sessions|, i requires 0 <= i < |sessions| =>
      EndedIf(sessions[i], sessions[i].expires <= now, now, Superseded))
  }

  function EndOfDevice(sessions: seq<Session>, device: nat, now: Time): (r: seq<Session>)
    ensures |r| == |sessions|
    ensures forall i :: 0 <= i < |r| ==> r[i] == EndedIf(sessions[i], sessions[i].device == device, now, DeviceRevoked)
  {
    seq(|sessions|, i requires 0 <= i < |sessions| =>
      EndedIf(sessions[i], sessions[i].device == device, now, DeviceRevoked))
  }

  predicate AllEnded(sessions: seq<Session>) {
    forall i :: 0 <= i < |sessions| ==> sessions[i].ended.Some?
  }

  predicate Permits(declared: seq<string>, origin: string) {
    declared == [] || origin in declared
  }

  function CreateSession(
    w: World, read: Row, p: nat, packet: Packet, device: nat, declared: seq<string>,
    quotedHash: string, tabOrigin: string, live: Live, now: Time): Option<World>
  {
    var sessions := EndExpired(w.sessions, now);
    if !MayFill(read, packet, live, now) || quotedHash != packet.contentHash
      || tabOrigin != packet.snapshot.destination.origin || !Permits(declared, tabOrigin)
      || !AllEnded(sessions) then None
    else
      Transitioned(
        w.(sessions := sessions + [Session(device, p, packet.contentHash, tabOrigin, now + FILL_SESSION_TTL, None)]),
        read, [Filling], EventInput(FillRequested, User, About(p)), NO_COLUMNS)
  }

  datatype FillOutcome = AwaitingSubmit | QuestionsLeft | NoAdapter

  function FillStatus(outcome: FillOutcome): Status {
    match outcome
    case AwaitingSubmit => AwaitingUserSubmit
    case QuestionsLeft => NeedsInput
    case NoAdapter => Approved
  }

  predicate Active(s: Session, now: Time) {
    s.ended.None? && now < s.expires
  }

  function EndSession(w: World, s: nat, at: Time, reason: EndReason): World
    requires s < |w.sessions|
  {
    w.(sessions := w.sessions[s := w.sessions[s].(ended := Some(Ending(at, reason)))])
  }

  /** `held` is the session as the handler first read it, `read` the row inside the transaction. */
  function ReportSession(
    w: World, read: Row, s: nat, held: Session, pageOrigin: Option<string>, outcome: FillOutcome, now: Time): Option<World>
    requires s < |w.sessions|
  {
    if !Active(held, now) || (pageOrigin.Some? && pageOrigin.value != held.origin) || w.sessions[s].ended.Some? then None
    else
      Transitioned(EndSession(w, s, now, Reported), read, [FillStatus(outcome)],
        EventInput(FillPaused, Runner, About(held.packet)), NO_COLUMNS)
  }

  /**
    A runner's result for the packet it was given. `first` is the row `writeDiscoveredPacket`
    decided on, `read` the row re-read before the transition. Inserting a packet revision that
    exists breaks the unique index and the transaction with it.
  */
  ghost function RunnerResult(
    digest: Material -> string, w: World, first: Row, read: Row, p: nat, outcome: FillOutcome,
    discovered: seq<Discovered>, fingerprint: Option<string>): Option<World>
    requires p < |w.packets|
  {
    var previous := w.packets[p];
    var answers := Merged(Collapsed(previous.answers, AnswerKey), discovered);
    if outcome.QuestionsLeft? && first.currentPacket == Some(p) && UnresolvedQuestionKeys(answers) != [] then
      if p + 1 < |w.packets| then None
      else
        var revised := NewPacket(digest, previous.snapshot.(formFingerprint := fingerprint), answers);
        var withdrawn := WithApproval(w, p, None);
        Transitioned(withdrawn.(packets := withdrawn.packets + [revised]), read, [NeedsInput],
          EventInput(FillPaused, Runner, About(p + 1)), NO_COLUMNS.(currentPacket := Some(p + 1)))
    else
      Transitioned(w, read, [FillStatus(outcome)], EventInput(FillPaused, Runner, About(p)), NO_COLUMNS)
  }

  function RunnerFailure(w: World, read: Row, p: nat): Option<World> {
    var ev := EventInput(FillFailed, Runner, About(p));
    if read.status.Filling? then Transitioned(w, read, [Failed], ev, NO_COLUMNS) else Some(Noted(w, ev))
  }

  /**
    The form's fingerprint is part of what an approval's hash covers, and nothing that decides
    about an approval looks at it: a packet with another one is just as stale, just as fillable,
    and withdrawn exactly when it would have been; a report that revises no packet leaves every
    packet alone, whatever form it saw.
  */
  lemma FingerprintWithdrawsNothing(
    digest: Material -> string, w: World, first: Row, read: Row, p: nat, outcome: FillOutcome,
    discovered: seq<Discovered>, seen: Option<string>, live: Live, now: Time)
    requires p < |w.packets|
    ensures var packet := w.packets[p];
            var other := packet.(snapshot := packet.snapshot.(formFingerprint := seen));
            && PacketStaleness(other, live, now) == PacketStaleness(packet, live, now)
            && (MayFill(read, other, live, now) <==> MayFill(read, packet, live, now))
            && Reconcile(w, read, p, other, live, now) == Reconcile(w, read, p, packet, live, now)
    ensures var after := RunnerResult(digest, w, first, read, p, outcome, discovered, seen);
            !outcome.QuestionsLeft? && after.Some? ==> after.value.packets == w.packets
    ensures Injective(digest) && UniqueKeys(w.packets[p].answers, AnswerKey) && seen != w.packets[p].snapshot.formFingerprint ==>
              NewPacket(digest, w.packets[p].snapshot.(formFingerprint := seen), w.packets[p].answers).contentHash
              != NewPacket(digest, w.packets[p].snapshot, w.packets[p].answers).contentHash
  {
    var s := w.packets[p].snapshot;
    if UniqueKeys(w.packets[p].answers, AnswerKey) && Injective(digest) {
      HashBindsContent(digest, s.(formFingerprint := seen), w.packets[p].answers, s, w.packets[p].answers);
    }
  }

  // ---------------------------------------------------------------------------
  // Outcomes and observations
  // ---------------------------------------------------------------------------

  datatype Confirmation = Confirmation(observedAt: Time, detail: string)

  datatype Observation = Observation(observed: bool, confirmation: Option<Confirmation>, reason: Option<string>)

  /** `observationResultIsCoherent` */
  predicate Coherent(o: Observation) {
    if o.observed then o.confirmation.Some? && o.reason.None? else o.confirmation.None? && o.reason.Some?
  }

  /** `applyObservation`, and `applyObserveConfirmationFailure` when nothing was observed. */
  function ApplyObservation(w: World, read: Row, p: nat, o: Observation): Option<World> {
    if !read.status.AwaitingUserSubmit? then
      Some(Noted(w, EventInput(Note, Runner, About(p))))
    else if !(Coherent(o) && o.observed) then
      Transitioned(w, read, [OutcomeUnknown], EventInput(OutcomeRecorded, Runner, About(p)), NO_COLUMNS)
    else
      var seen := o.confirmation.value;
      Transitioned(w, read, [Submitted], EventInput(SubmissionRecorded, Runner, About(p)),
        NO_COLUMNS.(submittedAt := Some(Some(seen.observedAt)),
                    evidence := Some(Some(Evidence(AdapterObserved, Some(seen.observedAt), seen.detail)))))
  }

  /** One look by the browser that reported the fill, at the row it holds the lock on. */
  function ObserveFromSession(
    w: World, session: Session, packet: Packet, declared: seq<string>, pageOrigin: string, o: Observation): Option<World>
  {
    if !(session.ended.Some? && session.ended.value.reason == Reported) || !Coherent(o)
      || !w.row.status.AwaitingUserSubmit? || w.row.currentPacket != Some(session.packet)
      || !Permits(declared, packet.snapshot.destination.origin) || pageOrigin != packet.snapshot.destination.origin
    then None
    else ApplyObservation(w, w.row, session.packet, o)
  }

  /** `POST /applications/:id/observe` records the request and stays where it is. */
  function RequestObservation(w: World, read: Row, p: nat): Option<World> {
    if !read.status.AwaitingUserSubmit? then None
    else Transitioned(w, read, [AwaitingUserSubmit], EventInput(Note, User, About(p)), NO_COLUMNS)
  }

  datatype Outcome =
    | WasSubmitted | WasNotSubmitted | IsUnknown | GotInterview | WasRejected | GotOffer | HasWithdrawn | WasCancelled

  /** `APPLICATION_OUTCOME_STATUS` */
  function OutcomeStatus(outcome: Outcome): Status {
    match outcome
    case WasSubmitted => Submitted
    case WasNotSubmitted => Preparing
    case IsUnknown => OutcomeUnknown
    case GotInterview => Interview
    case WasRejected => Rejected
    case GotOffer => Offer
    case HasWithdrawn => Withdrawn
    case WasCancelled => Cancelled
  }

  /** What the person says about the submission. */
  datatype Report = Report(observedAt: Option<Time>, detail: string)

  function RecordOutcome(
    w: World, read: Row, outcome: Outcome, kind: EvidenceKind, report: Option<Report>, now: Time): Option<World>
  {
    if kind.AdapterObserved? || (outcome.WasSubmitted? && kind.NoEvidence?) then None
    else
      var target := OutcomeStatus(outcome);
      var observedAt := if report.Some? then report.value.observedAt else None;
      var evidence :=
        if kind.NoEvidence? && report.None? then None
        else Some(Evidence(kind, observedAt, if report.Some? then report.value.detail else ""));
      var submittedAt :=
        if outcome.WasSubmitted? then Some(if observedAt.Some? then observedAt.value else now) else read.submittedAt;
      var keeps := !outcome.WasNotSubmitted? && AtOrPastSubmission(target);
      var eventKind :=
        if outcome.WasCancelled? then CancellationRecorded
        else if outcome.WasSubmitted? then SubmissionRecorded else OutcomeRecorded;
      Transitioned(w, read, [target], EventInput(eventKind, User, Nothing),
        NO_COLUMNS.(submittedAt := Some(if keeps then submittedAt else None),
                    evidence := Some(if keeps then evidence else None)))
  }

  function RevokeDevice(w: World, device: nat, now: Time): World {
    w.(revoked := w.revoked + {device}, sessions := EndOfDevice(w.sessions, device, now))
  }
}

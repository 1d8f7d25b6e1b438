/**
  One application's rows and the two ways they are written: a status moves through
  `transitionApplication`, which checks the machine and compares the revision it read, and
  the history grows through `appendApplicationEvent`
  (packages/contracts/src/schemas/applications.ts, apps/api/src/applications/service.ts).
*/
module ApplicationMachine {
  import opened Common
  import opened FillPlan
  import opened Packets

  datatype Status =
    | Draft | Preparing | NeedsInput | ReadyForReview | Approved | Filling | AwaitingUserSubmit
    | Submitted | OutcomeUnknown | Failed | Cancelled | Interview | Rejected | Offer | Withdrawn

  /** `APPLICATION_TRANSITIONS` */
  function Transitions(from: Status): set<Status> {
    match from
    case Draft => {Preparing, Submitted, Cancelled}
    case Preparing => {NeedsInput, ReadyForReview, Failed, Cancelled}
    case NeedsInput => {Preparing, Submitted, Cancelled}
    case ReadyForReview => {Approved, Preparing, Cancelled}
    case Approved => {Filling, Preparing, ReadyForReview, Submitted, Cancelled}
    case Filling => {AwaitingUserSubmit, NeedsInput, Approved, Failed, Preparing, Cancelled}
    case AwaitingUserSubmit => {Submitted, OutcomeUnknown, Failed, Cancelled}
    case Submitted => {Interview, Rejected, Offer, Withdrawn, OutcomeUnknown}
    case OutcomeUnknown => {Submitted, Preparing}
    case Failed => {Preparing, Cancelled}
    case Interview => {Rejected, Offer, Withdrawn}
    case Cancelled => {}
    case Rejected => {}
    case Offer => {}
    case Withdrawn => {}
  }

  predicate Allowed(from: Status, to: Status) {
    from == to || to in Transitions(from)
  }

  /** The same machine, read backwards: from which statuses each may be entered. */
  ghost predicate EntersFrom(from: Status, to: Status) {
    match to
    case Draft => false
    case Preparing => from in {Draft, NeedsInput, ReadyForReview, Approved, Filling, OutcomeUnknown, Failed}
    case NeedsInput => from in {Preparing, Filling}
    case ReadyForReview => from in {Preparing, Approved}
    case Approved => from in {ReadyForReview, Filling}
    case Filling => from == Status.Approved
    case AwaitingUserSubmit => from == Status.Filling
    case Submitted => from in {Draft, NeedsInput, Approved, AwaitingUserSubmit, OutcomeUnknown}
    case OutcomeUnknown => from in {AwaitingUserSubmit, Submitted}
    case Failed => from in {Preparing, Filling, AwaitingUserSubmit}
    case Cancelled => from in {Draft, Preparing, NeedsInput, ReadyForReview, Approved, Filling, AwaitingUserSubmit, Failed}
    case Interview => from == Submitted
    case Rejected => from in {Submitted, Interview}
    case Offer => from in {Submitted, Interview}
    case Withdrawn => from in {Submitted, Interview}
  }

  /** A move stays where it is or enters the next status from one that leads there. */
  lemma AllowedIff(from: Status, to: Status)
    ensures Allowed(from, to) <==> from == to || EntersFrom(from, to)
  {
  }

  /** `SUBMITTED_APPLICATION_STATUSES` */
  predicate AtOrPastSubmission(s: Status) {
    s in {Submitted, OutcomeUnknown, Interview, Rejected, Offer, Withdrawn}
  }

  predicate PathAllowed(from: Status, path: seq<Status>)
    decreases |path|
  {
    path == [] || (Allowed(from, path[0]) && PathAllowed(path[0], path[1..]))
  }

  datatype EvidenceKind = AdapterObserved | UserReport | NoEvidence

  /** How a submission is known: the kind, when it was seen, and the words about it. */
  datatype Evidence = Evidence(kind: EvidenceKind, observedAt: Option<Time>, detail: string)

  datatype Row = Row(
    status: Status, revision: nat, currentPacket: Option<nat>, submittedAt: Option<Time>, evidence: Option<Evidence>)

  datatype Approval = Approval(at: Time, hash: string, expires: Time)

  /** A packet; its identity is its position among the application's packets, in revision order. */
  datatype Packet = Packet(snapshot: Snapshot, answers: seq<PacketAnswer>, contentHash: string, approval: Option<Approval>)

  datatype Actor = User | System | Runner

  datatype EventKind =
    | Created | PacketCreated | PacketApproved | ApprovalInvalidated | ApprovalExpired | FillRequested
    | FillPaused | FillFailed | SubmissionRecorded | OutcomeRecorded | CancellationRecorded | Note

  datatype EventData = Nothing | About(packet: nat) | Approving(packet: nat, hash: string, expires: Time)

  datatype EventInput = EventInput(kind: EventKind, actor: Actor, data: EventData)

  datatype Event = Event(
    sequence: nat, kind: EventKind, actor: Actor, before: Option<Status>, after: Option<Status>,
    data: EventData, path: seq<Status>)

  datatype EndReason = Reported | CancelledByDevice | Superseded | DeviceRevoked

  datatype Ending = Ending(at: Time, reason: EndReason)

  datatype Session = Session(
    device: nat, packet: nat, contentHash: string, origin: string, expires: Time, ended: Option<Ending>)

  /** One application with its packets, history and fill sessions, and the devices revoked so far. */
  datatype World = World(
    row: Row, packets: seq<Packet>, events: seq<Event>, sessions: seq<Session>, revoked: set<nat>)

  // ---------------------------------------------------------------------------
  // Events and transitions
  // ---------------------------------------------------------------------------

  /** `coalesce(max(sequence), 0)` */
  function MaxSequence(events: seq<Event>): nat {
    if events == [] then 0
    else
      var before, last := MaxSequence(events[..|events| - 1]), events[|events| - 1].sequence;
      if before < last then last else before
  }

  function Appended(
    events: seq<Event>, ev: EventInput, before: Option<Status>, after: Option<Status>, path: seq<Status>): seq<Event>
  {
    events + [Event(MaxSequence(events) + 1, ev.kind, ev.actor, before, after, ev.data, path)]
  }

  /** The optional columns of a transition; `None` leaves the column alone. */
  datatype Columns = Columns(
    submittedAt: Option<Option<Time>>, evidence: Option<Option<Evidence>>, currentPacket: Option<nat>)

  const NO_COLUMNS: Columns := Columns(None, None, None)

  function Written<T>(column: Option<T>, stored: T): T {
    if column.Some? then column.value else stored
  }

  function PathEnd(from: Status, path: seq<Status>): Status {
    if path == [] then from else path[|path| - 1]
  }

  /** The row and history after moving `read` along `path`, or nothing when refused. */
  function Transitioned(w: World, read: Row, path: seq<Status>, ev: EventInput, columns: Columns): Option<World> {
    if !PathAllowed(read.status, path) || w.row.revision != read.revision then None
    else
      var to := PathEnd(read.status, path);
      Some(w.(
        row := Row(
          to,
          read.revision + 1,
          if columns.currentPacket.Some? then columns.currentPacket else w.row.currentPacket,
          Written(columns.submittedAt, w.row.submittedAt),
          Written(columns.evidence, w.row.evidence)),
        events := Appended(w.events, ev, Some(read.status), Some(to), if |path| > 1 then [read.status] + path else [])))
  }

  /** Where the `i`-th hop of a path starts. */
  ghost function HopStart(from: Status, path: seq<Status>, i: nat): Status
    requires i < |path|
  {
    if i == 0 then from else path[i - 1]
  }

  ghost predicate HopsLead(from: Status, path: seq<Status>) {
    forall i :: 0 <= i < |path| ==> HopStart(from, path, i) == path[i] || EntersFrom(HopStart(from, path, i), path[i])
  }

  lemma {:induction false} PathAllowedIff(from: Status, path: seq<Status>)
    ensures PathAllowed(from, path) <==> HopsLead(from, path)
    decreases |path|
  {
    if path != [] {
      AllowedIff(from, path[0]);
      PathAllowedIff(path[0], path[1..]);
      if HopsLead(from, path) {
        forall i | 0 <= i < |path[1..]|
          ensures HopStart(path[0], path[1..], i) == path[1..][i] || EntersFrom(HopStart(path[0], path[1..], i), path[1..][i])
        {
          assert HopStart(path[0], path[1..], i) == HopStart(from, path, i + 1) && path[1..][i] == path[i + 1];
        }
      }
      if HopsLead(path[0], path[1..]) && (from == path[0] || EntersFrom(from, path[0])) {
        forall i | 0 <= i < |path|
          ensures HopStart(from, path, i) == path[i] || EntersFrom(HopStart(from, path, i), path[i])
        {
          assert i > 0 ==> HopStart(path[0], path[1..], i - 1) == HopStart(from, path, i) && path[1..][i - 1] == path[i];
        }
      }
    }
  }

  /** One event more, numbered past every other, that says who moved the application, why, and by which way. */
  ghost predicate RecordsMove(before: seq<Event>, after: seq<Event>, ev: EventInput, from: Status, path: seq<Status>) {
    && |after| == |before| + 1 && before <= after
    && var e := after[|before|];
       && e.kind == ev.kind && e.actor == ev.actor && e.data == ev.data
       && e.before == Some(from) && e.after == Some(if path == [] then from else path[|path| - 1])
       && e.path == (if |path| > 1 then [from] + path else [])
       && NextAfter(before, e.sequence)
  }

  /** The number after the highest sequence there is, or one. */
  ghost predicate NextAfter(events: seq<Event>, n: nat) {
    && (forall e :: e in events ==> e.sequence < n)
    && (n == 1 || exists e :: e in events && e.sequence + 1 == n)
  }

  lemma {:induction false} MaxIsNext(events: seq<Event>)
    ensures NextAfter(events, MaxSequence(events) + 1)
  {
    if events != [] {
      var n := |events| - 1;
      MaxIsNext(events[..n]);
      assert events == events[..n] + [events[n]];
      if MaxSequence(events[..n]) < events[n].sequence {
        assert events[n] in events;
      } else if MaxSequence(events[..n]) > 0 {
        var e :| e in events[..n] && e.sequence + 1 == MaxSequence(events[..n]) + 1;
        assert e in events;
      }
    }
  }

  /** What a transition makes of the row: the status the path ends in, one revision more, the columns it was given. */
  ghost predicate MovesRow(before: Row, after: Row, to: Status, columns: Columns) {
    && after.status == to && after.revision == before.revision + 1
    && after.currentPacket == (if columns.currentPacket.Some? then columns.currentPacket else before.currentPacket)
    && after.submittedAt == (if columns.submittedAt.Some? then columns.submittedAt.value else before.submittedAt)
    && after.evidence == (if columns.evidence.Some? then columns.evidence.value else before.evidence)
  }

  /** A transition commits exactly when the revision read still stands and every hop leads on, and then this is what it does. */
  lemma TransitionIs(w: World, read: Row, path: seq<Status>, ev: EventInput, columns: Columns)
    ensures var moved := Transitioned(w, read, path, ev, columns);
            && (moved.Some? <==> w.row.revision == read.revision && HopsLead(read.status, path))
            && (moved.Some? ==>
                  var to := if path == [] then read.status else path[|path| - 1];
                  && MovesRow(w.row, moved.value.row, to, columns)
                  && RecordsMove(w.events, moved.value.events, ev, read.status, path)
                  && moved.value.packets == w.packets && moved.value.sessions == w.sessions
                  && moved.value.revoked == w.revoked)
  {
    PathAllowedIff(read.status, path);
    MaxIsNext(w.events);
  }

  /** An event that records something without moving the application. */
  function Noted(w: World, ev: EventInput): World {
    w.(events := Appended(w.events, ev, None, None, []))
  }

  /** A note adds one event, numbered past all others, that moves nothing. */
  lemma NotedIs(w: World, ev: EventInput)
    ensures var w' := Noted(w, ev);
            && |w'.events| == |w.events| + 1 && w.events <= w'.events && w' == w.(events := w'.events)
            && var e := w'.events[|w.events|];
               && e.kind == ev.kind && e.actor == ev.actor && e.data == ev.data
               && e.before.None? && e.after.None? && NextAfter(w.events, e.sequence)
  {
    MaxIsNext(w.events);
  }

  /** `createApplication`: a draft and the event that says so. */
  function NewApplication(revoked: set<nat>): World {
    World(Row(Draft, 1, None, None, None), [],
      Appended([], EventInput(Created, User, Nothing), None, Some(Draft), []), [], revoked)
  }

  // ---------------------------------------------------------------------------
  // The log replays to the row
  // ---------------------------------------------------------------------------

  /** What the status-bearing events say, read in order: a status and how many moves led to it. */
  function Replay(events: seq<Event>): Option<(Status, nat)> {
    if events == [] then None
    else
      var before, last := Replay(events[..|events| - 1]), events[|events| - 1];
      if last.sequence != |events| then None
      else if |events| == 1 then
        (if last.before.None? && last.after.Some? then Some((last.after.value, 1)) else None)
      else if before.None? then None
      else if last.before.None? && last.after.None? then before
      else if last.before == Some(before.value.0) && last.after.Some? then Some((last.after.value, before.value.1 + 1))
      else None
  }

  ghost predicate LogReplays(w: World) {
    Replay(w.events) == Some((w.row.status, w.row.revision))
  }

  lemma {:induction false} SequencesAreDense(events: seq<Event>)
    requires Replay(events).Some?
    ensures MaxSequence(events) == |events|
    ensures forall i :: 0 <= i < |events| ==> events[i].sequence == i + 1
  {
    var n := |events| - 1;
    if n > 0 {
      SequencesAreDense(events[..n]);
      assert forall i :: 0 <= i < n ==> events[i] == events[..n][i];
    } else {
      assert events[..n] == [];
    }
  }

  lemma ReplayAppended(
    events: seq<Event>, ev: EventInput, before: Option<Status>, after: Option<Status>, path: seq<Status>)
    requires Replay(events).Some?
    ensures before.None? && after.None? ==> Replay(Appended(events, ev, before, after, path)) == Replay(events)
    ensures before == Some(Replay(events).value.0) && after.Some? ==>
              Replay(Appended(events, ev, before, after, path)) == Some((after.value, Replay(events).value.1 + 1))
  {
    SequencesAreDense(events);
    var more := Appended(events, ev, before, after, path);
    assert more[..|more| - 1] == events;
    assert |events| > 0;
  }

  lemma TransitionReplays(w: World, read: Row, path: seq<Status>, ev: EventInput, columns: Columns)
    requires LogReplays(w) && w.row == read
    requires Transitioned(w, read, path, ev, columns).Some?
    ensures LogReplays(Transitioned(w, read, path, ev, columns).value)
  {
    ReplayAppended(w.events, ev, Some(read.status), Some(PathEnd(read.status, path)),
      if |path| > 1 then [read.status] + path else []);
  }

  /** The number of events that moved the application. */
  function Moves(events: seq<Event>): nat {
    if events == [] then 0
    else Moves(events[..|events| - 1]) + (if events[|events| - 1].before.Some? then 1 else 0)
  }

  /** Index of the last status-bearing event among the first `n`. */
  ghost predicate LastStatus(events: seq<Event>, n: nat, i: nat) {
    i < n <= |events| && events[i].after.Some? && forall k :: i < k < n ==> events[k].after.None?
  }

  /**
    What replaying means, event by event: sequences run 1 to n, every event that states a
    status states it before and after except the first, which only states `after`, each one
    starts from the status the last one left, the last one left the replayed status, and the
    replayed count is one more than the number of moves.
  */
  lemma {:induction false} ReplayIsAChain(events: seq<Event>)
    requires Replay(events).Some?
    ensures forall i :: 0 <= i < |events| ==> events[i].sequence == i + 1
    ensures events[0].before.None? && events[0].after.Some?
    ensures forall i :: 0 < i < |events| ==> (events[i].before.Some? <==> events[i].after.Some?)
    ensures forall i, j :: 0 <= i < j < |events| && LastStatus(events, j, i) && events[j].before.Some? ==>
              events[j].before == events[i].after
    ensures forall i: nat :: LastStatus(events, |events|, i) ==> events[i].after == Some(Replay(events).value.0)
    ensures Replay(events).value.1 == 1 + Moves(events)
  {
    var n := |events| - 1;
    SequencesAreDense(events);
    var init := events[..n];
    if n > 0 {
      ReplayIsAChain(init);
      assert forall i :: 0 <= i < n ==> events[i] == init[i];
      forall i, j | 0 <= i < j < |events| && LastStatus(events, j, i) && events[j].before.Some?
        ensures events[j].before == events[i].after
      {
        assert LastStatus(init, j, i);
      }
      forall i: nat | LastStatus(events, |events|, i)
        ensures events[i].after == Some(Replay(events).value.0)
      {
        if i < n {
          assert LastStatus(init, n, i);
        }
      }
    } else {
      assert init == [];
    }
  }

  // ---------------------------------------------------------------------------
  // The rows as the service updates them
  // ---------------------------------------------------------------------------

  class ApplicationRows {
    var row: Row
    var packets: seq<Packet>
    var events: seq<Event>
    var sessions: seq<Session>
    var revoked: set<nat>

    ghost function View(): World
      reads this
    {
      World(row, packets, events, sessions, revoked)
    }

    constructor (revoked: set<nat>)
      ensures View() == NewApplication(revoked)
    {
      row := Row(Draft, 1, None, None, None);
      packets, events, sessions := [], Appended([], EventInput(Created, User, Nothing), None, Some(Draft), []), [];
      this.revoked := revoked;
    }

    method NextSequence() returns (next: nat)
      ensures next == MaxSequence(events) + 1
    {
      var max := 0;
      for i := 0 to |events|
        invariant max == MaxSequence(events[..i])
      {
        assert events[..i + 1][..i] == events[..i];
        if max < events[i].sequence {
          max := events[i].sequence;
        }
      }
      assert events[..|events|] == events;
      next := max + 1;
    }

    method AppendApplicationEvent(ev: EventInput, before: Option<Status>, after: Option<Status>, path: seq<Status>)
      modifies this`events
      ensures events == Appended(old(events), ev, before, after, path)
      ensures |events| == |old(events)| + 1 && old(events) <= events && NextAfter(old(events), events[|old(events)|].sequence)
    {
      MaxIsNext(events);
      var next := NextSequence();
      events := events + [Event(next, ev.kind, ev.actor, before, after, ev.data, path)];
    }

    /** Refusing, for the machine's reasons or because the revision moved, writes nothing. */
    method TransitionApplication(read: Row, path: seq<Status>, ev: EventInput, columns: Columns) returns (ok: bool)
      modifies this`row, this`events
      ensures ok <==> Transitioned(old(View()), read, path, ev, columns).Some?
      ensures ok ==> View() == Transitioned(old(View()), read, path, ev, columns).value
      ensures !ok ==> View() == old(View())
      ensures ok <==> old(row).revision == read.revision && HopsLead(read.status, path)
      ensures ok ==>
                var to := if path == [] then read.status else path[|path| - 1];
                && MovesRow(old(row), row, to, columns) && RecordsMove(old(events), events, ev, read.status, path)
                && packets == old(packets) && sessions == old(sessions) && revoked == old(revoked)
    {
      TransitionIs(View(), read, path, ev, columns);
      var cursor := read.status;
      for i := 0 to |path|
        invariant cursor == PathEnd(read.status, path[..i])
        invariant PathAllowed(read.status, path) <==> PathAllowed(cursor, path[i..])
      {
        assert path[i..][0] == path[i] && path[i..][1..] == path[i + 1..];
        if !Allowed(cursor, path[i]) {
          return false;
        }
        cursor := path[i];
      }
      assert path[..|path|] == path;
      if row.revision != read.revision {
        return false;
      }
      row := Row(
        cursor,
        read.revision + 1,
        if columns.currentPacket.Some? then columns.currentPacket else row.currentPacket,
        Written(columns.submittedAt, row.submittedAt),
        Written(columns.evidence, row.evidence));
      AppendApplicationEvent(ev, Some(read.status), Some(cursor), if |path| > 1 then [read.status] + path else []);
      ok := true;
    }
  }
}

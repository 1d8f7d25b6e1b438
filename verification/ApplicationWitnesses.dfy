/**
  Concrete runs that show where the application protocol stops short of what its comments
  say, so that the conditions in the other modules are not idle.
*/
module ApplicationWitnesses {
  import opened Common
  import opened FillPlan
  import opened Packets
  import opened ApplicationMachine
  import opened ApplicationCommits
  import opened ApplicationRuns
  import opened ApplicationInvariant
  import opened ApplicationSettlement

  const SNAPSHOT: Snapshot := Snapshot(1, "job", 1, "cv", Some("sha"), Destination("u", "o", None, None), None)
  const LIVE: Live := Live(1, 1, Some("sha"), "u", "o")
  const FIRST: Step := DoCreatePacket(0, SNAPSHOT, [])

  ghost function PacketWritten(digest: Material -> string): World {
    var packet := NewPacket(digest, SNAPSHOT, []);
    World(Row(ReadyForReview, 2, Some(0), None, None), [packet],
      Appended(NewApplication({}).events, EventInput(PacketCreated, User, About(0)), Some(Draft), Some(ReadyForReview),
        [Draft, Preparing, ReadyForReview]), [], {})
  }

  lemma PreparingIsAllowed()
    ensures PathAllowed(Draft, [Preparing, ReadyForReview]) && PathAllowed(Filling, [Preparing, ReadyForReview])
  {
    var path := [Preparing, ReadyForReview];
    assert path[1..] == [ReadyForReview] && path[1..][1..] == [];
    assert PathAllowed(Preparing, path[1..]);
  }

  lemma FirstPacket(digest: Material -> string)
    ensures var w0 := NewApplication({});
            CreatePacket(digest, w0, w0.row, SNAPSHOT, []) == Some(PacketWritten(digest))
  {
    PreparingIsAllowed();
    var w0 := NewApplication({});
    assert w0.packets + [NewPacket(digest, SNAPSHOT, [])] == [NewPacket(digest, SNAPSHOT, [])];
    assert [Draft] + [Preparing, ReadyForReview] == [Draft, Preparing, ReadyForReview];
  }

  lemma WritingThePacket(digest: Material -> string)
    ensures Commit(digest, [NewApplication({})], FIRST) == Some(PacketWritten(digest))
  {
    FirstPacket(digest);
    assert [NewApplication({})][0] == NewApplication({});
  }

  ghost function Approving24Hours(digest: Material -> string): Step {
    DoApprove(1, 1, PacketWritten(digest).packets[0].contentHash, LIVE, 0, 0, 24)
  }

  ghost function Opening(digest: Material -> string, device: nat): Step {
    DoCreateSession(2, 2, 2, device, [], PacketWritten(digest).packets[0].contentHash, "o", LIVE, 1)
  }

  /** The written packet as approved at time 0. */
  ghost predicate IsApproved(digest: Material -> string, w: World) {
    && w.row == Row(Approved, 3, Some(0), None, None)
    && w.packets
        == [NewPacket(digest, SNAPSHOT, [])
              .(approval := Some(Approval(0, PacketWritten(digest).packets[0].contentHash, 24 * HOUR)))]
    && w.sessions == [] && w.revoked == {}
  }

  lemma ApprovingThePacket(digest: Material -> string)
    ensures var c := Commit(digest, [NewApplication({}), PacketWritten(digest)], Approving24Hours(digest));
            c.Some? && IsApproved(digest, c.value)
  {
    FreshMeansDescribed(PacketWritten(digest).packets[0], LIVE, 0);
  }

  lemma OpeningTheSession(digest: Material -> string, device: nat, w2: World)
    requires IsApproved(digest, w2)
    ensures var c := Commit(digest, [NewApplication({}), PacketWritten(digest), w2, RevokeDevice(w2, device, 1)],
                            Opening(digest, device));
            c.Some? && |c.value.sessions| == 1 && c.value.sessions[0].device == device && c.value.sessions[0].ended.None?
  {
    FreshMeansDescribed(w2.packets[0], LIVE, 1);
    var w3 := RevokeDevice(w2, device, 1);
    assert EndExpired(w3.sessions, 1) == [];
    assert MayFill(w2.row, w2.packets[0], LIVE, 1);
  }

  lemma RunGrows(digest: Material -> string, run: seq<World>, steps: seq<Step>, step: Step, w: World)
    requires IsRun(digest, run, steps) && Commit(digest, run, step) == Some(w)
    ensures IsRun(digest, run + [w], steps + [step])
  {
    forall k | 0 <= k < |steps + [step]|
      ensures Commit(digest, (run + [w])[..k + 1], (steps + [step])[k]) == Some((run + [w])[k + 1])
    {
      if k < |steps| {
        assert (run + [w])[..k + 1] == run[..k + 1];
      } else {
        assert (run + [w])[..k + 1] == run;
      }
    }
  }

  lemma WrittenRun(digest: Material -> string)
    ensures IsRun(digest, [NewApplication({}), PacketWritten(digest)], [FIRST])
  {
    WritingThePacket(digest);
    RunGrows(digest, [NewApplication({})], [], FIRST, PacketWritten(digest));
    assert [NewApplication({})] + [PacketWritten(digest)] == [NewApplication({}), PacketWritten(digest)];
    assert [] + [FIRST] == [FIRST];
  }

  lemma ApprovedRun(digest: Material -> string, written: seq<World>, w2: World)
    requires written == [NewApplication({}), PacketWritten(digest)]
    requires Commit(digest, written, Approving24Hours(digest)) == Some(w2)
    ensures IsRun(digest, written + [w2], [FIRST] + [Approving24Hours(digest)])
  {
    WrittenRun(digest);
    RunGrows(digest, written, [FIRST], Approving24Hours(digest), w2);
  }

  lemma RevokedRun(digest: Material -> string, device: nat, run: seq<World>, steps: seq<Step>)
    requires IsRun(digest, run, steps)
    ensures IsRun(digest, run + [RevokeDevice(run[|run| - 1], device, 1)], steps + [DoRevokeDevice(device, 1)])
  {
    RunGrows(digest, run, steps, DoRevokeDevice(device, 1), RevokeDevice(run[|run| - 1], device, 1));
  }

  /** A handler that authenticated before the revocation still opens a session after it. */
  lemma RevocationDoesNotStopAnOpeningInFlight(digest: Material -> string, device: nat)
    returns (run: seq<World>, steps: seq<Step>)
    ensures IsRun(digest, run, steps) && |run| == 5
    ensures device in run[3].revoked && |run[3].sessions| == 0
    ensures |run[4].sessions| == 1 && run[4].sessions[0].device == device && run[4].sessions[0].ended.None?
  {
    var w0, w1 := NewApplication({}), PacketWritten(digest);
    ApprovingThePacket(digest);
    var w2 := Commit(digest, [w0, w1], Approving24Hours(digest)).value;
    var w3 := RevokeDevice(w2, device, 1);
    var approved, create := [FIRST] + [Approving24Hours(digest)], Opening(digest, device);
    var past := approved + [DoRevokeDevice(device, 1)];
    ApprovedRun(digest, [w0, w1], w2);
    RevokedRun(digest, device, [w0, w1] + [w2], approved);
    assert [w0, w1] + [w2] + [w3] == [w0, w1, w2, w3];
    OpeningTheSession(digest, device, w2);
    var w4 := Commit(digest, [w0, w1, w2, w3], create).value;
    RunGrows(digest, [w0, w1, w2, w3], past, create, w4);
    run, steps := [w0, w1, w2, w3] + [w4], past + [create];
  }

  // ---------------------------------------------------------------------------
  // A report about a packet that was superseded while it was filled
  // ---------------------------------------------------------------------------

  const REQUESTING: Step := DoRequestFill(2, 2, LIVE, 1)
  const SUPERSEDING: Step := DoCreatePacket(3, SNAPSHOT, [])
  const REPORTING: Step := DoRunnerResult(4, 4, 0, NoAdapter, [], None)

  /** The approved packet is being filled. */
  ghost predicate IsFilling(digest: Material -> string, w: World) {
    && w.row == Row(Filling, 4, Some(0), None, None)
    && |w.packets| == 1 && w.packets[0].(approval := None) == NewPacket(digest, SNAPSHOT, [])
  }

  /** The user wrote another packet meanwhile, which waits for review. */
  ghost predicate IsSuperseded(digest: Material -> string, w: World) {
    && w.row == Row(ReadyForReview, 5, Some(1), None, None)
    && |w.packets| == 2 && w.packets[1] == NewPacket(digest, SNAPSHOT, [])
  }

  lemma RequestingTheFill(digest: Material -> string, run: seq<World>)
    requires |run| == 3 && IsApproved(digest, run[2])
    ensures var c := Commit(digest, run, REQUESTING); c.Some? && IsFilling(digest, c.value)
  {
    FreshMeansDescribed(run[2].packets[0], LIVE, 1);
    assert MayFill(run[2].row, run[2].packets[0], LIVE, 1);
  }

  lemma SupersedingThePacket(digest: Material -> string, run: seq<World>)
    requires |run| == 4 && IsFilling(digest, run[3])
    ensures var c := Commit(digest, run, SUPERSEDING); c.Some? && IsSuperseded(digest, c.value)
  {
    PreparingIsAllowed();
    assert UnresolvedQuestionKeys([]) == [];
  }

  lemma ReportingTheOldPacket(digest: Material -> string, run: seq<World>)
    requires |run| == 5 && IsSuperseded(digest, run[4])
    ensures var c := Commit(digest, run, REPORTING);
            c.Some? && c.value.row.status.Approved? && CurrentApproval(c.value).None?
  {
    var w := run[4];
    assert Commit(digest, run, REPORTING)
        == Transitioned(w, w.row, [Approved], EventInput(FillPaused, Runner, About(0)), NO_COLUMNS);
  }

  /**
    The runner was asked to fill an approved packet; the user wrote a new one meanwhile; the
    runner then reports the page unsupported, and the packet nobody read becomes `approved`.
  */
  lemma UnsupportedReportApprovesUnread(digest: Material -> string) returns (run: seq<World>, steps: seq<Step>)
    ensures IsRun(digest, run, steps) && !ApprovedMeansRead(run)
    ensures steps == [FIRST] + [Approving24Hours(digest)] + [REQUESTING] + [SUPERSEDING] + [REPORTING]
  {
    ApprovingThePacket(digest);
    var written := [NewApplication({}), PacketWritten(digest)];
    var w2 := Commit(digest, written, Approving24Hours(digest)).value;
    ApprovedRun(digest, written, w2);
    run, steps := GrowsToUnread(digest, written + [w2], [FIRST] + [Approving24Hours(digest)]);
  }

  lemma GrowsToUnread(digest: Material -> string, approved: seq<World>, past: seq<Step>)
    returns (run: seq<World>, steps: seq<Step>)
    requires IsRun(digest, approved, past) && |approved| == 3 && IsApproved(digest, approved[2])
    ensures IsRun(digest, run, steps) && !ApprovedMeansRead(run)
    ensures steps == past + [REQUESTING] + [SUPERSEDING] + [REPORTING]
  {
    RequestingTheFill(digest, approved);
    var filling := approved + [Commit(digest, approved, REQUESTING).value];
    RunGrows(digest, approved, past, REQUESTING, filling[3]);
    SupersedingThePacket(digest, filling);
    var superseded := filling + [Commit(digest, filling, SUPERSEDING).value];
    RunGrows(digest, filling, past + [REQUESTING], SUPERSEDING, superseded[4]);
    ReportingTheOldPacket(digest, superseded);
    run := superseded + [Commit(digest, superseded, REPORTING).value];
    steps := past + [REQUESTING] + [SUPERSEDING] + [REPORTING];
    RunGrows(digest, superseded, past + [REQUESTING] + [SUPERSEDING], REPORTING, run[5]);
    assert run[5].row.status.Approved? && CurrentApproval(run[5]).None?;
  }
}

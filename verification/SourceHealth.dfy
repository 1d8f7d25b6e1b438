/**
  A board's health, its scans and when the next may start, with the log of what happened kept
  beside them (apps/api/src/discovery/sources.ts, scans.ts, scan-scheduler.ts and
  apps/api/src/routes/sources.ts).
*/
module SourceHealth {
  import opened Common

  const BLOCK_AFTER_DENIALS: nat := 3
  const JITTER: Time := 30 * 60 * 1000

  datatype Health = NotKnown | Ok | Degraded | Blocked

  datatype ScanStatus = Queued | Running | Ended

  datatype Source = Source(
    enabled: bool, health: Health, failures: nat, denials: nat, nextScanAfter: Option<Time>, scans: seq<ScanStatus>)

  datatype Code = AccessDenied | RateLimited | FetchBlocked | OtherCode

  /** `DENIAL_CODES` */
  predicate IsDenial(code: Code) {
    !code.OtherCode?
  }

  predicate IsScannable(s: Source) {
    s.enabled && !s.health.Blocked?
  }

  predicate InFlight(status: ScanStatus) {
    status.Queued? || status.Running?
  }

  predicate Scanning(s: Source) {
    exists i :: 0 <= i < |s.scans| && InFlight(s.scans[i])
  }

  predicate IsDue(s: Source, now: Time) {
    s.enabled && !s.health.Blocked? && (s.nextScanAfter.None? || s.nextScanAfter.value <= now)
  }

  // ---------------------------------------------------------------------------
  // Operations
  // ---------------------------------------------------------------------------

  function HoursFromNowWithJitter(from: Time, hours: int, jitter: Time): Time {
    from + hours * HOUR + jitter
  }

  /** Jitter is only ever added: the interval is a floor. */
  lemma IntervalIsAFloor(from: Time, hours: int, jitter: Time)
    requires 0 <= jitter <= JITTER
    ensures 0 <= HoursFromNowWithJitter(from, hours, jitter) - (from + hours * 3600000) <= 1800000
  {
  }

  /** `startScan`: refused for a disabled or blocked source, and while a scan is in flight. */
  function StartScan(s: Source, now: Time, hours: int, jitter: Time): Option<Source> {
    if !IsScannable(s) || Scanning(s) then None
    else
      Some(s.(scans := s.scans + [Queued], nextScanAfter := Some(HoursFromNowWithJitter(now, hours, jitter))))
  }

  function RecordSourceSuccess(s: Source): Source {
    s.(health := Ok, failures := 0, denials := 0)
  }

  /** `retryAt` is the observation time plus Retry-After. */
  function RecordSourceFailure(s: Source, code: Code, retryAt: Option<Time>): Source {
    var denials := if IsDenial(code) then s.denials + 1 else 0;
    s.(health := if denials >= BLOCK_AFTER_DENIALS then Blocked else Degraded,
       failures := s.failures + 1,
       denials := denials,
       nextScanAfter :=
         if retryAt.None? then s.nextScanAfter
         else if s.nextScanAfter.None? || s.nextScanAfter.value < retryAt.value then retryAt
         else s.nextScanAfter)
  }

  /** `PATCH /sources/:id` with `enabled: true`, the user's "try again". */
  function Reenabled(s: Source): Source {
    s.(enabled := true, health := NotKnown, failures := 0, denials := 0, nextScanAfter := None)
  }

  datatype Outcome = Succeeded | FailedWith(code: Code, retryAt: Option<Time>) | Cancelled

  /** A scan ends; a cancelled one says nothing about the board. */
  function Finished(s: Source, i: nat, outcome: Outcome): Source
    requires i < |s.scans|
  {
    var ended := s.(scans := s.scans[i := Ended]);
    match outcome
    case Succeeded => RecordSourceSuccess(ended)
    case FailedWith(code, retryAt) => RecordSourceFailure(ended, code, retryAt)
    case Cancelled => ended
  }

  // ---------------------------------------------------------------------------
  // Runs
  // ---------------------------------------------------------------------------

  datatype Fact =
    | Started(at: Time, hours: int, due: Time)
    | Reported(outcome: Outcome)
    | SwitchedOn
    | SwitchedOff

  datatype State = State(source: Source, log: seq<Fact>)

  const NEW_SOURCE: State := State(Source(true, NotKnown, 0, 0, None, []), [])

  /** Each is one transaction under the source's row lock; `Schedule` is some replica's turn. */
  datatype Step =
    | Schedule(now: Time, hours: int, jitter: Time)
    | ScanNow(now: Time, hours: int, jitter: Time)
    | Lease(scan: nat)
    | Finish(scan: nat, outcome: Outcome)
    | SwitchOn
    | SwitchOff

  function Starting(s: State, now: Time, hours: int, jitter: Time): State {
    var started := StartScan(s.source, now, hours, jitter);
    if started.None? || !(0 <= jitter <= JITTER) then s
    else State(started.value, s.log + [Started(now, hours, HoursFromNowWithJitter(now, hours, jitter))])
  }

  /** A refused step changes nothing. */
  function Next(s: State, step: Step): State {
    match step
    case Schedule(now, hours, jitter) => if IsDue(s.source, now) then Starting(s, now, hours, jitter) else s
    case ScanNow(now, hours, jitter) => Starting(s, now, hours, jitter)
    case Lease(scan) =>
      if scan < |s.source.scans| && s.source.scans[scan].Queued?
      then s.(source := s.source.(scans := s.source.scans[scan := Running])) else s
    case Finish(scan, outcome) =>
      if scan < |s.source.scans| && InFlight(s.source.scans[scan])
      then State(Finished(s.source, scan, outcome), s.log + [Reported(outcome)]) else s
    case SwitchOn => State(Reenabled(s.source), s.log + [SwitchedOn])
    case SwitchOff => State(s.source.(enabled := false), s.log + [SwitchedOff])
  }

  function Run(steps: seq<Step>): State {
    if steps == [] then NEW_SOURCE else Next(Run(steps[..|steps| - 1]), steps[|steps| - 1])
  }

  /** What the board said, in order, since the user last switched it on; a cancelled scan says nothing. */
  function Reports(log: seq<Fact>): seq<Outcome> {
    if log == [] then []
    else
      var before, last := Reports(log[..|log| - 1]), log[|log| - 1];
      if last.SwitchedOn? then []
      else if last.Reported? && !last.outcome.Cancelled? then before + [last.outcome]
      else before
  }

  /** The board turned the scan away. */
  ghost predicate IsRefusal(o: Outcome) {
    o.FailedWith? && o.code in {AccessDenied, RateLimited, FetchBlocked}
  }

  /** `n` is the length of the longest run of refusals the reports end with. */
  ghost predicate EndsWithRefusals(reports: seq<Outcome>, n: nat) {
    && n <= |reports|
    && (forall i :: |reports| - n <= i < |reports| ==> IsRefusal(reports[i]))
    && (n < |reports| ==> !IsRefusal(reports[|reports| - n - 1]))
  }

  /** `n` is the length of the longest run of failures, of any kind, the reports end with. */
  ghost predicate EndsWithFailures(reports: seq<Outcome>, n: nat) {
    && n <= |reports|
    && (forall i :: |reports| - n <= i < |reports| ==> reports[i].FailedWith?)
    && (n < |reports| ==> !reports[|reports| - n - 1].FailedWith?)
  }

  /** Not known before the first report, then what the last one says, and blocked from the third refusal in a row. */
  ghost predicate HealthSays(health: Health, reports: seq<Outcome>, refusals: nat) {
    health ==
      if reports == [] then NotKnown
      else if reports[|reports| - 1].Succeeded? then Ok
      else if refusals >= 3 then Blocked else Degraded
  }

  /** Whether the user's last word on the source was to switch it off; it starts on. */
  ghost predicate IsOff(log: seq<Fact>) {
    exists i :: 0 <= i < |log| && log[i].SwitchedOff? && forall j :: i < j < |log| ==> !log[j].SwitchedOn?
  }

  /** The event sets a time before which no scan may start. */
  predicate HasDeadline(f: Fact) {
    f.Started? || (f.Reported? && f.outcome.FailedWith? && f.outcome.retryAt.Some?)
  }

  function DeadlineOf(f: Fact): Time
    requires HasDeadline(f)
  {
    if f.Started? then f.due else f.outcome.retryAt.value
  }

  /** A deadline that still binds: nothing has started, and nobody switched the source on, since. */
  ghost predicate Binds(log: seq<Fact>, i: nat) {
    i < |log| && HasDeadline(log[i]) && forall j :: i < j < |log| ==> !log[j].Started? && !log[j].SwitchedOn?
  }

  /** `next` is the latest binding deadline, or nothing where none binds. */
  ghost predicate IsLatest(log: seq<Fact>, next: Option<Time>) {
    && (forall i :: 0 <= i < |log| && Binds(log, i) ==> next.Some? && DeadlineOf(log[i]) <= next.value)
    && (next.Some? ==> exists i :: 0 <= i < |log| && Binds(log, i) && DeadlineOf(log[i]) == next.value)
  }

  ghost predicate OneInFlight(scans: seq<ScanStatus>) {
    forall i, j :: 0 <= i < j < |scans| ==> scans[i].Ended? || scans[j].Ended?
  }

  ghost predicate Agrees(s: State) {
    && EndsWithRefusals(Reports(s.log), s.source.denials)
    && EndsWithFailures(Reports(s.log), s.source.failures)
    && HealthSays(s.source.health, Reports(s.log), s.source.denials)
    && (s.source.enabled <==> !IsOff(s.log))
    && IsLatest(s.log, s.source.nextScanAfter)
    && OneInFlight(s.source.scans)
    && (s.source.health.Blocked? ==> forall i :: 0 <= i < |s.source.scans| ==> s.source.scans[i].Ended?)
  }

  lemma BindsAppended(log: seq<Fact>, f: Fact, i: nat)
    ensures Binds(log + [f], i) <==>
            (i == |log| && HasDeadline(f)) || (Binds(log, i) && !f.Started? && !f.SwitchedOn?)
  {
    var more := log + [f];
    if i < |log| {
      assert more[i] == log[i];
      assert forall j :: 0 <= j < |log| ==> more[j] == log[j];
      assert more[|log|] == f;
    }
  }

  lemma LatestAppended(log: seq<Fact>, f: Fact, next: Option<Time>, next': Option<Time>)
    requires IsLatest(log, next)
    requires f.Started? ==> next' == Some(f.due)
    requires f.SwitchedOn? ==> next'.None?
    requires !f.Started? && !f.SwitchedOn? && !HasDeadline(f) ==> next' == next
    requires f.Reported? && HasDeadline(f) ==>
               next' == if next.None? || next.value < DeadlineOf(f) then Some(DeadlineOf(f)) else next
    ensures IsLatest(log + [f], next')
  {
    var more := log + [f];
    forall i | 0 <= i < |more| && Binds(more, i)
      ensures next'.Some? && DeadlineOf(more[i]) <= next'.value
    {
      BindsAppended(log, f, i);
    }
    if next'.Some? {
      BindsAppended(log, f, |log|);
      if next' == next && next.Some? && !f.Started? && !f.SwitchedOn? {
        var i :| 0 <= i < |log| && Binds(log, i) && DeadlineOf(log[i]) == next.value;
        BindsAppended(log, f, i);
        assert more[i] == log[i];
      } else {
        assert more[|log|] == f;
      }
    }
  }

  /** What a new entry of the log does to the reports, and so to the two counters and the health. */
  lemma CountersAppended(log: seq<Fact>, f: Fact, before: Source, after: Source)
    requires EndsWithRefusals(Reports(log), before.denials) && EndsWithFailures(Reports(log), before.failures)
    requires HealthSays(before.health, Reports(log), before.denials)
    requires f.SwitchedOn? ==> after.denials == 0 && after.failures == 0 && after.health.NotKnown?
    requires f.Started? || f.SwitchedOff? || (f.Reported? && f.outcome.Cancelled?) ==>
               after.denials == before.denials && after.failures == before.failures && after.health == before.health
    requires f.Reported? && f.outcome.Succeeded? ==> after.denials == 0 && after.failures == 0 && after.health.Ok?
    requires f.Reported? && f.outcome.FailedWith? ==>
               && after.denials == (if IsRefusal(f.outcome) then before.denials + 1 else 0)
               && after.failures == before.failures + 1
               && after.health == if after.denials >= 3 then Blocked else Degraded
    ensures var reports := Reports(log + [f]);
            && EndsWithRefusals(reports, after.denials) && EndsWithFailures(reports, after.failures)
            && HealthSays(after.health, reports, after.denials)
  {
    assert (log + [f])[..|log|] == log;
  }

  lemma SwitchAppended(log: seq<Fact>, f: Fact)
    ensures IsOff(log + [f]) <==> f.SwitchedOff? || (IsOff(log) && !f.SwitchedOn?)
  {
    var more := log + [f];
    assert more[|log|] == f;
    if i :| 0 <= i < |log| && log[i].SwitchedOff? && forall j :: i < j < |log| ==> !log[j].SwitchedOn? {
      assert more[i] == log[i];
      assert forall j :: i < j < |log| ==> more[j] == log[j];
    }
    if i :| 0 <= i < |more| && more[i].SwitchedOff? && forall j :: i < j < |more| ==> !more[j].SwitchedOn? {
      assert i < |log| ==> log[i] == more[i];
      assert forall j :: i < j < |log| ==> more[j] == log[j];
    }
  }

  lemma StartAgrees(s: State, now: Time, hours: int, jitter: Time)
    requires Agrees(s)
    ensures Agrees(Starting(s, now, hours, jitter))
  {
    var due := HoursFromNowWithJitter(now, hours, jitter);
    LatestAppended(s.log, Started(now, hours, due), s.source.nextScanAfter, Some(due));
    var started := StartScan(s.source, now, hours, jitter);
    CountersAppended(s.log, Started(now, hours, due), s.source, s.source);
    SwitchAppended(s.log, Started(now, hours, due));
    if started.Some? {
      assert OneInFlight(started.value.scans) && !started.value.health.Blocked?;
    }
  }

  lemma NothingInFlight(scans: seq<ScanStatus>, i: nat)
    requires OneInFlight(scans) && i < |scans| && InFlight(scans[i])
    ensures var ended := scans[i := Ended]; forall j :: 0 <= j < |ended| ==> ended[j].Ended?
  {
  }

  lemma FinishAgrees(s: State, i: nat, outcome: Outcome)
    requires Agrees(s) && i < |s.source.scans| && InFlight(s.source.scans[i])
    ensures Agrees(State(Finished(s.source, i, outcome), s.log + [Reported(outcome)]))
  {
    var source := Finished(s.source, i, outcome);
    NothingInFlight(s.source.scans, i);
    LatestAppended(s.log, Reported(outcome), s.source.nextScanAfter, source.nextScanAfter);
    CountersAppended(s.log, Reported(outcome), s.source, source);
    SwitchAppended(s.log, Reported(outcome));
  }

  lemma StepAgrees(s: State, step: Step)
    requires Agrees(s)
    ensures Agrees(Next(s, step))
  {
    match step
    case Schedule(now, hours, jitter) => StartAgrees(s, now, hours, jitter);
    case ScanNow(now, hours, jitter) => StartAgrees(s, now, hours, jitter);
    case Lease(scan) =>
    case Finish(scan, outcome) =>
      if scan < |s.source.scans| && InFlight(s.source.scans[scan]) {
        FinishAgrees(s, scan, outcome);
      }
    case SwitchOn =>
      LatestAppended(s.log, SwitchedOn, s.source.nextScanAfter, None);
      CountersAppended(s.log, SwitchedOn, s.source, Reenabled(s.source));
      SwitchAppended(s.log, SwitchedOn);
    case SwitchOff =>
      LatestAppended(s.log, SwitchedOff, s.source.nextScanAfter, s.source.nextScanAfter);
      CountersAppended(s.log, SwitchedOff, s.source, s.source);
      SwitchAppended(s.log, SwitchedOff);
  }

  /**
    Over every run: the counters are how many refusals, and how many failures of any kind, the
    board's reports since the last switch-on end with; the health is what the last report says,
    and blocked exactly from the third refusal on; at most one scan is in flight, and none while
    it is blocked; `next_scan_after` is the latest deadline in force.
  */
  lemma {:induction false} HealthAgreesWithHistory(steps: seq<Step>)
    ensures Agrees(Run(steps))
  {
    if steps == [] {
      assert Reports(NEW_SOURCE.log) == [];
    } else {
      HealthAgreesWithHistory(steps[..|steps| - 1]);
      StepAgrees(Run(steps[..|steps| - 1]), steps[|steps| - 1]);
    }
  }

  /** A blocked source starts nothing and stays blocked until the user switches it on. */
  lemma {:induction false} BlockedUntilSwitchedOn(past: seq<Step>, future: seq<Step>)
    requires Run(past).source.health.Blocked?
    requires forall k :: 0 <= k < |future| ==> !future[k].SwitchOn?
    ensures Run(past + future).source.health.Blocked? && Run(past + future).source.scans == Run(past).source.scans
  {
    if future == [] {
      assert past + future == past;
    } else {
      var n := |future| - 1;
      BlockedUntilSwitchedOn(past, future[..n]);
      HealthAgreesWithHistory(past + future[..n]);
      assert (past + future)[..|past + future| - 1] == past + future[..n] && (past + future)[|past + future| - 1] == future[n];
    }
  }

  /** The scheduler's test is the rule: scannable, and every deadline in force has passed. */
  lemma DueIff(steps: seq<Step>, now: Time)
    ensures var s := Run(steps);
            IsDue(s.source, now) <==>
              && s.source.enabled && !s.source.health.Blocked?
              && forall i :: 0 <= i < |s.log| && Binds(s.log, i) ==> DeadlineOf(s.log[i]) <= now
  {
    HealthAgreesWithHistory(steps);
  }

  /** The step started a scan. */
  predicate Starts(s: State, step: Step) {
    |Next(s, step).source.scans| > |s.source.scans|
  }

  /**
    Spacing, whoever the replicas are: a scheduled scan starts at least the configured interval
    after the previous start, scheduled or manual, and not before any Retry-After heard since,
    unless the user switched the source on in between.
  */
  lemma ScheduledScansAreSpaced(steps: seq<Step>, now: Time, hours: int, jitter: Time, i: nat)
    requires var s := Run(steps);
             Starts(s, Schedule(now, hours, jitter)) && i < |s.log| && HasDeadline(s.log[i])
             && forall j :: i < j < |s.log| ==> !s.log[j].Started? && !s.log[j].SwitchedOn?
    ensures Run(steps).log[i].Started? ==> now >= Run(steps).log[i].at + Run(steps).log[i].hours * 3600000
    ensures Run(steps).log[i].Reported? ==> now >= Run(steps).log[i].outcome.retryAt.value
  {
    DueIff(steps, now);
    if Run(steps).log[i].Started? {
      StartsAreRecorded(steps, i);
    }
    assert Binds(Run(steps).log, i);
  }

  lemma {:induction false} StartsAreRecorded(steps: seq<Step>, i: nat)
    requires i < |Run(steps).log| && Run(steps).log[i].Started?
    ensures Run(steps).log[i].at + Run(steps).log[i].hours * HOUR <= Run(steps).log[i].due
  {
    if steps != [] {
      var before := Run(steps[..|steps| - 1]);
      if i < |before.log| {
        StartsAreRecorded(steps[..|steps| - 1], i);
        assert Run(steps).log[i] == before.log[i];
      }
    }
  }

  /**
    Exactly when a scheduled scan starts: no deadline in force lies ahead, nothing is in
    flight, and the source is scannable. Switching a source on empties the deadlines, so a
    scan may then follow the last one at once.
  */
  lemma ScheduleStartsIff(steps: seq<Step>, now: Time, hours: int, jitter: Time)
    requires 0 <= jitter <= JITTER
    ensures var s := Run(steps);
            Starts(s, Schedule(now, hours, jitter)) <==>
              && s.source.enabled && !s.source.health.Blocked?
              && (forall i :: 0 <= i < |s.source.scans| ==> s.source.scans[i].Ended?)
              && forall i :: 0 <= i < |s.log| && Binds(s.log, i) ==> DeadlineOf(s.log[i]) <= now
  {
    DueIff(steps, now);
  }

  /** How far a scan has come: waiting, running, ended. */
  ghost function Stage(status: ScanStatus): nat {
    match status case Queued => 0 case Running => 1 case Ended => 2
  }

  /** A scan is leased while it waits and ended while it waits or runs, and never goes back; no step touches another scan. */
  lemma ScansAdvance(s: State, step: Step, i: nat)
    requires i < |s.source.scans|
    ensures var before, scans := s.source.scans, Next(s, step).source.scans;
            && i < |scans| && Stage(before[i]) <= Stage(scans[i])
            && (step == Lease(i) && before[i].Queued? ==> scans[i].Running?)
            && (step.Finish? && step.scan == i ==> scans[i].Ended?)
            && (scans[i] != before[i] ==> (step == Lease(i) && before[i].Queued?) || (step.Finish? && step.scan == i))
  {
  }

  /** One scan more waiting, and the next not before the interval and the jitter are over. */
  ghost function Queueing(s: Source, now: Time, hours: int, jitter: Time): Source {
    s.(scans := s.scans + [Queued], nextScanAfter := Some(now + hours * 3600000 + jitter))
  }

  /** What a step that starts a scan leaves: one more scan waiting, and its deadline on record. */
  ghost predicate HasStarted(s: State, s': State, now: Time, hours: int, jitter: Time) {
    && s'.source == Queueing(s.source, now, hours, jitter)
    && s'.log == s.log + [Started(now, hours, now + hours * 3600000 + jitter)]
  }

  /**
    A manual scan starts exactly when the source is on, not blocked and nothing is in flight, no
    matter the deadlines; whoever asks, a scan that starts is on record, and one that does not
    leaves everything as it was.
  */
  lemma ScanNowStartsIff(s: State, now: Time, hours: int, jitter: Time)
    requires 0 <= jitter <= JITTER
    ensures Starts(s, ScanNow(now, hours, jitter)) <==>
              && s.source.enabled && !s.source.health.Blocked?
              && forall i :: 0 <= i < |s.source.scans| ==> s.source.scans[i].Ended?
    ensures forall step :: step in {ScanNow(now, hours, jitter), Schedule(now, hours, jitter)} ==>
              if Starts(s, step) then HasStarted(s, Next(s, step), now, hours, jitter) else Next(s, step) == s
  {
  }

  lemma SwitchingOnForgetsTheInterval(now: Time, hours: nat)
    requires hours > 0
    ensures var steps := [ScanNow(now, hours, 0), Finish(0, Succeeded), SwitchOn];
            Starts(Run(steps), Schedule(now, hours, 0))
  {
    var a, b, c := ScanNow(now, hours, 0), Finish(0, Succeeded), SwitchOn;
    var s1 := Next(NEW_SOURCE, a);
    assert [a][..0] == [] && [a, b][..1] == [a] && [a, b, c][..2] == [a, b];
    assert Run([a]) == s1;
    assert s1.source.scans == [Queued];
    var s2 := Next(s1, b);
    assert Run([a, b]) == s2;
    assert s2.source.scans == [Ended];
    assert Run([a, b, c]) == Next(s2, c);
  }

  lemma RunExtends(steps: seq<Step>, step: Step)
    ensures Run(steps + [step]) == Next(Run(steps), step)
  {
    assert (steps + [step])[..|steps|] == steps;
  }

  /**
    A refusal asks for `wait` hours; a manual scan an hour on replaces that deadline with its own
    interval, and after it the scheduler starts before the time the board asked for.
  */
  lemma ManualScanForgetsRetryAfter(now: Time, hours: nat, wait: int)
    requires 0 < hours && hours + 1 < wait
    ensures var retryAt := now + wait * HOUR;
            var steps := [ScanNow(now, hours, 0)] + [Finish(0, FailedWith(RateLimited, Some(retryAt)))]
                         + [ScanNow(now + HOUR, hours, 0)] + [Finish(1, Succeeded)];
            var later := now + (hours + 1) * HOUR;
            Starts(Run(steps), Schedule(later, hours, 0)) && later < retryAt
  {
    var retryAt := now + wait * HOUR;
    var first, refused := ScanNow(now, hours, 0), Finish(0, FailedWith(RateLimited, Some(retryAt)));
    var again, done := ScanNow(now + HOUR, hours, 0), Finish(1, Succeeded);
    RunExtends([], first);
    RunExtends([first], refused);
    RunExtends([first] + [refused], again);
    RunExtends([first] + [refused] + [again], done);
    assert [] + [first] == [first];
    var s1 := Next(NEW_SOURCE, first);
    assert s1.source.scans == [Queued];
    var s2 := Next(s1, refused);
    assert s2.source.scans == [Ended] && s2.source.nextScanAfter == Some(retryAt);
    var s3 := Next(s2, again);
    assert s3.source.scans == [Ended, Queued];
    assert Next(s3, done).source.scans == [Ended, Ended];
  }

  // ---------------------------------------------------------------------------
  // The scheduler's pass
  // ---------------------------------------------------------------------------

  /** On, not blocked, past its deadline, and with nothing in flight. */
  ghost predicate IsDueAndFree(s: Source, now: Time) {
    && s.enabled && !s.health.Blocked? && (s.nextScanAfter.None? || s.nextScanAfter.value <= now)
    && forall i :: 0 <= i < |s.scans| ==> s.scans[i].Ended?
  }

  lemma DueAndFree(s: Source, now: Time)
    ensures IsDue(s, now) && !Scanning(s) <==> IsDueAndFree(s, now)
  {
  }

  class SourceTable {
    var sources: seq<Source>

    constructor (sources: seq<Source>)
      ensures this.sources == sources
    {
      this.sources := sources;
    }

    /**
      One pass over the candidates. A source another transaction holds is passed over, and so
      is one that is no longer due or has a scan in flight; every candidate ends in exactly one
      of the two lists, in order, and only the queued ones change.
    */
    method ScheduleDueScans(candidates: seq<nat>, held: set<nat>, now: Time, hours: int, jitter: Time)
      returns (queued: seq<nat>, skipped: seq<nat>)
      requires forall i :: 0 <= i < |candidates| ==> candidates[i] < |sources|
      requires forall i, j :: 0 <= i < j < |candidates| ==> candidates[i] != candidates[j]
      modifies this
      ensures |sources| == |old(sources)|
      ensures multiset(queued) + multiset(skipped) == multiset(candidates)
      ensures forall c :: c in queued <==> c in candidates && c !in held && IsDueAndFree(old(sources)[c], now)
      ensures forall c :: 0 <= c < |sources| ==>
                if c in queued then sources[c] == Queueing(old(sources)[c], now, hours, jitter)
                else sources[c] == old(sources)[c]
    {
      queued, skipped := [], [];
      for i := 0 to |candidates|
        invariant |sources| == |old(sources)|
        invariant multiset(queued) + multiset(skipped) == multiset(candidates[..i])
        invariant forall c :: c in queued <==> c in candidates[..i] && c !in held && IsDueAndFree(old(sources)[c], now)
        invariant forall c :: 0 <= c < |sources| ==>
                    if c in queued then sources[c] == Queueing(old(sources)[c], now, hours, jitter)
                    else sources[c] == old(sources)[c]
      {
        var candidate := candidates[i];
        assert candidates[..i + 1] == candidates[..i] + [candidate];
        assert candidate !in candidates[..i];
        DueAndFree(sources[candidate], now);
        if candidate in held || !IsDue(sources[candidate], now) {
          skipped := skipped + [candidate];
        } else {
          var started := StartScan(sources[candidate], now, hours, jitter);
          if started.Some? {
            sources := sources[candidate := started.value];
            queued := queued + [candidate];
          } else {
            skipped := skipped + [candidate];
          }
        }
      }
      assert candidates[..|candidates|] == candidates;
    }
  }
}

/**
  Paired devices: a code is exchanged once for a token, a token authenticates only the device
  it was issued to, and a revoked device never authenticates again
  (apps/api/src/devices/service.ts, apps/api/src/routes/devices.ts).
*/
module Devices {
  import opened Common

  const PAIRING_TTL: Time := 300 * 1000
  const TOKEN_TTL: Time := 30 * 24 * HOUR
  const MIN_TOKEN_LENGTH: nat := 32

  datatype Device = Device(
    codeHash: Option<string>, codeExpires: Option<Time>, tokenHash: Option<string>,
    expires: Option<Time>, revokedAt: Option<Time>)

  datatype DeviceStatus = Pending | Expired | Paired | Revoked

  function StatusOf(d: Device, now: Time): DeviceStatus {
    if d.revokedAt.Some? then Revoked
    else if d.tokenHash.None? then (if d.codeExpires.Some? && d.codeExpires.value <= now then Expired else Pending)
    else if d.expires.Some? && d.expires.value <= now then Expired
    else Paired
  }

  /** SHA-256 of a secret, of which only this is used. */
  ghost predicate Injective(hash: string -> string) {
    forall a, b :: hash(a) == hash(b) ==> a == b
  }

  /** The row `exchangeDevicePairing`'s conditional update matches. */
  predicate Exchangeable(hash: string -> string, d: Device, code: string, now: Time) {
    && d.codeHash == Some(hash(code))
    && d.codeExpires.Some? && now < d.codeExpires.value
    && d.tokenHash.None? && d.revokedAt.None?
  }

  /** The device waits for this code, which has not run out. */
  ghost predicate AwaitsCode(hash: string -> string, d: Device, code: string, now: Time) {
    && d.codeHash == Some(hash(code)) && d.codeExpires.Some? && now < d.codeExpires.value
    && d.tokenHash.None? && d.revokedAt.None?
  }

  /** The device holds this token, which has not run out, and is not revoked. */
  ghost predicate HoldsLive(hash: string -> string, d: Device, token: string, now: Time) {
    d.tokenHash == Some(hash(token)) && d.revokedAt.None? && (d.expires.None? || now < d.expires.value)
  }

  /** What a device is called: revoked before all else, paired while its token lasts, pending while its code does. */
  lemma StatusIs(d: Device, now: Time)
    ensures StatusOf(d, now).Revoked? <==> d.revokedAt.Some?
    ensures StatusOf(d, now).Paired? <==>
              d.revokedAt.None? && d.tokenHash.Some? && (d.expires.None? || now < d.expires.value)
    ensures StatusOf(d, now).Pending? <==>
              d.revokedAt.None? && d.tokenHash.None? && (d.codeExpires.None? || now < d.codeExpires.value)
  {
  }

  class DeviceTable {
    var devices: seq<Device>

    constructor ()
      ensures devices == []
    {
      devices := [];
    }

    method CreateDevicePairing(hash: string -> string, code: string, now: Time)
      modifies this
      ensures devices == old(devices) + [Device(Some(hash(code)), Some(now + PAIRING_TTL), None, None, None)]
    {
      devices := devices + [Device(Some(hash(code)), Some(now + PAIRING_TTL), None, None, None)];
    }

    /** The code is destroyed as it is spent; a code that matches nothing changes nothing. */
    method ExchangeDevicePairing(hash: string -> string, code: string, token: string, now: Time)
      returns (device: Option<nat>)
      modifies this
      ensures device == Matching(hash, old(devices), code, now)
      ensures devices == AfterExchange(hash, old(devices), code, token, now)
      ensures device.None? ==>
                devices == old(devices) && forall i :: 0 <= i < |devices| ==> !AwaitsCode(hash, devices[i], code, now)
      ensures device.Some? ==>
                && device.value < |devices| == |old(devices)| && AwaitsCode(hash, old(devices)[device.value], code, now)
                && devices[device.value] == Device(None, None, Some(hash(token)), Some(now + 30 * 24 * 60 * 60 * 1000), None)
                && forall i :: 0 <= i < |devices| && i != device.value ==> devices[i] == old(devices)[i]
    {
      for i := 0 to |devices|
        invariant devices == old(devices)
        invariant forall j :: 0 <= j < i ==> !Exchangeable(hash, devices[j], code, now)
      {
        if Exchangeable(hash, devices[i], code, now) {
          MatchingIs(hash, devices, code, now, i);
          devices := devices[i := Device(None, None, Some(hash(token)), Some(now + TOKEN_TTL), None)];
          return Some(i);
        }
      }
      NothingMatches(hash, devices, code, now);
      device := None;
    }

    method RevokeDevice(device: nat, now: Time) returns (ok: bool)
      requires device < |devices|
      modifies this
      ensures ok <==> old(devices)[device].revokedAt.None?
      ensures devices == AfterRevocation(old(devices), device, now)
      ensures ok ==> devices == old(devices)[device := Device(None, None, None, None, Some(now))]
      ensures !ok ==> devices == old(devices)
    {
      if StatusOf(devices[device], now).Revoked? {
        return false;
      }
      devices := devices[device := Device(None, None, None, None, Some(now))];
      ok := true;
    }

    method ResolveDeviceToken(hash: string -> string, token: string, now: Time) returns (device: Option<nat>)
      ensures device == Resolved(hash, devices, token, now)
      ensures device.Some? ==>
                |token| >= 32 && device.value < |devices| && HoldsLive(hash, devices[device.value], token, now)
      ensures forall i | |token| >= 32 && 0 <= i < |devices| && HoldsLive(hash, devices[i], token, now) ::
                (forall k :: 0 <= k < i ==> devices[k].tokenHash != Some(hash(token))) ==> device == Some(i)
    {
      if |token| < MIN_TOKEN_LENGTH {
        return None;
      }
      for i := 0 to |devices|
        invariant forall j :: 0 <= j < i ==> devices[j].tokenHash != Some(hash(token))
      {
        if devices[i].tokenHash == Some(hash(token)) {
          HolderIs(hash, devices, token, i);
          return if StatusOf(devices[i], now).Paired? then Some(i) else None;
        }
      }
      NobodyHolds(hash, devices, token);
      device := None;
    }
  }

  // ---------------------------------------------------------------------------
  // What the operations do
  // ---------------------------------------------------------------------------

  function Matching(hash: string -> string, devices: seq<Device>, code: string, now: Time): (i: Option<nat>)
    ensures i.Some? ==> i.value < |devices| && Exchangeable(hash, devices[i.value], code, now)
  {
    if devices == [] then None
    else
      var before := Matching(hash, devices[..|devices| - 1], code, now);
      if before.Some? then before
      else if Exchangeable(hash, devices[|devices| - 1], code, now) then Some(|devices| - 1) else None
  }

  lemma {:induction false} NothingMatches(hash: string -> string, devices: seq<Device>, code: string, now: Time)
    requires forall j :: 0 <= j < |devices| ==> !Exchangeable(hash, devices[j], code, now)
    ensures Matching(hash, devices, code, now).None?
  {
  }

  lemma {:induction false} MatchingIs(hash: string -> string, devices: seq<Device>, code: string, now: Time, i: nat)
    requires i < |devices| && Exchangeable(hash, devices[i], code, now)
    requires forall j :: 0 <= j < i ==> !Exchangeable(hash, devices[j], code, now)
    ensures Matching(hash, devices, code, now) == Some(i)
  {
    var n := |devices| - 1;
    if i < n {
      MatchingIs(hash, devices[..n], code, now, i);
    } else {
      NothingMatches(hash, devices[..n], code, now);
    }
  }

  function AfterExchange(hash: string -> string, devices: seq<Device>, code: string, token: string, now: Time): seq<Device> {
    var i := Matching(hash, devices, code, now);
    if i.None? then devices
    else devices[i.value := Device(None, None, Some(hash(token)), Some(now + TOKEN_TTL), None)]
  }

  function AfterRevocation(devices: seq<Device>, device: nat, now: Time): seq<Device> {
    if device < |devices| && devices[device].revokedAt.None?
    then devices[device := Device(None, None, None, None, Some(now))] else devices
  }

  function Holder(hash: string -> string, devices: seq<Device>, token: string): (i: Option<nat>)
    ensures i.Some? ==> i.value < |devices| && devices[i.value].tokenHash == Some(hash(token))
  {
    if devices == [] then None
    else
      var before := Holder(hash, devices[..|devices| - 1], token);
      if before.Some? then before
      else if devices[|devices| - 1].tokenHash == Some(hash(token)) then Some(|devices| - 1) else None
  }

  lemma {:induction false} NobodyHolds(hash: string -> string, devices: seq<Device>, token: string)
    requires forall j :: 0 <= j < |devices| ==> devices[j].tokenHash != Some(hash(token))
    ensures Holder(hash, devices, token).None?
  {
  }

  lemma {:induction false} HolderIs(hash: string -> string, devices: seq<Device>, token: string, i: nat)
    requires i < |devices| && devices[i].tokenHash == Some(hash(token))
    requires forall j :: 0 <= j < i ==> devices[j].tokenHash != Some(hash(token))
    ensures Holder(hash, devices, token) == Some(i)
  {
    var n := |devices| - 1;
    if i < n {
      HolderIs(hash, devices[..n], token, i);
    } else {
      NobodyHolds(hash, devices[..n], token);
    }
  }

  function Resolved(hash: string -> string, devices: seq<Device>, token: string, now: Time): Option<nat> {
    var i := Holder(hash, devices, token);
    if |token| >= MIN_TOKEN_LENGTH && i.Some? && StatusOf(devices[i.value], now).Paired? then i else None
  }

  // ---------------------------------------------------------------------------
  // Runs
  // ---------------------------------------------------------------------------

  datatype Step =
    | Pair(code: string, now: Time)
    | Exchange(code: string, token: string, now: Time)
    | Revoke(device: nat, now: Time)

  function Next(hash: string -> string, devices: seq<Device>, step: Step): seq<Device> {
    match step
    case Pair(code, now) => devices + [Device(Some(hash(code)), Some(now + PAIRING_TTL), None, None, None)]
    case Exchange(code, token, now) => AfterExchange(hash, devices, code, token, now)
    case Revoke(device, now) => AfterRevocation(devices, device, now)
  }

  function Run(hash: string -> string, steps: seq<Step>): seq<Device> {
    if steps == [] then [] else Next(hash, Run(hash, steps[..|steps| - 1]), steps[|steps| - 1])
  }

  /** No two pairings draw the same code. */
  ghost predicate FreshCodes(steps: seq<Step>) {
    forall i, j :: 0 <= i < j < |steps| && steps[i].Pair? && steps[j].Pair? ==> steps[i].code != steps[j].code
  }

  /** The step exchanged a code for a token. */
  ghost predicate Succeeds(hash: string -> string, steps: seq<Step>, k: nat) {
    && k < |steps| && steps[k].Exchange?
    && exists i :: 0 <= i < |Run(hash, steps[..k])| && AwaitsCode(hash, Run(hash, steps[..k])[i], steps[k].code, steps[k].now)
  }

  lemma SucceedsIs(hash: string -> string, devices: seq<Device>, code: string, now: Time)
    ensures Matching(hash, devices, code, now).Some? <==>
              exists i :: 0 <= i < |devices| && AwaitsCode(hash, devices[i], code, now)
  {
    if forall j :: 0 <= j < |devices| ==> !Exchangeable(hash, devices[j], code, now) {
      NothingMatches(hash, devices, code, now);
    } else {
      var i :| 0 <= i < |devices| && Exchangeable(hash, devices[i], code, now);
      MatchingFirst(hash, devices, code, now, i);
    }
  }

  lemma {:induction false} MatchingFirst(hash: string -> string, devices: seq<Device>, code: string, now: Time, i: nat)
    requires i < |devices| && Exchangeable(hash, devices[i], code, now)
    ensures Matching(hash, devices, code, now).Some?
  {
    if i < |devices| - 1 {
      MatchingFirst(hash, devices[..|devices| - 1], code, now, i);
    }
  }

  /** A revoked device holds nothing to present. */
  ghost predicate RevokedHoldNothing(devices: seq<Device>) {
    forall i :: 0 <= i < |devices| && devices[i].revokedAt.Some? ==>
      devices[i].tokenHash.None? && devices[i].codeHash.None?
  }

  /** Codes still waiting came from a pairing of the run, each waiting once. */
  ghost predicate CodesWaitOnce(hash: string -> string, devices: seq<Device>, steps: seq<Step>) {
    && (forall i, j :: 0 <= i < j < |devices| && devices[i].codeHash.Some? ==> devices[i].codeHash != devices[j].codeHash)
    && forall i :: 0 <= i < |devices| && devices[i].codeHash.Some? ==>
         exists k :: PairedAt(hash, devices[i], steps, k)
  }

  /** The device's code was drawn at this step, and runs out five minutes later. */
  ghost predicate PairedAt(hash: string -> string, d: Device, steps: seq<Step>, k: int) {
    && 0 <= k < |steps| && steps[k].Pair? && d.codeHash == Some(hash(steps[k].code))
    && d.codeExpires == Some(steps[k].now + 5 * 60 * 1000)
  }

  lemma {:induction false} RunIsSound(hash: string -> string, steps: seq<Step>)
    requires Injective(hash) && FreshCodes(steps)
    ensures RevokedHoldNothing(Run(hash, steps)) && CodesWaitOnce(hash, Run(hash, steps), steps)
  {
    if steps != [] {
      var n := |steps| - 1;
      var before := Run(hash, steps[..n]);
      RunIsSound(hash, steps[..n]);
      forall i | 0 <= i < |before| && before[i].codeHash.Some?
        ensures exists k :: PairedAt(hash, before[i], steps, k) && k < n
      {
        var k :| PairedAt(hash, before[i], steps[..n], k);
        assert steps[k] == steps[..n][k] && PairedAt(hash, before[i], steps, k);
      }
      if steps[n].Pair? {
        assert PairedAt(hash, Run(hash, steps)[|before|], steps, n);
      }
    }
  }

  /** No device waits for this code. */
  ghost predicate Spent(hash: string -> string, devices: seq<Device>, code: string) {
    forall i :: 0 <= i < |devices| ==> devices[i].codeHash != Some(hash(code))
  }

  lemma ExchangeSpends(hash: string -> string, steps: seq<Step>, code: string, token: string, now: Time)
    requires Injective(hash) && FreshCodes(steps) && Matching(hash, Run(hash, steps), code, now).Some?
    ensures Spent(hash, AfterExchange(hash, Run(hash, steps), code, token, now), code)
    ensures exists k :: 0 <= k < |steps| && steps[k].Pair? && steps[k].code == code && now < steps[k].now + 5 * 60 * 1000
  {
    RunIsSound(hash, steps);
    var i := Matching(hash, Run(hash, steps), code, now).value;
    var k :| PairedAt(hash, Run(hash, steps)[i], steps, k);
    assert steps[k].code == code;
  }

  /** A code is worth a token for five minutes from the pairing that drew it. */
  lemma CodeLastsFiveMinutes(hash: string -> string, steps: seq<Step>, k: nat) returns (p: nat)
    requires Injective(hash) && FreshCodes(steps) && Succeeds(hash, steps, k)
    ensures p < k && steps[p].Pair? && steps[p].code == steps[k].code && steps[k].now < steps[p].now + 5 * 60 * 1000
  {
    SucceedsIs(hash, Run(hash, steps[..k]), steps[k].code, steps[k].now);
    ExchangeSpends(hash, steps[..k], steps[k].code, steps[k].token, steps[k].now);
    p :| 0 <= p < k && steps[..k][p].Pair? && steps[..k][p].code == steps[k].code
         && steps[k].now < steps[..k][p].now + 5 * 60 * 1000;
  }

  lemma {:induction false} StaysSpent(hash: string -> string, steps: seq<Step>, j: nat, k: nat, code: string)
    requires Injective(hash) && FreshCodes(steps) && j <= k <= |steps|
    requires Spent(hash, Run(hash, steps[..j]), code)
    requires exists p :: 0 <= p < j && steps[p].Pair? && steps[p].code == code
    ensures Spent(hash, Run(hash, steps[..k]), code)
    decreases k - j
  {
    if j < k {
      StaysSpent(hash, steps, j, k - 1, code);
      assert steps[..k][..k - 1] == steps[..k - 1] && steps[..k][k - 1] == steps[k - 1];
    }
  }

  /** A pairing code is worth one token: of two exchanges that quote it, at most one succeeds. */
  lemma OneTokenPerCode(hash: string -> string, steps: seq<Step>, j: nat, k: nat)
    requires Injective(hash) && FreshCodes(steps) && j < k
    requires Succeeds(hash, steps, j) && Succeeds(hash, steps, k)
    ensures steps[j].code != steps[k].code
  {
    if steps[j].code == steps[k].code {
      SucceedsIs(hash, Run(hash, steps[..j]), steps[j].code, steps[j].now);
      SucceedsIs(hash, Run(hash, steps[..k]), steps[k].code, steps[k].now);
      ExchangeSpends(hash, steps[..j], steps[j].code, steps[j].token, steps[j].now);
      assert steps[..j + 1][..j] == steps[..j];
      var p :| 0 <= p < j && steps[..j][p].Pair? && steps[..j][p].code == steps[j].code;
      assert steps[p] == steps[..j][p];
      StaysSpent(hash, steps, j + 1, k, steps[j].code);
    }
  }

  lemma {:induction false} StaysRevoked(hash: string -> string, past: seq<Step>, future: seq<Step>, device: nat)
    requires device < |Run(hash, past)| && Run(hash, past)[device].revokedAt.Some?
    requires Run(hash, past)[device].tokenHash.None?
    ensures device < |Run(hash, past + future)|
    ensures Run(hash, past + future)[device] == Run(hash, past)[device]
  {
    if future == [] {
      assert past + future == past;
    } else {
      var n := |future| - 1;
      StaysRevoked(hash, past, future[..n], device);
      assert (past + future)[..|past + future| - 1] == past + future[..n];
    }
  }

  /** Once revoked, a device is nobody: in every continuation, no token at any time resolves to it. */
  lemma RevokedNeverResolves(
    hash: string -> string, past: seq<Step>, future: seq<Step>, device: nat, token: string, now: Time)
    requires Injective(hash) && FreshCodes(past)
    requires device < |Run(hash, past)| && Run(hash, past)[device].revokedAt.Some?
    ensures Resolved(hash, Run(hash, past + future), token, now) != Some(device)
  {
    RunIsSound(hash, past);
    StaysRevoked(hash, past, future, device);
  }

  /** A token resolves only to a device that some exchange of the run gave that very token, while it lasts. */
  lemma {:induction false} TokenWasIssued(hash: string -> string, steps: seq<Step>, token: string, device: nat)
    returns (k: nat)
    requires Injective(hash)
    requires device < |Run(hash, steps)| && Run(hash, steps)[device].tokenHash == Some(hash(token))
    ensures Succeeds(hash, steps, k) && steps[k].token == token
    ensures Run(hash, steps)[device].expires == Some(steps[k].now + 30 * 24 * 60 * 60 * 1000)
  {
    if steps != [] {
      var n := |steps| - 1;
      var before := Run(hash, steps[..n]);
      if device < |before| && before[device] == Run(hash, steps)[device] {
        k := TokenWasIssued(hash, steps[..n], token, device);
        assert steps[..n][..k] == steps[..k];
      } else {
        k := n;
        SucceedsIs(hash, before, steps[n].code, steps[n].now);
      }
    }
  }

  /** A token resolves only to a paired device that an exchange gave it to, less than 30 days before. */
  lemma ResolvedWasIssued(hash: string -> string, steps: seq<Step>, token: string, now: Time) returns (k: nat)
    requires Injective(hash) && Resolved(hash, Run(hash, steps), token, now).Some?
    ensures |token| >= 32
    ensures Succeeds(hash, steps, k) && steps[k].token == token && now < steps[k].now + 30 * 24 * 60 * 60 * 1000
  {
    k := TokenWasIssued(hash, steps, token, Resolved(hash, Run(hash, steps), token, now).value);
  }
}

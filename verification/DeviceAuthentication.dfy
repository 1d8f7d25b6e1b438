/**
  The two views of a revoked device agree: the column of its row, which the token lookup
  reads, and the set of revoked devices an application's handlers are modelled against.
*/
module DeviceAuthentication {
  import opened Common
  import opened Devices
  import Machine = ApplicationMachine
  import Commits = ApplicationCommits
  import Runs = ApplicationRuns

  function RevokedIn(devices: seq<Device>): set<nat> {
    set d | 0 <= d < |devices| && devices[d].revokedAt.Some?
  }

  /** The world's set of revoked devices is what the device table says. */
  ghost predicate Mirrors(w: Machine.World, devices: seq<Device>) {
    w.revoked == RevokedIn(devices)
  }

  /**
    Whoever a token resolves to gets past authentication in every world that mirrors the table,
    and a device the worlds count as revoked is one no token resolves to.
  */
  lemma ResolvedAuthenticates(hash: string -> string, devices: seq<Device>, token: string, now: Time, w: Machine.World)
    requires Mirrors(w, devices)
    ensures var d := Resolved(hash, devices, token, now);
            d.Some? ==> d.value < |devices| && Runs.Authenticates(w, d.value)
    ensures forall d :: d in w.revoked ==> Resolved(hash, devices, token, now) != Some(d)
  {
  }

  /** Pairing and exchanging revoke nobody; a revocation adds its device to both views alike. */
  lemma StepsMirror(hash: string -> string, devices: seq<Device>, step: Step, w: Machine.World)
    requires Mirrors(w, devices)
    ensures !step.Revoke? ==> Mirrors(w, Next(hash, devices, step))
    ensures step.Revoke? && step.device < |devices| ==>
              Mirrors(Commits.RevokeDevice(w, step.device, step.now), Next(hash, devices, step))
  {
    var after := Next(hash, devices, step);
    if step.Revoke? {
      assert forall d :: d in RevokedIn(after) <==>
               d in RevokedIn(devices) || (d == step.device && step.device < |devices|);
    } else {
      assert forall d :: d in RevokedIn(after) <==> d in RevokedIn(devices);
    }
  }

  /** Which devices the steps revoked, each while it existed. */
  ghost function RevokedBy(hash: string -> string, steps: seq<Step>): set<nat> {
    if steps == [] then {}
    else
      var n := |steps| - 1;
      RevokedBy(hash, steps[..n])
      + if steps[n].Revoke? && steps[n].device < |Run(hash, steps[..n])| then {steps[n].device} else {}
  }

  /** Over every run of the device table, the devices it shows as revoked are those some step revoked. */
  lemma {:induction false} RevokedAreThoseRevoked(hash: string -> string, steps: seq<Step>)
    ensures RevokedIn(Run(hash, steps)) == RevokedBy(hash, steps)
  {
    if steps != [] {
      var n := |steps| - 1;
      RevokedAreThoseRevoked(hash, steps[..n]);
      var w := Machine.NewApplication(RevokedIn(Run(hash, steps[..n])));
      StepsMirror(hash, Run(hash, steps[..n]), steps[n], w);
      assert steps[n].Revoke? && steps[n].device >= |Run(hash, steps[..n])| ==>
               Next(hash, Run(hash, steps[..n]), steps[n]) == Run(hash, steps[..n]);
    }
  }
}

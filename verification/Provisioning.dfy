/** From an accepted create request to a power-on that keeps stored status and processes in agreement. */
module Provisioning {
  import opened Common
  import opened NodeAgent
  import StartCommand
  import opened Lifecycle

  lemma SentIsUnique(
    env: StartCommand.Env, nics: seq<StartCommand.VmNic>, a: seq<NicConfig>, b: seq<NicConfig>)
    requires StartCommand.SentFrom(env, nics, a) && StartCommand.SentFrom(env, nics, b)
    ensures a == b
  {
    forall i | 0 <= i < |a|
      ensures a[i] == b[i]
    {
      assert StartCommand.Sent(env, i, nics[i]) == Some(a[i]) == Some(b[i]);
    }
  }

  /**
    A VM whose interfaces CreateVM built, powered on with a node at hand and the configuration
    publishVMStart sends: the power-on keeps agreement exactly when address management is configured.
    */
  lemma PowerOnIsSafeIff(
    env: StartCommand.Env, host: Host, s: State, vm: VmId, online: Option<NodeId>,
    reqs: seq<StartCommand.NicRequest>, nics: seq<StartCommand.VmNic>)
    requires env.Sane() && StartCommand.BuiltFrom(env, reqs, nics)
    requires Agreement(BootOf(host), s) && Accepted(s, PowerOn(vm, online))
    requires NodeFor(s.rows[vm], online).Some?
    requires s.rows[vm].start.Some? <==> exists out :: StartCommand.SentFrom(env, nics, out)
    requires s.rows[vm].start.Some? ==> StartCommand.SentFrom(env, nics, s.rows[vm].start.value.nics)
    ensures Agreement(BootOf(host), Next(BootOf(host), s, PowerOn(vm, online))) <==> env.ipam
  {
    var boot := BootOf(host);
    AgentRebuilds(host);
    KeepsAgreementIff(boot, s, PowerOn(vm, online));
    StartCommand.AcceptedVmStartsIff(env, host, vm, reqs, nics);
    var start := s.rows[vm].start;
    if start.Some? {
      StartsIffChecked(host, vm, start.value);
      forall out | StartCommand.SentFrom(env, nics, out)
        ensures out == start.value.nics
      {
        SentIsUnique(env, nics, out, start.value.nics);
      }
    }
  }

  /**
    What runs is what was stored: the machine started from the command for these interfaces has one QEMU
    interface for each of them, in order, with the stored MAC and on the bridge of its network.
    */
  lemma MachineHasStoredNics(
    env: StartCommand.Env, host: Host, vm: VmId, nics: seq<StartCommand.VmNic>, cfg: StartConfig)
    requires StartCommand.SentFrom(env, nics, cfg.nics) && StartSpec(host, vm, cfg).Ok?
    requires forall i :: 0 <= i < |nics| ==> nics[i].mac != ""
    ensures
      var m := StartSpec(host, vm, cfg).value.machine;
      && |m.nics| == |nics|
      && forall i :: 0 <= i < |nics| ==>
           m.nics[i].mac == nics[i].mac && Some(m.nics[i].bridge) == BridgeFor(nics[i].network)
  {
    MachineIsRequested(host, vm, cfg);
    forall i | 0 <= i < |nics|
      ensures StartCommand.SendsNic(env, i, nics[i], cfg.nics[i])
    {
      StartCommand.SentSendsNic(env, i, nics[i], cfg.nics[i]);
    }
  }

  lemma StartsIffChecked(host: Host, vm: VmId, cfg: StartConfig)
    ensures BootOf(host)(vm, cfg).Ok? <==> CheckedNics(host, vm, cfg.nics).Ok?
  {
  }
}

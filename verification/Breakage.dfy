/** Runs from an empty system in which an unsafe operation ends the agreement. */
module Breakage {
  import opened Common
  import opened NodeAgent
  import opened Lifecycle

  lemma RunSnoc(boot: Boot, run: seq<Op>, op: Op)
    ensures Exec(boot, run + [op]) == Next(boot, Exec(boot, run), op)
    ensures SafeRun(boot, run + [op]) <==> SafeRun(boot, run) && Safe(boot, Exec(boot, run), op)
  {
    assert (run + [op])[..|run + [op]| - 1] == run;
  }

  /** One unsafe operation after a safe run is enough. */
  lemma UnsafeStepBreaks(boot: Boot, run: seq<Op>, op: Op)
    requires Rebuilds(boot) && SafeRun(boot, run) && !Safe(boot, Exec(boot, run), op)
    ensures !Agreement(boot, Exec(boot, run + [op]))
  {
    SafeRunsAgree(boot, run);
    KeepsAgreementIff(boot, Exec(boot, run), op);
    RunSnoc(boot, run, op);
  }

  function Created(vm: VmId, node: Option<NodeId>, start: Option<StartConfig>): seq<Op> {
    [] + [CreateVM(vm, node, start)]
  }

  function Started(vm: VmId, node: NodeId, start: StartConfig): seq<Op> {
    Created(vm, Some(node), Some(start)) + [PowerOn(vm, None)]
  }

  lemma CreatedRow(boot: Boot, vm: VmId, node: Option<NodeId>, start: Option<StartConfig>)
    ensures SafeRun(boot, Created(vm, node, start))
    ensures Exec(boot, Created(vm, node, start)).rows == map[vm := VmRow(Creating, node, start)]
  {
    RunSnoc(boot, [], CreateVM(vm, node, start));
  }

  lemma StartedRow(boot: Boot, vm: VmId, node: NodeId, start: StartConfig)
    requires boot(vm, start).Ok?
    ensures SafeRun(boot, Started(vm, node, start))
    ensures Exec(boot, Started(vm, node, start)).rows == map[vm := VmRow(Running, Some(node), Some(start))]
  {
    CreatedRow(boot, vm, Some(node), Some(start));
    RunSnoc(boot, Created(vm, Some(node), Some(start)), PowerOn(vm, None));
  }

  /** Power-on without a node or without a configuration, and restoring a VM that is not running. */
  lemma BreakAfterCreate(boot: Boot, vm: VmId, node: NodeId, start: StartConfig)
    requires Rebuilds(boot)
    ensures !Agreement(boot, Exec(boot, Created(vm, None, Some(start)) + [PowerOn(vm, None)]))
    ensures !Agreement(boot, Exec(boot, Created(vm, Some(node), None) + [PowerOn(vm, None)]))
    ensures !Agreement(boot, Exec(boot, Created(vm, Some(node), Some(start)) + [RestoreSnapshot(vm)]))
  {
    CreatedRow(boot, vm, None, Some(start));
    CreatedRow(boot, vm, Some(node), None);
    CreatedRow(boot, vm, Some(node), Some(start));
    UnsafeStepBreaks(boot, Created(vm, None, Some(start)), PowerOn(vm, None));
    UnsafeStepBreaks(boot, Created(vm, Some(node), None), PowerOn(vm, None));
    UnsafeStepBreaks(boot, Created(vm, Some(node), Some(start)), RestoreSnapshot(vm));
  }

  /** Forced reboot and forced deletion of a running VM. */
  lemma BreakAfterStart(boot: Boot, vm: VmId, node: NodeId, start: StartConfig)
    requires Rebuilds(boot) && boot(vm, start).Ok?
    ensures !Agreement(boot, Exec(boot, Started(vm, node, start) + [RebootVM(vm, true)]))
    ensures !Agreement(boot, Exec(boot, Started(vm, node, start) + [DeleteVM(vm, true)]))
  {
    StartedRow(boot, vm, node, start);
    UnsafeStepBreaks(boot, Started(vm, node, start), RebootVM(vm, true));
    UnsafeStepBreaks(boot, Started(vm, node, start), DeleteVM(vm, true));
  }

  const NIC := NicConfig("net", "52:54:00:00:00:01", "10.0.0.2/24", "10.0.0.1", "br-net", "ens3")

  const CONFIG := StartConfig("vm", 1, 512, "", "", "", "", "", "", 0, "q35", [NIC])

  lemma ConfigStarts(host: Host, vm: VmId)
    ensures BootOf(host)(vm, CONFIG).Ok?
  {
    assert Filled(host, vm, 0, NIC) == Some(NIC);
    FilledAllWhen(host, vm, 0, CONFIG.nics);
    FilledAllAt(host, vm, 0, CONFIG.nics, 0);
    assert FilledAll(host, vm, 0, CONFIG.nics).value[0].ip != "";
  }

  /** With the real agent every breaking operation is accepted in some reachable state of agreement. */
  lemma EveryBreakHasARun(host: Host, vm: VmId, node: NodeId)
    ensures
      var boot := BootOf(host);
      && SafeRun(boot, Started(vm, node, CONFIG))
      && !Agreement(boot, Exec(boot, Created(vm, None, Some(CONFIG)) + [PowerOn(vm, None)]))
      && !Agreement(boot, Exec(boot, Created(vm, Some(node), None) + [PowerOn(vm, None)]))
      && !Agreement(boot, Exec(boot, Created(vm, Some(node), Some(CONFIG)) + [RestoreSnapshot(vm)]))
      && !Agreement(boot, Exec(boot, Started(vm, node, CONFIG) + [RebootVM(vm, true)]))
      && !Agreement(boot, Exec(boot, Started(vm, node, CONFIG) + [DeleteVM(vm, true)]))
  {
    var boot := BootOf(host);
    AgentRebuilds(host);
    ConfigStarts(host, vm);
    StartedRow(boot, vm, node, CONFIG);
    BreakAfterCreate(boot, vm, node, CONFIG);
    BreakAfterStart(boot, vm, node, CONFIG);
  }
}

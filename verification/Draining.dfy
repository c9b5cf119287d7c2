/** What the power operations come to once the node has handled its pending commands. */
module Draining {
  import opened Common
  import opened NodeAgent
  import opened Lifecycle

  /** The node handles its commands until none is left or one is not acknowledged. */
  function Drained(boot: Boot, s: State, n: NodeId): State
    decreases |s.Queue(n)|
  {
    if s.Queue(n) == [] || !Succeeds(boot, s.AgentOn(n), s.Queue(n)[0]) then s
    else Drained(boot, Next(boot, s, Deliver(n)), n)
  }

  /** In agreement every command is acknowledged, and the node ends where the replay says. */
  lemma {:induction false} DrainsToReplay(boot: Boot, s: State, n: NodeId)
    requires Clean(boot, s.AgentOn(n), s.Queue(n))
    ensures
      var d := Drained(boot, s, n);
      d.rows == s.rows && d.Queue(n) == [] && d.AgentOn(n) == s.Eventually(boot, n)
    decreases |s.Queue(n)|
  {
    if s.Queue(n) != [] {
      ReplayHead(boot, s.AgentOn(n), s.Queue(n));
      DrainsToReplay(boot, Next(boot, s, Deliver(n)), n);
    }
  }

  /** A row update with a command, drained: the command's effect comes after all that was pending. */
  lemma SentThenDrained(boot: Boot, s: State, vm: VmId, row: VmRow, n: NodeId, c: Command)
    requires NodeAgrees(boot, s, n) && Succeeds(boot, s.Eventually(boot, n), c)
    ensures
      var d := Drained(boot, s.WithRow(vm, row).Sent(n, c), n);
      d.rows == s.rows[vm := row] && d.Queue(n) == [] && d.AgentOn(n) == Effect(boot, s.Eventually(boot, n), c)
  {
    var s' := s.WithRow(vm, row).Sent(n, c);
    ReplaySnoc(boot, s.AgentOn(n), s.Queue(n), c);
    DrainsToReplay(boot, s', n);
  }

  ghost predicate OthersSame(before: Vms, after: Vms, vm: VmId) {
    forall v :: v != vm ==> On(after, v) == On(before, v)
  }

  // ---------------------------------------------------------------- one operation on a node in agreement

  lemma PowerOffDrains(boot: Boot, s: State, vm: VmId, n: NodeId, force: bool)
    requires NodeAgrees(boot, s, n)
    requires vm in s.rows && s.rows[vm].status == Running && s.rows[vm].node == Some(n)
    ensures
      var d := Drained(boot, Next(boot, s, PowerOff(vm, force)), n);
      && vm in d.rows && d.rows[vm].status == Stopped
      && On(d.AgentOn(n), vm) == AgentVm(None, None)
      && OthersSame(s.Eventually(boot, n), d.AgentOn(n), vm)
  {
    assert ShouldRun(s, n, vm);
    SentThenDrained(boot, s, vm, s.rows[vm].(status := Stopped), n, Stop(vm, force));
  }

  ghost predicate AtRest(row: VmRow, n: NodeId, online: Option<NodeId>) {
    && row.status in {Stopped, Paused, Creating}
    && (row.node == Some(n) || (row.node.None? && online == Some(n)))
  }

  lemma PowerOnDrains(boot: Boot, s: State, vm: VmId, n: NodeId, online: Option<NodeId>)
    requires NodeAgrees(boot, s, n)
    requires vm in s.rows && AtRest(s.rows[vm], n, online)
    requires s.rows[vm].start.Some? && boot(vm, s.rows[vm].start.value).Ok?
    ensures
      var d := Drained(boot, Next(boot, s, PowerOn(vm, online)), n);
      && vm in d.rows && d.rows[vm].status == Running && d.rows[vm].node == Some(n)
      && On(d.AgentOn(n), vm).process == Some(boot(vm, s.rows[vm].start.value).value.machine)
      && OthersSame(s.Eventually(boot, n), d.AgentOn(n), vm)
  {
    var start := s.rows[vm].start.value;
    SentThenDrained(boot, s, vm, s.rows[vm].(status := Running, node := Some(n)), n, Start(vm, start));
  }

  lemma RebootDrains(boot: Boot, s: State, vm: VmId, n: NodeId)
    requires NodeAgrees(boot, s, n)
    requires vm in s.rows && s.rows[vm].status == Running && s.rows[vm].node == Some(n)
    ensures
      var d := Drained(boot, Next(boot, s, RebootVM(vm, false)), n);
      && vm in d.rows && d.rows[vm].status == Running
      && Alive(d.AgentOn(n), vm)
      && d.AgentOn(n) == s.Eventually(boot, n)
  {
    assert ShouldRun(s, n, vm);
    SentThenDrained(boot, s, vm, s.rows[vm].(status := Running), n, Reboot(vm, false));
  }

  // ---------------------------------------------------------------- after every safe run

  lemma NodesAgree(host: Host, run: seq<Op>, n: NodeId)
    requires SafeRun(BootOf(host), run)
    ensures NodeAgrees(BootOf(host), Exec(BootOf(host), run), n)
  {
    AgentRebuilds(host);
    SafeRunsAgree(BootOf(host), run);
  }

  /** A power-off of a running VM, forced or not, is carried out: stored as stopped, no process left. */
  lemma PowerOffStops(host: Host, run: seq<Op>, s: State, vm: VmId, n: NodeId, force: bool)
    requires SafeRun(BootOf(host), run) && s == Exec(BootOf(host), run)
    requires vm in s.rows && s.rows[vm].status == Running && s.rows[vm].node == Some(n)
    ensures
      var d := Drained(BootOf(host), Next(BootOf(host), s, PowerOff(vm, force)), n);
      && vm in d.rows && d.rows[vm].status == Stopped
      && On(d.AgentOn(n), vm) == AgentVm(None, None)
      && OthersSame(s.Eventually(BootOf(host), n), d.AgentOn(n), vm)
  {
    NodesAgree(host, run, n);
    PowerOffDrains(BootOf(host), s, vm, n, force);
  }

  /** A power-on of a VM at rest with a startable configuration is carried out: what it asks for runs. */
  lemma PowerOnStarts(host: Host, run: seq<Op>, s: State, vm: VmId, n: NodeId, online: Option<NodeId>)
    requires SafeRun(BootOf(host), run) && s == Exec(BootOf(host), run)
    requires vm in s.rows && AtRest(s.rows[vm], n, online)
    requires s.rows[vm].start.Some? && StartSpec(host, vm, s.rows[vm].start.value).Ok?
    ensures
      var d := Drained(BootOf(host), Next(BootOf(host), s, PowerOn(vm, online)), n);
      && vm in d.rows && d.rows[vm].status == Running && d.rows[vm].node == Some(n)
      && Alive(d.AgentOn(n), vm)
      && Requested(host, vm, s.rows[vm].start.value, On(d.AgentOn(n), vm).process.value)
      && OthersSame(s.Eventually(BootOf(host), n), d.AgentOn(n), vm)
  {
    NodesAgree(host, run, n);
    assert BootOf(host)(vm, s.rows[vm].start.value) == StartSpec(host, vm, s.rows[vm].start.value);
    PowerOnDrains(BootOf(host), s, vm, n, online);
    MachineIsRequested(host, vm, s.rows[vm].start.value);
  }

  /** An unforced reboot of a running VM leaves every machine of the node as it was. */
  lemma RebootKeepsMachine(host: Host, run: seq<Op>, s: State, vm: VmId, n: NodeId)
    requires SafeRun(BootOf(host), run) && s == Exec(BootOf(host), run)
    requires vm in s.rows && s.rows[vm].status == Running && s.rows[vm].node == Some(n)
    ensures
      var d := Drained(BootOf(host), Next(BootOf(host), s, RebootVM(vm, false)), n);
      && vm in d.rows && d.rows[vm].status == Running
      && Alive(d.AgentOn(n), vm)
      && d.AgentOn(n) == s.Eventually(BootOf(host), n)
  {
    NodesAgree(host, run, n);
    RebootDrains(BootOf(host), s, vm, n);
  }
}

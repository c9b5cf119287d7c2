/**
  VM power state across the control plane, the per-node command queues and the node agents.

  The central statement is agreement: on every node, replaying the pending commands leaves a
  process alive for exactly the VMs stored as running on that node. Each operation is given with
  the exact condition under which it keeps agreement.
  */
module Lifecycle {
  import opened Common
  import opened NodeAgent

  type NodeId = string

  /** What starting a VM from a configuration leads to; the agent's StartVM is one such function. */
  type Boot = (VmId, StartConfig) -> Result<Started, StartError>

  function BootOf(host: Host): Boot {
    (vm, cfg) => StartSpec(host, vm, cfg)
  }

  /** Starting again from the vm.json of a start leads to the same machine and the same vm.json. */
  ghost predicate Rebuilds(boot: Boot) {
    forall vm, cfg :: boot(vm, cfg).Ok? ==> boot(vm, Loaded(boot(vm, cfg).value.json)) == boot(vm, cfg)
  }

  lemma AgentRebuilds(host: Host)
    ensures Rebuilds(BootOf(host))
  {
    forall vm, cfg | BootOf(host)(vm, cfg).Ok?
      ensures BootOf(host)(vm, Loaded(BootOf(host)(vm, cfg).value.json)) == BootOf(host)(vm, cfg)
    {
      RecoveryRebuildsMachine(host, vm, cfg);
    }
  }

  // ---------------------------------------------------------------- node agent

  /** What a node holds for one VM: the QEMU process and the persisted vm.json. */
  datatype AgentVm = AgentVm(process: Option<QemuConfig>, json: Option<JsonObject>)

  type Vms = map<VmId, AgentVm>

  datatype Command = Start(vm: VmId, config: StartConfig) | Stop(vm: VmId, force: bool) | Reboot(vm: VmId, force: bool)

  function On(vms: Vms, vm: VmId): AgentVm {
    if vm in vms then vms[vm] else AgentVm(None, None)
  }

  predicate Alive(vms: Vms, vm: VmId) {
    On(vms, vm).process.Some?
  }

  /** The command would be acknowledged. */
  predicate Succeeds(boot: Boot, vms: Vms, c: Command) {
    match c
    case Start(vm, cfg) => boot(vm, cfg).Ok?
    case Stop(vm, _) => true
    case Reboot(vm, force) => Alive(vms, vm) && !force
  }

  /** The effect of a command on the node, acknowledged or not. */
  function Effect(boot: Boot, vms: Vms, c: Command): Vms {
    match c
    case Start(vm, cfg) =>
      (match boot(vm, cfg)
       case Err(_) => vms
       case Ok(s) => vms[vm := AgentVm(Some(s.machine), Some(s.json))])
    case Stop(vm, _) =>
      // A stopped VM is left alone, including a vm.json that may still be there.
      if Alive(vms, vm) then vms[vm := AgentVm(None, None)] else vms
    case Reboot(vm, force) =>
      // A forced reboot quits QEMU and reports that a restart would be needed.
      if Alive(vms, vm) && force then vms[vm := On(vms, vm).(process := None)] else vms
  }

  function Replay(boot: Boot, vms: Vms, queue: seq<Command>): Vms {
    if queue == [] then vms else Effect(boot, Replay(boot, vms, queue[..|queue| - 1]), queue[|queue| - 1])
  }

  /** Every pending command will be acknowledged on first delivery. */
  predicate Clean(boot: Boot, vms: Vms, queue: seq<Command>) {
    queue == [] ||
    (Clean(boot, vms, queue[..|queue| - 1])
        && Succeeds(boot, Replay(boot, vms, queue[..|queue| - 1]), queue[|queue| - 1]))
  }

  lemma ReplaySnoc(boot: Boot, vms: Vms, queue: seq<Command>, c: Command)
    ensures Replay(boot, vms, queue + [c]) == Effect(boot, Replay(boot, vms, queue), c)
    ensures Clean(boot, vms, queue + [c]) <==> Clean(boot, vms, queue) && Succeeds(boot, Replay(boot, vms, queue), c)
  {
    assert (queue + [c])[..|queue + [c]| - 1] == queue;
  }

  /** Delivering the head of the queue does not change where the replay ends. */
  lemma {:induction false} ReplayHead(boot: Boot, vms: Vms, queue: seq<Command>)
    requires queue != []
    ensures Replay(boot, vms, queue) == Replay(boot, Effect(boot, vms, queue[0]), queue[1..])
    ensures Clean(boot, vms, queue) <==>
        Succeeds(boot, vms, queue[0]) && Clean(boot, Effect(boot, vms, queue[0]), queue[1..])
    decreases |queue|
  {
    var last := |queue| - 1;
    if last == 0 {
      assert queue[..0] == [] && queue[1..] == [];
    } else {
      ReplayHead(boot, vms, queue[..last]);
      assert queue[..last][1..] == queue[1..][..last - 1];
      assert queue[..last][0] == queue[0];
    }
  }

  /** A process is alive exactly when there is a vm.json, and it is the one recovery would build. */
  ghost predicate RecoverableVm(boot: Boot, vm: VmId, v: AgentVm) {
    match v.json
    case None => v.process.None?
    case Some(j) => v.process.Some? && boot(vm, Loaded(j)) == Ok(Started(v.process.value, j))
  }

  ghost predicate Recoverable(boot: Boot, vms: Vms) {
    forall vm :: vm in vms ==> RecoverableVm(boot, vm, vms[vm])
  }

  lemma EffectKeepsRecoverable(boot: Boot, vms: Vms, c: Command)
    requires Rebuilds(boot) && Recoverable(boot, vms) && Succeeds(boot, vms, c)
    ensures Recoverable(boot, Effect(boot, vms, c))
  {
    if c.Start? {
      var started := boot(c.vm, c.config).value;
      assert RecoverableVm(boot, c.vm, AgentVm(Some(started.machine), Some(started.json)));
    } else {
      assert RecoverableVm(boot, c.vm, AgentVm(None, None));
    }
  }

  /** The host dies and comes back: no process survives, vm.json files do. */
  function Crashed(vms: Vms): Vms {
    map vm | vm in vms :: vms[vm].(process := None)
  }

  function RecoverOne(boot: Boot, vm: VmId, v: AgentVm): AgentVm {
    if v.json.None? || v.process.Some? then v
    else
      match boot(vm, Loaded(v.json.value))
      case Err(_) => v
      case Ok(s) => AgentVm(Some(s.machine), Some(s.json))
  }

  function Recovered(boot: Boot, vms: Vms): Vms {
    map vm | vm in vms :: RecoverOne(boot, vm, vms[vm])
  }

  lemma RecoverOneRestores(boot: Boot, vm: VmId, v: AgentVm)
    requires RecoverableVm(boot, vm, v)
    ensures RecoverOne(boot, vm, v.(process := None)) == v
  {
  }

  /** A machine with a vm.json and no process is started as its vm.json says, if that can be; all else stays. */
  ghost predicate RecoversRightly(host: Host, vm: VmId, before: AgentVm, after: AgentVm) {
    if before.process.None? && before.json.Some? && StartSpec(host, vm, Loaded(before.json.value)).Ok?
    then after.process.Some? && after.json.Some? && Requested(host, vm, Loaded(before.json.value), after.process.value)
    else after == before
  }

  lemma RecoverOneIsRight(host: Host, vm: VmId, v: AgentVm)
    ensures RecoversRightly(host, vm, v, RecoverOne(BootOf(host), vm, v))
  {
    if v.json.Some? && StartSpec(host, vm, Loaded(v.json.value)).Ok? {
      MachineIsRequested(host, vm, Loaded(v.json.value));
    }
  }

  /** A crash followed by a completed recovery gives back the very same machines. */
  lemma CrashThenRecoverIsIdentity(boot: Boot, vms: Vms)
    requires Recoverable(boot, vms)
    ensures Recovered(boot, Crashed(vms)) == vms
    ensures forall vm :: !Alive(Crashed(vms), vm) && On(Crashed(vms), vm).json == On(vms, vm).json
  {
    forall vm | vm in vms
      ensures RecoverOne(boot, vm, Crashed(vms)[vm]) == vms[vm]
    {
      RecoverOneRestores(boot, vm, vms[vm]);
    }
  }

  /** The agent as an object that handles commands and recovers after a restart. */
  class Agent {
    const host: Host
    var vms: Vms

    constructor (host: Host)
      ensures vms == map[] && this.host == host
    {
      this.host := host;
      vms := map[];
    }

    /** handleCommand; the result tells whether the message is acknowledged. */
    method HandleCommand(c: Command) returns (ack: bool)
      modifies this`vms
      ensures vms == Effect(BootOf(host), old(vms), c)
      ensures forall v :: v != c.vm ==> On(vms, v) == On(old(vms), v)
      // Start: the requested machine runs and is recorded, or nothing changes.
      ensures c.Start? && ack ==>
                && Alive(vms, c.vm) && Requested(host, c.vm, c.config, On(vms, c.vm).process.value)
                && On(vms, c.vm).json.Some?
      ensures c.Start? && !ack ==> vms == old(vms)
      ensures c.Start? ==> (ack <==> StartSpec(host, c.vm, c.config).Ok?)
      // Stop: never refused; a running machine is gone together with its vm.json.
      ensures c.Stop? ==> ack && !Alive(vms, c.vm)
      ensures c.Stop? ==> On(vms, c.vm).json == if Alive(old(vms), c.vm) then None else On(old(vms), c.vm).json
      // Reboot: acknowledged only unforced and running, and then it is the same machine.
      ensures c.Reboot? ==> (ack <==> Alive(old(vms), c.vm) && !c.force)
      ensures c.Reboot? ==> On(vms, c.vm).json == On(old(vms), c.vm).json
      ensures c.Reboot? ==>
                On(vms, c.vm).process == if c.force then None else On(old(vms), c.vm).process
      ensures ack <==> Succeeds(BootOf(host), old(vms), c)
    {
      match c {
        case Start(vm, cfg) =>
          var ref := new ConfigRef(cfg);
          var r := StartVM(host, vm, ref);
          if r.Ok? {
            vms := vms[vm := AgentVm(Some(r.value.machine), Some(r.value.json))];
          }
          ack := r.Ok?;
        case Stop(vm, force) =>
          if Alive(vms, vm) {
            vms := vms[vm := AgentVm(None, None)];
          }
          ack := true;
        case Reboot(vm, force) =>
          if !Alive(vms, vm) {
            return false;
          }
          if force {
            vms := vms[vm := vms[vm].(process := None)];
          }
          ack := !force;
      }
    }

    /** The body of RecoverVMs for one VM directory. */
    method RecoverVM(vm: VmId)
      requires vm in vms
      modifies this`vms
      ensures vms == old(vms)[vm := RecoverOne(BootOf(host), vm, old(vms)[vm])]
    {
      if vms[vm].json.Some? && vms[vm].process.None? {
        var ref := new ConfigRef(Loaded(vms[vm].json.value));
        var r := StartVM(host, vm, ref);
        if r.Ok? {
          vms := vms[vm := AgentVm(Some(r.value.machine), Some(r.value.json))];
        }
      }
    }

    /** RecoverVMs walks the VM directories once. */
    method RecoverVMs()
      modifies this`vms
      ensures vms == Recovered(BootOf(host), old(vms))
      ensures vms.Keys == old(vms).Keys
      ensures forall vm :: vm in old(vms) ==> RecoversRightly(host, vm, old(vms)[vm], vms[vm])
    {
      ghost var before := vms;
      var todo := vms.Keys;
      while todo != {}
        invariant vms.Keys == before.Keys && todo <= before.Keys
        invariant forall vm :: vm in before && vm in todo ==> vms[vm] == before[vm]
        invariant forall vm :: vm in before && vm !in todo ==> vms[vm] == RecoverOne(BootOf(host), vm, before[vm])
        decreases |todo|
      {
        var vm :| vm in todo;
        todo := todo - {vm};
        RecoverVM(vm);
      }
      forall vm | vm in before
        ensures RecoversRightly(host, vm, before[vm], vms[vm])
      {
        RecoverOneIsRight(host, vm, before[vm]);
      }
    }
  }

  // ---------------------------------------------------------------- control plane

  datatype VmStatus = Creating | Running | Stopped | Paused | Rebooting | ShuttingDown | ErrorStatus

  /** A stored VM. `start` is the configuration publishVMStart would send, if it can build one. */
  datatype VmRow = VmRow(status: VmStatus, node: Option<NodeId>, start: Option<StartConfig>)

  datatype State = State(rows: map<VmId, VmRow>, queues: map<NodeId, seq<Command>>, agents: map<NodeId, Vms>) {
    function Queue(n: NodeId): seq<Command> {
      if n in queues then queues[n] else []
    }

    function AgentOn(n: NodeId): Vms {
      if n in agents then agents[n] else map[]
    }

    function Sent(n: NodeId, c: Command): State {
      this.(queues := queues[n := Queue(n) + [c]])
    }

    function WithRow(vm: VmId, r: VmRow): State {
      this.(rows := rows[vm := r])
    }

    /** The node's VMs once every pending command has been handled. */
    function Eventually(boot: Boot, n: NodeId): Vms {
      Replay(boot, AgentOn(n), Queue(n))
    }
  }

  datatype Op =
    | CreateVM(vm: VmId, node: Option<NodeId>, start: Option<StartConfig>)
    | PowerOn(vm: VmId, online: Option<NodeId>)
    | PowerOff(vm: VmId, force: bool)
    | RebootVM(vm: VmId, force: bool)
    | RestoreSnapshot(vm: VmId)
    | DeleteVM(vm: VmId, force: bool)
    | Deliver(at: NodeId)
    | CrashAndRecover(at: NodeId)

  /** The guard each service operation puts on the stored status. */
  predicate Accepted(s: State, op: Op) {
    match op
    case CreateVM(vm, _, _) => vm !in s.rows
    case PowerOn(vm, _) => vm in s.rows && s.rows[vm].status in {Stopped, Paused, Creating}
    case PowerOff(vm, force) => vm in s.rows && (s.rows[vm].status in {Running, Paused} || force)
    case RebootVM(vm, force) => vm in s.rows && (s.rows[vm].status == Running || force)
    case RestoreSnapshot(vm) => vm in s.rows
    case DeleteVM(vm, force) => vm in s.rows && (force || s.rows[vm].status == Stopped)
    case Deliver(n) => s.Queue(n) != []
    case CrashAndRecover(_) => true
  }

  /** The node PowerOn uses: the assigned one, or the first of the node list. */
  function NodeFor(row: VmRow, online: Option<NodeId>): Option<NodeId> {
    if row.node.Some? then row.node else online
  }

  function Next(boot: Boot, s: State, op: Op): State {
    if !Accepted(s, op) then s
    else
      match op
      case CreateVM(vm, node, start) => s.WithRow(vm, VmRow(Creating, node, start))
      case PowerOn(vm, online) =>
        var row := s.rows[vm];
        var node := NodeFor(row, online);
        var s' := s.WithRow(vm, row.(status := Running, node := node));
        if node.Some? && row.start.Some? then s'.Sent(node.value, Start(vm, row.start.value)) else s'
      case PowerOff(vm, force) =>
        var row := s.rows[vm];
        var s' := s.WithRow(vm, row.(status := Stopped));
        if row.node.Some? then s'.Sent(row.node.value, Stop(vm, force)) else s'
      case RebootVM(vm, force) =>
        var row := s.rows[vm];
        var s' := s.WithRow(vm, row.(status := Running));
        if row.node.Some? then s'.Sent(row.node.value, Reboot(vm, force)) else s'
      case RestoreSnapshot(vm) => s.WithRow(vm, s.rows[vm].(status := Running))
      case DeleteVM(vm, _) => s.(rows := s.rows - {vm})
      case Deliver(n) =>
        // A failed command is not acknowledged and stays in front.
        var c := s.Queue(n)[0];
        var s' := s.(agents := s.agents[n := Effect(boot, s.AgentOn(n), c)]);
        if Succeeds(boot, s.AgentOn(n), c) then s'.(queues := s.queues[n := s.Queue(n)[1..]]) else s'
      case CrashAndRecover(n) =>
        s.(agents := s.agents[n := Recovered(boot, Crashed(s.AgentOn(n)))])
  }

  /** The queues after publishing a command to a node. */
  function Pushed(queues: map<NodeId, seq<Command>>, n: NodeId, c: Command): map<NodeId, seq<Command>> {
    queues[n := (if n in queues then queues[n] else []) + [c]]
  }

  /** The service object; its methods write the status before and after publishing. */
  class ControlPlane {
    var rows: map<VmId, VmRow>
    var queues: map<NodeId, seq<Command>>

    constructor ()
      ensures rows == map[] && queues == map[]
    {
      rows, queues := map[], map[];
    }

    ghost function View(agents: map<NodeId, Vms>): State
      reads this
    {
      State(rows, queues, agents)
    }

    method UpdateStatus(vm: VmId, status: VmStatus)
      requires vm in rows
      modifies this`rows
      ensures rows == old(rows)[vm := old(rows)[vm].(status := status)]
    {
      rows := rows[vm := rows[vm].(status := status)];
    }

    method Publish(n: NodeId, c: Command)
      modifies this`queues
      ensures queues == Pushed(old(queues), n, c)
    {
      var queue := if n in queues then queues[n] else [];
      queues := queues[n := queue + [c]];
    }

    method PowerOn(
      vm: VmId, online: Option<NodeId>, ghost boot: Boot, ghost agents: map<NodeId, Vms>) returns (ok: bool)
      modifies this
      ensures ok <==> Accepted(old(View(agents)), Op.PowerOn(vm, online))
      ensures ok <==> vm in old(rows) && old(rows)[vm].status in {Stopped, Paused, Creating}
      ensures !ok ==> rows == old(rows) && queues == old(queues)
      ensures ok ==>
                var row := old(rows)[vm];
                var node := if row.node.Some? then row.node else online;
                && rows == old(rows)[vm := VmRow(Running, node, row.start)]
                && queues == (if node.Some? && row.start.Some?
                              then Pushed(old(queues), node.value, Start(vm, row.start.value)) else old(queues))
      ensures View(agents) == Next(boot, old(View(agents)), Op.PowerOn(vm, online))
    {
      if vm !in rows || rows[vm].status !in {Stopped, Paused, Creating} {
        return false;
      }
      if rows[vm].node.None? && online.Some? {
        rows := rows[vm := rows[vm].(node := online)];
      }
      UpdateStatus(vm, Running);
      if rows[vm].node.Some? && rows[vm].start.Some? {
        Publish(rows[vm].node.value, Start(vm, rows[vm].start.value));
      }
      ok := true;
    }

    method PowerOff(vm: VmId, force: bool, ghost boot: Boot, ghost agents: map<NodeId, Vms>) returns (ok: bool)
      modifies this
      ensures ok <==> Accepted(old(View(agents)), Op.PowerOff(vm, force))
      ensures ok <==> vm in old(rows) && (old(rows)[vm].status == Running || old(rows)[vm].status == Paused || force)
      ensures !ok ==> rows == old(rows) && queues == old(queues)
      ensures ok ==>
                var row := old(rows)[vm];
                && rows == old(rows)[vm := VmRow(Stopped, row.node, row.start)]
                && queues == (if row.node.Some?
                              then Pushed(old(queues), row.node.value, Stop(vm, force)) else old(queues))
      ensures View(agents) == Next(boot, old(View(agents)), Op.PowerOff(vm, force))
    {
      if vm !in rows || (rows[vm].status != Running && rows[vm].status != Paused && !force) {
        return false;
      }
      UpdateStatus(vm, ShuttingDown);
      if rows[vm].node.Some? {
        Publish(rows[vm].node.value, Stop(vm, force));
      }
      UpdateStatus(vm, Stopped);
      assert rows == old(rows)[vm := old(rows)[vm].(status := Stopped)];
      ok := true;
    }

    method Reboot(vm: VmId, force: bool, ghost boot: Boot, ghost agents: map<NodeId, Vms>) returns (ok: bool)
      modifies this
      ensures ok <==> Accepted(old(View(agents)), RebootVM(vm, force))
      ensures ok <==> vm in old(rows) && (old(rows)[vm].status == Running || force)
      ensures !ok ==> rows == old(rows) && queues == old(queues)
      ensures ok ==>
                var row := old(rows)[vm];
                && rows == old(rows)[vm := VmRow(Running, row.node, row.start)]
                && queues == (if row.node.Some?
                              then Pushed(old(queues), row.node.value, Command.Reboot(vm, force)) else old(queues))
      ensures View(agents) == Next(boot, old(View(agents)), RebootVM(vm, force))
    {
      if vm !in rows || (rows[vm].status != Running && !force) {
        return false;
      }
      UpdateStatus(vm, Rebooting);
      if rows[vm].node.Some? {
        Publish(rows[vm].node.value, Command.Reboot(vm, force));
      }
      UpdateStatus(vm, Running);
      assert rows == old(rows)[vm := old(rows)[vm].(status := Running)];
      ok := true;
    }

    /** DeleteVM sends no command, whatever still runs. */
    method Delete(vm: VmId, force: bool, ghost boot: Boot, ghost agents: map<NodeId, Vms>) returns (ok: bool)
      modifies this`rows
      ensures ok <==> vm in old(rows) && (force || old(rows)[vm].status == Stopped)
      ensures rows == if ok then old(rows) - {vm} else old(rows)
      ensures View(agents) == Next(boot, old(View(agents)), DeleteVM(vm, force))
    {
      if vm !in rows || (!force && rows[vm].status != Stopped) {
        return false;
      }
      rows := rows - {vm};
      ok := true;
    }

    /** RestoreSnapshot of a snapshot of this VM writes two statuses and sends no command. */
    method Restore(vm: VmId, ghost boot: Boot, ghost agents: map<NodeId, Vms>) returns (ok: bool)
      modifies this`rows
      ensures ok <==> vm in old(rows)
      ensures ok ==> rows == old(rows)[vm := VmRow(Running, old(rows)[vm].node, old(rows)[vm].start)]
      ensures !ok ==> rows == old(rows)
      ensures View(agents) == Next(boot, old(View(agents)), RestoreSnapshot(vm))
    {
      if vm !in rows {
        return false;
      }
      UpdateStatus(vm, Stopped);
      UpdateStatus(vm, Running);
      assert rows == old(rows)[vm := old(rows)[vm].(status := Running)];
      ok := true;
    }
  }

  ghost predicate ShouldRun(s: State, n: NodeId, vm: VmId) {
    vm in s.rows && s.rows[vm].node == Some(n) && s.rows[vm].status == Running
  }

  ghost predicate NodeAgrees(boot: Boot, s: State, n: NodeId) {
    && Recoverable(boot, s.AgentOn(n))
    && Clean(boot, s.AgentOn(n), s.Queue(n))
    && forall vm :: Alive(s.Eventually(boot, n), vm) <==> ShouldRun(s, n, vm)
  }

  /** Stored status and node state agree once the queues have drained. */
  ghost predicate Agreement(boot: Boot, s: State) {
    && (forall n :: NodeAgrees(boot, s, n))
    && (forall vm :: vm in s.rows && s.rows[vm].status == Running ==> s.rows[vm].node.Some?)
  }

  /** What a caller can check before the call: the operation will keep agreement. */
  predicate Safe(boot: Boot, s: State, op: Op) {
    Accepted(s, op) ==>
      match op
      case PowerOn(vm, online) =>
        && NodeFor(s.rows[vm], online).Some?
        && s.rows[vm].start.Some?
        && boot(vm, s.rows[vm].start.value).Ok?
      case RebootVM(_, force) => !force
      case RestoreSnapshot(vm) => s.rows[vm].status == Running
      case DeleteVM(vm, _) => s.rows[vm].status != Running
      case _ => true
  }

  /** A node whose queue, VMs and expectations are untouched still agrees. */
  lemma OtherNodesUnmoved(boot: Boot, s: State, s': State, n: NodeId)
    requires NodeAgrees(boot, s, n)
    requires s'.AgentOn(n) == s.AgentOn(n) && s'.Queue(n) == s.Queue(n)
    requires forall v :: ShouldRun(s', n, v) <==> ShouldRun(s, n, v)
    ensures NodeAgrees(boot, s', n)
  {
  }

  /** When only one node is touched, agreement everywhere is agreement there. */
  lemma OnlyOneNodeMoves(boot: Boot, s: State, s': State, n: NodeId)
    requires forall m :: NodeAgrees(boot, s, m)
    requires forall m :: m != n ==> s'.AgentOn(m) == s.AgentOn(m) && s'.Queue(m) == s.Queue(m)
    requires forall m, v :: m != n ==> (ShouldRun(s', m, v) <==> ShouldRun(s, m, v))
    ensures (forall m :: NodeAgrees(boot, s', m)) <==> NodeAgrees(boot, s', n)
  {
    forall m | m != n
      ensures NodeAgrees(boot, s', m)
    {
      OtherNodesUnmoved(boot, s, s', m);
    }
  }

  /** Whether the VM a command names is alive afterwards. */
  predicate AliveAfter(boot: Boot, vms: Vms, c: Command) {
    match c
    case Start(vm, cfg) => boot(vm, cfg).Ok? || Alive(vms, vm)
    case Stop(vm, _) => false
    case Reboot(vm, force) => Alive(vms, vm) && !force
  }

  lemma EffectOnAlive(boot: Boot, vms: Vms, c: Command)
    ensures Alive(Effect(boot, vms, c), c.vm) <==> AliveAfter(boot, vms, c)
    ensures forall v :: v != c.vm ==> (Alive(Effect(boot, vms, c), v) <==> Alive(vms, v))
  {
  }

  /** Sending a command to a node keeps the node in agreement exactly when the command will
      succeed and leaves its VM as the stored status says. */
  lemma SentKeepsIff(boot: Boot, s: State, s': State, n: NodeId, c: Command)
    requires NodeAgrees(boot, s, n)
    requires s'.AgentOn(n) == s.AgentOn(n) && s'.Queue(n) == s.Queue(n) + [c]
    requires forall v :: v != c.vm ==> (ShouldRun(s', n, v) <==> ShouldRun(s, n, v))
    ensures NodeAgrees(boot, s', n) <==>
            && Succeeds(boot, s.Eventually(boot, n), c)
            && (AliveAfter(boot, s.Eventually(boot, n), c) <==> ShouldRun(s', n, c.vm))
  {
    ReplaySnoc(boot, s.AgentOn(n), s.Queue(n), c);
    EffectOnAlive(boot, s.Eventually(boot, n), c);
  }

  /** The row keeps its node, or gets its first one. */
  predicate StaysPut(s: State, vm: VmId, row: VmRow) {
    vm in s.rows && (s.rows[vm].node.None? || row.node == s.rows[vm].node)
  }

  /** A row update with a command to the VM's node: how the parts of the state move. */
  lemma RowAndSend(s: State, vm: VmId, row: VmRow, n: NodeId, c: Command)
    requires StaysPut(s, vm, row) && row.node == Some(n)
    ensures
      var s' := s.WithRow(vm, row).Sent(n, c);
      && (forall m :: s'.AgentOn(m) == s.AgentOn(m))
      && s'.Queue(n) == s.Queue(n) + [c]
      && (forall m :: m != n ==> s'.Queue(m) == s.Queue(m))
      && (forall m, v :: v != vm || m != n ==> (ShouldRun(s', m, v) <==> ShouldRun(s, m, v)))
      && (ShouldRun(s', n, vm) <==> row.status == Running)
  {
  }

  /** A row update with a command keeps agreement exactly when the command will succeed and
      brings the VM into the state the row says. */
  lemma SendKeepsIff(boot: Boot, s: State, vm: VmId, row: VmRow, n: NodeId, c: Command)
    requires Agreement(boot, s) && StaysPut(s, vm, row) && row.node == Some(n) && c.vm == vm
    ensures Agreement(boot, s.WithRow(vm, row).Sent(n, c)) <==>
            && Succeeds(boot, s.Eventually(boot, n), c)
            && (AliveAfter(boot, s.Eventually(boot, n), c) <==> row.status == Running)
  {
    var s' := s.WithRow(vm, row).Sent(n, c);
    RowAndSend(s, vm, row, n, c);
    assert NodeAgrees(boot, s, n);
    SentKeepsIff(boot, s, s', n, c);
    OnlyOneNodeMoves(boot, s, s', n);
    assert forall v :: v in s'.rows && v != vm ==> s'.rows[v] == s.rows[v];
  }

  /** A row update without a command keeps agreement exactly when it does not change whether the
      VM is stored as running. */
  lemma RowAloneKeepsIff(boot: Boot, s: State, vm: VmId, row: VmRow)
    requires Agreement(boot, s) && StaysPut(s, vm, row)
    ensures Agreement(boot, s.WithRow(vm, row)) <==> (row.status == Running <==> s.rows[vm].status == Running)
  {
    var s', old' := s.WithRow(vm, row), s.rows[vm];
    if row.status == Running <==> old'.status == Running {
      forall m
        ensures NodeAgrees(boot, s', m)
      {
        OtherNodesUnmoved(boot, s, s', m);
      }
    } else if row.node.Some? {
      var n := row.node.value;
      assert NodeAgrees(boot, s, n);
      assert ShouldRun(s', n, vm) <==> !ShouldRun(s, n, vm);
      assert s'.Eventually(boot, n) == s.Eventually(boot, n);
      assert !NodeAgrees(boot, s', n);
    } else {
      assert s'.rows[vm] == row;
    }
  }

  lemma PowerOnKeepsIff(boot: Boot, s: State, vm: VmId, online: Option<NodeId>)
    requires Agreement(boot, s) && Accepted(s, PowerOn(vm, online))
    ensures Agreement(boot, Next(boot, s, PowerOn(vm, online))) <==> Safe(boot, s, PowerOn(vm, online))
  {
    var node, start := NodeFor(s.rows[vm], online), s.rows[vm].start;
    var row := s.rows[vm].(status := Running, node := node);
    if node.Some? && start.Some? {
      SendKeepsIff(boot, s, vm, row, node.value, Start(vm, start.value));
    } else {
      RowAloneKeepsIff(boot, s, vm, row);
    }
  }

  lemma PowerOffKeeps(boot: Boot, s: State, vm: VmId, force: bool)
    requires Agreement(boot, s) && Accepted(s, PowerOff(vm, force))
    ensures Agreement(boot, Next(boot, s, PowerOff(vm, force)))
  {
    var node, row := s.rows[vm].node, s.rows[vm].(status := Stopped);
    if node.Some? {
      SendKeepsIff(boot, s, vm, row, node.value, Stop(vm, force));
    } else {
      RowAloneKeepsIff(boot, s, vm, row);
    }
  }

  lemma RebootKeepsIff(boot: Boot, s: State, vm: VmId, force: bool)
    requires Agreement(boot, s) && Accepted(s, RebootVM(vm, force))
    ensures Agreement(boot, Next(boot, s, RebootVM(vm, force))) <==> !force
  {
    var node, row := s.rows[vm].node, s.rows[vm].(status := Running);
    if node.Some? {
      assert NodeAgrees(boot, s, node.value);
      assert ShouldRun(s, node.value, vm) <==> s.rows[vm].status == Running;
      SendKeepsIff(boot, s, vm, row, node.value, Reboot(vm, force));
    } else {
      RowAloneKeepsIff(boot, s, vm, row);
    }
  }

  lemma RestoreKeepsIff(boot: Boot, s: State, vm: VmId)
    requires Agreement(boot, s) && vm in s.rows
    ensures Agreement(boot, Next(boot, s, RestoreSnapshot(vm))) <==> s.rows[vm].status == Running
  {
    RowAloneKeepsIff(boot, s, vm, s.rows[vm].(status := Running));
  }

  lemma DeleteKeepsIff(boot: Boot, s: State, vm: VmId, force: bool)
    requires Agreement(boot, s) && Accepted(s, DeleteVM(vm, force))
    ensures Agreement(boot, Next(boot, s, DeleteVM(vm, force))) <==> s.rows[vm].status != Running
  {
    var row, s' := s.rows[vm], Next(boot, s, DeleteVM(vm, force));
    if row.status == Running {
      var n := row.node.value;
      assert NodeAgrees(boot, s, n);
      assert ShouldRun(s, n, vm) && !ShouldRun(s', n, vm);
      assert s'.Eventually(boot, n) == s.Eventually(boot, n);
      assert !NodeAgrees(boot, s', n);
    } else {
      forall m
        ensures NodeAgrees(boot, s', m)
      {
        OtherNodesUnmoved(boot, s, s', m);
      }
    }
  }

  lemma CreateKeeps(boot: Boot, s: State, op: Op)
    requires Agreement(boot, s) && op.CreateVM? && Accepted(s, op)
    ensures Agreement(boot, Next(boot, s, op))
  {
    var s' := Next(boot, s, op);
    forall m
      ensures NodeAgrees(boot, s', m)
    {
      OtherNodesUnmoved(boot, s, s', m);
    }
  }

  lemma DeliverKeeps(boot: Boot, s: State, n: NodeId)
    requires Rebuilds(boot) && Agreement(boot, s) && s.Queue(n) != []
    ensures Agreement(boot, Next(boot, s, Deliver(n)))
  {
    var s' := Next(boot, s, Deliver(n));
    assert NodeAgrees(boot, s, n);
    ReplayHead(boot, s.AgentOn(n), s.Queue(n));
    EffectKeepsRecoverable(boot, s.AgentOn(n), s.Queue(n)[0]);
    assert forall m, v :: ShouldRun(s', m, v) <==> ShouldRun(s, m, v);
    OnlyOneNodeMoves(boot, s, s', n);
  }

  /** Only an acknowledged command leaves the queue; a start that fails changes nothing and is kept. */
  lemma OnlyAcknowledgedLeaves(boot: Boot, s: State, n: NodeId)
    requires s.Queue(n) != []
    ensures
      var s', c := Next(boot, s, Deliver(n)), s.Queue(n)[0];
      && (Succeeds(boot, s.AgentOn(n), c) ==> s'.Queue(n) == s.Queue(n)[1..])
      && (!Succeeds(boot, s.AgentOn(n), c) ==> s'.Queue(n) == s.Queue(n))
      && (c.Start? && boot(c.vm, c.config).Err? ==> s'.Queue(n) == s.Queue(n) && s'.AgentOn(n) == s.AgentOn(n))
      && s'.rows == s.rows
  {
  }

  lemma CrashKeeps(boot: Boot, s: State, n: NodeId)
    requires Agreement(boot, s)
    ensures Agreement(boot, Next(boot, s, CrashAndRecover(n)))
  {
    var s' := Next(boot, s, CrashAndRecover(n));
    assert NodeAgrees(boot, s, n);
    CrashThenRecoverIsIdentity(boot, s.AgentOn(n));
    forall m
      ensures NodeAgrees(boot, s', m)
    {
      assert forall v :: ShouldRun(s', m, v) <==> ShouldRun(s, m, v);
      OtherNodesUnmoved(boot, s, s', m);
    }
  }

  /** Each operation keeps agreement exactly when its condition holds beforehand. */
  lemma KeepsAgreementIff(boot: Boot, s: State, op: Op)
    requires Rebuilds(boot) && Agreement(boot, s)
    ensures Agreement(boot, Next(boot, s, op)) <==> Safe(boot, s, op)
  {
    if Accepted(s, op) {
      match op
      case CreateVM(_, _, _) => CreateKeeps(boot, s, op);
      case PowerOn(vm, online) => PowerOnKeepsIff(boot, s, vm, online);
      case PowerOff(vm, force) => PowerOffKeeps(boot, s, vm, force);
      case RebootVM(vm, force) => RebootKeepsIff(boot, s, vm, force);
      case RestoreSnapshot(vm) => RestoreKeepsIff(boot, s, vm);
      case DeleteVM(vm, force) => DeleteKeepsIff(boot, s, vm, force);
      case Deliver(n) => DeliverKeeps(boot, s, n);
      case CrashAndRecover(n) => CrashKeeps(boot, s, n);
    }
  }

  function Exec(boot: Boot, run: seq<Op>): State {
    if run == [] then State(map[], map[], map[]) else Next(boot, Exec(boot, run[..|run| - 1]), run[|run| - 1])
  }

  predicate SafeRun(boot: Boot, run: seq<Op>) {
    run == [] || (SafeRun(boot, run[..|run| - 1]) && Safe(boot, Exec(boot, run[..|run| - 1]), run[|run| - 1]))
  }

  lemma {:induction false} SafeRunsAgree(boot: Boot, run: seq<Op>)
    requires Rebuilds(boot) && SafeRun(boot, run)
    ensures Agreement(boot, Exec(boot, run))
  {
    if run == [] {
      forall n
        ensures NodeAgrees(boot, Exec(boot, run), n)
      {
        assert Exec(boot, run).Eventually(boot, n) == map[];
      }
    } else {
      SafeRunsAgree(boot, run[..|run| - 1]);
      KeepsAgreementIff(boot, Exec(boot, run[..|run| - 1]), run[|run| - 1]);
    }
  }

  /** After any safe run with the real agent, on a drained node the live processes are those of
      the VMs stored as running there, and a crash with completed recovery leaves them the same. */
  lemma DrainedNodeAgrees(host: Host, run: seq<Op>, n: NodeId, vm: VmId)
    requires SafeRun(BootOf(host), run)
    requires Exec(BootOf(host), run).Queue(n) == []
    ensures Alive(Exec(BootOf(host), run).AgentOn(n), vm) <==> ShouldRun(Exec(BootOf(host), run), n, vm)
    ensures Recovered(BootOf(host), Crashed(Exec(BootOf(host), run).AgentOn(n))) == Exec(BootOf(host), run).AgentOn(n)
  {
    var boot := BootOf(host);
    AgentRebuilds(host);
    SafeRunsAgree(boot, run);
    assert NodeAgrees(boot, Exec(boot, run), n);
    CrashThenRecoverIsIdentity(boot, Exec(boot, run).AgentOn(n));
  }
}

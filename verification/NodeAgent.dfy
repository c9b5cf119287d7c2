/**
  The node agent: filling in interface settings, building the QEMU configuration, persisting the
  start configuration as vm.json, and rebuilding machines from it after a host crash.
  Foreign tools (qemu-img, genisoimage, ip, QEMU itself) are taken to succeed.
  */
module NodeAgent {
  import opened Common

  type VmId = string

  datatype NicConfig = NicConfig(
    network: string, mac: string, ip: string, gateway: string, bridge: string, name: string)

  datatype StartConfig = StartConfig(
    name: string, vcpus: int, memory: int, diskPath: string, mac: string, sshKey: string,
    imageUrl: string, imageId: string, imagePath: string, sizeBytes: int, machineType: string,
    nics: seq<NicConfig>)

  datatype QemuNic = QemuNic(bridge: string, mac: string)

  datatype QemuConfig = QemuConfig(
    vm: VmId, name: string, vcpus: int, memory: int, diskPath: string, mac: string, nics: seq<QemuNic>,
    cloudInit: string, qmp: string, monitor: string, machineType: string)

  datatype StartError = NoInterfaces | NoBridge | NoAddresses

  /** gatewayFromCIDR on address text, MAC generation and the numbered interface names. */
  datatype Host = Host(gatewayOf: string -> Option<string>, macOf: (VmId, nat) -> string, nameOf: nat -> string)

  // ---------------------------------------------------------------- interfaces

  function WithoutDashes(s: string): string {
    if s == [] then []
    else (if s[0] == '-' then [] else [s[0]]) + WithoutDashes(s[1..])
  }

  /** BridgeForNetwork */
  function BridgeFor(network: string): (b: Option<string>)
    ensures b.None? <==> network == ""
    ensures b.Some? ==> |b.value| >= 3
  {
    if network == "" then None
    else
      var cleaned := WithoutDashes(network);
      Some("br-" + if |cleaned| < 8 then cleaned else cleaned[..8])
  }

  lemma {:induction false} PrefixStays(a: string, b: string)
    requires '-' !in a
    ensures WithoutDashes(a + b) == a + WithoutDashes(b)
  {
    if a == [] {
      assert a + b == b;
    } else {
      PrefixStays(a[1..], b);
      var w := WithoutDashes(b);
      assert (a + b)[1..] == a[1..] + b;
      assert [a[0]] + (a[1..] + w) == a + w;
    }
  }

  /** The bridge of a network whose id starts with eight characters other than `-`, as a UUID does, is
      named by them; a shorter id without `-` names it in full. */
  lemma BridgeOfUuid(first: string, rest: string)
    requires '-' !in first && first != ""
    ensures |first| == 8 ==> BridgeFor(first + rest) == Some("br-" + first)
    ensures |first| < 8 ==> BridgeFor(first) == Some("br-" + first)
  {
    PrefixStays(first, rest);
    PrefixStays(first, "");
    assert first + "" == first;
  }

  /** The settings StartVM fills in for interface i; it fails when no bridge can be named. */
  function Filled(host: Host, vm: VmId, i: nat, n: NicConfig): Option<NicConfig> {
    var bridge := if n.bridge == "" then BridgeFor(n.network) else Some(n.bridge);
    if bridge.None? then None
    else
      var gw := if n.gateway == "" && n.ip != "" then host.gatewayOf(n.ip) else None;
      Some(n.(bridge := bridge.value,
              gateway := if gw.Some? then gw.value else n.gateway,
              name := if n.name == "" then host.nameOf(i) else n.name,
              mac := if n.mac == "" then host.macOf(vm, i) else n.mac))
  }

  /** All interfaces filled in order, numbered from `first`. */
  function FilledAll(host: Host, vm: VmId, first: nat, nics: seq<NicConfig>): (r: Option<seq<NicConfig>>)
    ensures r.Some? ==> |r.value| == |nics|
    decreases |nics|
  {
    if nics == [] then Some([])
    else
      var head, tail := Filled(host, vm, first, nics[0]), FilledAll(host, vm, first + 1, nics[1..]);
      if head.None? || tail.None? then None else Some([head.value] + tail.value)
  }

  lemma FilledTwice(host: Host, vm: VmId, i: nat, n: NicConfig)
    requires Filled(host, vm, i, n).Some?
    ensures Filled(host, vm, i, Filled(host, vm, i, n).value) == Filled(host, vm, i, n)
  {
  }

  /** Filling in is idempotent: a second pass changes nothing and cannot fail. */
  lemma {:induction false} FilledAllTwice(host: Host, vm: VmId, first: nat, nics: seq<NicConfig>)
    requires FilledAll(host, vm, first, nics).Some?
    ensures FilledAll(host, vm, first, FilledAll(host, vm, first, nics).value) == FilledAll(host, vm, first, nics)
    decreases |nics|
  {
    if nics != [] {
      FilledTwice(host, vm, first, nics[0]);
      FilledAllTwice(host, vm, first + 1, nics[1..]);
    }
  }

  lemma {:induction false} FilledAllAt(host: Host, vm: VmId, first: nat, nics: seq<NicConfig>, i: nat)
    requires i < |nics|
    ensures FilledAll(host, vm, first, nics).Some? ==>
              && Filled(host, vm, first + i, nics[i]).Some?
              && FilledAll(host, vm, first, nics).value[i] == Filled(host, vm, first + i, nics[i]).value
    ensures Filled(host, vm, first + i, nics[i]).None? ==> FilledAll(host, vm, first, nics).None?
    decreases |nics|
  {
    if i > 0 {
      FilledAllAt(host, vm, first + 1, nics[1..], i - 1);
    }
  }

  lemma {:induction false} FilledAllWhen(host: Host, vm: VmId, first: nat, nics: seq<NicConfig>)
    requires forall i :: 0 <= i < |nics| ==> Filled(host, vm, first + i, nics[i]).Some?
    ensures FilledAll(host, vm, first, nics).Some?
    decreases |nics|
  {
    if nics != [] {
      forall i | 0 <= i < |nics[1..]|
        ensures Filled(host, vm, first + 1 + i, nics[1..][i]).Some?
      {
        assert nics[1..][i] == nics[i + 1];
      }
      FilledAllWhen(host, vm, first + 1, nics[1..]);
    }
  }

  /** StartVM's loop over the interfaces, which works on the caller's array in place. */
  method FillInPlace(host: Host, vm: VmId, nics: array<NicConfig>) returns (ok: bool)
    modifies nics
    ensures ok <==> FilledAll(host, vm, 0, old(nics[..])).Some?
    ensures ok ==> nics[..] == FilledAll(host, vm, 0, old(nics[..])).value
    ensures ok <==> forall i :: 0 <= i < nics.Length ==> !LacksBridge(old(nics[i]))
    ensures ok ==> forall i :: 0 <= i < nics.Length ==> Completes(host, vm, i, old(nics[i]), nics[i])
  {
    ghost var before := nics[..];
    for i := 0 to nics.Length
      invariant nics[i..] == before[i..]
      invariant forall j :: 0 <= j < i ==> Filled(host, vm, j, before[j]) == Some(nics[j])
    {
      assert nics[i] == before[i] by {
        assert nics[i..][0] == before[i..][0];
      }
      var f := Filled(host, vm, i, nics[i]);
      if f.None? {
        FilledAllAt(host, vm, 0, before, i);
        return false;
      }
      nics[i] := f.value;
      assert nics[i + 1..] == before[i + 1..] by {
        assert before[i..][1..] == before[i + 1..];
      }
    }
    FilledAllWhen(host, vm, 0, before);
    forall j | 0 <= j < nics.Length
      ensures nics[j] == FilledAll(host, vm, 0, before).value[j]
    {
      FilledAllAt(host, vm, 0, before, j);
    }
    ok := true;
  }

  // ---------------------------------------------------------------- the machine

  function Dir(vm: VmId): string {
    "/var/lib/rymevisor/vms/" + vm
  }

  function DiskFor(vm: VmId, cfg: StartConfig): (p: string)
    ensures p != ""
  {
    if cfg.diskPath == "" then Dir(vm) + "/root.qcow2" else cfg.diskPath
  }

  function IsoFor(vm: VmId): string {
    Dir(vm) + "/cloud-init/cidata.iso"
  }

  function QemuNics(nics: seq<NicConfig>): (q: seq<QemuNic>)
    ensures |q| == |nics|
  {
    if nics == [] then [] else [QemuNic(nics[0].bridge, nics[0].mac)] + QemuNics(nics[1..])
  }

  /** The configuration QEMU is launched with, from a start configuration with filled interfaces. */
  function Machine(vm: VmId, cfg: StartConfig): QemuConfig
    requires cfg.nics != []
  {
    QemuConfig(vm, cfg.name, cfg.vcpus, cfg.memory, DiskFor(vm, cfg), cfg.nics[0].mac, QemuNics(cfg.nics),
               IsoFor(vm), Dir(vm) + "/qmp.sock", Dir(vm) + "/monitor.sock", cfg.machineType)
  }

  /** The checks StartVM makes on the interfaces. */
  function CheckedNics(host: Host, vm: VmId, nics: seq<NicConfig>): Result<seq<NicConfig>, StartError> {
    if nics == [] then Err(NoInterfaces)
    else
      match FilledAll(host, vm, 0, nics)
      case None => Err(NoBridge)
      case Some(f) => if exists i :: 0 <= i < |f| && f[i].ip != "" then Ok(f) else Err(NoAddresses)
  }

  // ---------------------------------------------------------------- vm.json

  /** The JSON object; an optional key is absent when its value is empty. */
  datatype JsonObject = JsonObject(
    name: string, vcpus: int, memory: int, diskPath: string, mac: string,
    sshKey: Option<string>, imageUrl: Option<string>, imageId: Option<string>, imagePath: Option<string>,
    sizeBytes: Option<int>, machineType: Option<string>, nics: Option<seq<NicConfig>>, isoPath: string)

  function OmitEmpty(s: string): Option<string> {
    if s == "" then None else Some(s)
  }

  function OrEmpty(o: Option<string>): string {
    if o.Some? then o.value else ""
  }

  /** The fields of the embedded VMStartConfig. */
  function EmbeddedFields(cfg: StartConfig): JsonObject {
    JsonObject(cfg.name, cfg.vcpus, cfg.memory, cfg.diskPath, cfg.mac,
               OmitEmpty(cfg.sshKey), OmitEmpty(cfg.imageUrl), OmitEmpty(cfg.imageId), OmitEmpty(cfg.imagePath),
               if cfg.sizeBytes == 0 then None else Some(cfg.sizeBytes),
               OmitEmpty(cfg.machineType),
               if cfg.nics == [] then None else Some(cfg.nics),
               "")
  }

  /** Where a name occurs in the wrapper and in the embedded struct, the wrapper's field wins. */
  function Persisted(cfg: StartConfig, disk: string, mac: string, iso: string): JsonObject {
    EmbeddedFields(cfg).(diskPath := disk, mac := mac, isoPath := iso)
  }

  /** loadVMConfig: the shadowed fields are decoded into the wrapper and copied back. */
  function Loaded(j: JsonObject): StartConfig {
    StartConfig(j.name, j.vcpus, j.memory, j.diskPath, j.mac,
                OrEmpty(j.sshKey), OrEmpty(j.imageUrl), OrEmpty(j.imageId), OrEmpty(j.imagePath),
                if j.sizeBytes.Some? then j.sizeBytes.value else 0,
                OrEmpty(j.machineType),
                if j.nics.Some? then j.nics.value else [])
  }

  /** Loading what was persisted restores the configuration with disk path and MAC replaced. */
  lemma LoadAfterPersist(cfg: StartConfig, disk: string, mac: string, iso: string)
    ensures Loaded(Persisted(cfg, disk, mac, iso)) == cfg.(diskPath := disk, mac := mac)
  {
  }

  lemma PersistForgetsShadowed(cfg: StartConfig, d: string, m: string, disk: string, mac: string, iso: string)
    ensures Persisted(cfg.(diskPath := d, mac := m), disk, mac, iso) == Persisted(cfg, disk, mac, iso)
  {
  }

  // ---------------------------------------------------------------- start and recovery

  /** What a successful start leaves behind: a QEMU process and a vm.json. */
  datatype Started = Started(machine: QemuConfig, json: JsonObject)

  function StartSpec(host: Host, vm: VmId, cfg: StartConfig): Result<Started, StartError> {
    match CheckedNics(host, vm, cfg.nics)
    case Err(e) => Err(e)
    case Ok(f) =>
      var full := cfg.(nics := f);
      Ok(Started(Machine(vm, full), Persisted(full, DiskFor(vm, cfg), f[0].mac, IsoFor(vm))))
  }

  /** Recovery rebuilds the same machine: starting from the persisted configuration gives the
      QEMU configuration of the original start and writes the same vm.json. */
  lemma RecoveryRebuildsMachine(host: Host, vm: VmId, cfg: StartConfig)
    requires StartSpec(host, vm, cfg).Ok?
    ensures
      var s := StartSpec(host, vm, cfg).value;
      StartSpec(host, vm, Loaded(s.json)) == Ok(s)
  {
    var f := CheckedNics(host, vm, cfg.nics).value;
    var full := cfg.(nics := f);
    var disk := DiskFor(vm, cfg);
    LoadAfterPersist(full, disk, f[0].mac, IsoFor(vm));
    FilledAllTwice(host, vm, 0, cfg.nics);
    PersistForgetsShadowed(full, disk, f[0].mac, disk, f[0].mac, IsoFor(vm));
  }

  /** A start configuration held by reference: its interfaces live in an array shared with StartVM. */
  class ConfigRef {
    const fields: StartConfig
    const nics: array<NicConfig>

    constructor (cfg: StartConfig)
      ensures Value() == cfg && fresh(nics)
    {
      fields := cfg;
      nics := new NicConfig[|cfg.nics|](i requires 0 <= i < |cfg.nics| => cfg.nics[i]);
      new;
      assert nics[..] == cfg.nics;
    }

    function Value(): StartConfig
      reads nics
    {
      fields.(nics := nics[..])
    }
  }

  /** `f` is interface i as requested, with what was left open filled in. */
  ghost predicate Completes(host: Host, vm: VmId, i: nat, n: NicConfig, f: NicConfig) {
    && f.network == n.network && f.ip == n.ip
    && (n.bridge != "" ==> f.bridge == n.bridge)
    && (n.bridge == "" ==> n.network != "" && Some(f.bridge) == BridgeFor(n.network))
    && (n.mac != "" ==> f.mac == n.mac)
    && (n.mac == "" ==> f.mac == host.macOf(vm, i))
    && (n.name != "" ==> f.name == n.name)
    && (n.name == "" ==> f.name == host.nameOf(i))
    && (n.gateway != "" || n.ip == "" || host.gatewayOf(n.ip).None? ==> f.gateway == n.gateway)
    && (n.gateway == "" && n.ip != "" && host.gatewayOf(n.ip).Some? ==> f.gateway == host.gatewayOf(n.ip).value)
  }

  /** The machine a request asks for: its own name, size and type, the given disk or the default one, and
      for every interface, in order, the given MAC and bridge or those filled in. */
  ghost predicate Requested(host: Host, vm: VmId, cfg: StartConfig, m: QemuConfig) {
    && m.vm == vm && m.name == cfg.name && m.vcpus == cfg.vcpus && m.memory == cfg.memory
    && m.machineType == cfg.machineType
    && (cfg.diskPath != "" ==> m.diskPath == cfg.diskPath)
    && (cfg.diskPath == "" ==> m.diskPath == "/var/lib/rymevisor/vms/" + vm + "/root.qcow2")
    && m.cloudInit == "/var/lib/rymevisor/vms/" + vm + "/cloud-init/cidata.iso"
    && m.qmp == "/var/lib/rymevisor/vms/" + vm + "/qmp.sock"
    && m.monitor == "/var/lib/rymevisor/vms/" + vm + "/monitor.sock"
    && |m.nics| == |cfg.nics| > 0
    && m.mac == m.nics[0].mac
    && forall i :: 0 <= i < |cfg.nics| ==>
         && (cfg.nics[i].mac != "" ==> m.nics[i].mac == cfg.nics[i].mac)
         && (cfg.nics[i].mac == "" ==> m.nics[i].mac == host.macOf(vm, i))
         && (cfg.nics[i].bridge != "" ==> m.nics[i].bridge == cfg.nics[i].bridge)
         && (cfg.nics[i].bridge == "" ==> Some(m.nics[i].bridge) == BridgeFor(cfg.nics[i].network))
  }

  /** vm.json holds the filled configuration under its own keys, with the disk and first MAC of the machine;
      optional keys are absent when empty. */
  ghost predicate Records(cfg: StartConfig, m: QemuConfig, j: JsonObject) {
    && j.name == cfg.name && j.vcpus == cfg.vcpus && j.memory == cfg.memory
    && j.diskPath == m.diskPath && j.mac == m.mac && j.isoPath == m.cloudInit
    && j.nics == Some(cfg.nics)
    && (cfg.sshKey == "" ==> j.sshKey.None?) && (cfg.sshKey != "" ==> j.sshKey == Some(cfg.sshKey))
    && (cfg.imageUrl == "" ==> j.imageUrl.None?) && (cfg.imageUrl != "" ==> j.imageUrl == Some(cfg.imageUrl))
    && (cfg.imageId == "" ==> j.imageId.None?) && (cfg.imageId != "" ==> j.imageId == Some(cfg.imageId))
    && (cfg.imagePath == "" ==> j.imagePath.None?) && (cfg.imagePath != "" ==> j.imagePath == Some(cfg.imagePath))
    && (cfg.machineType == "" ==> j.machineType.None?)
    && (cfg.machineType != "" ==> j.machineType == Some(cfg.machineType))
    && (cfg.sizeBytes == 0 ==> j.sizeBytes.None?) && (cfg.sizeBytes != 0 ==> j.sizeBytes == Some(cfg.sizeBytes))
  }

  predicate LacksBridge(n: NicConfig) {
    n.bridge == "" && n.network == ""
  }

  lemma {:induction false} QemuNicAt(nics: seq<NicConfig>, i: nat)
    requires i < |nics|
    ensures QemuNics(nics)[i] == QemuNic(nics[i].bridge, nics[i].mac)
  {
    if i > 0 {
      QemuNicAt(nics[1..], i - 1);
    }
  }

  lemma MachineIsRequested(host: Host, vm: VmId, cfg: StartConfig)
    requires StartSpec(host, vm, cfg).Ok?
    ensures Requested(host, vm, cfg, StartSpec(host, vm, cfg).value.machine)
  {
    var f := CheckedNics(host, vm, cfg.nics).value;
    forall i | 0 <= i < |cfg.nics|
      ensures QemuNics(f)[i] == QemuNic(f[i].bridge, f[i].mac) && Filled(host, vm, i, cfg.nics[i]) == Some(f[i])
    {
      QemuNicAt(f, i);
      FilledAllAt(host, vm, 0, cfg.nics, i);
    }
  }

  /** A start fails for want of interfaces, then of a bridge, then of any address, and for nothing else. */
  lemma StartFailsIff(host: Host, vm: VmId, cfg: StartConfig)
    ensures StartSpec(host, vm, cfg) == Err(NoInterfaces) <==> cfg.nics == []
    ensures StartSpec(host, vm, cfg) == Err(NoBridge) <==>
            exists i :: 0 <= i < |cfg.nics| && LacksBridge(cfg.nics[i])
    ensures StartSpec(host, vm, cfg) == Err(NoAddresses) <==>
            && cfg.nics != []
            && (forall i :: 0 <= i < |cfg.nics| ==> !LacksBridge(cfg.nics[i]) && cfg.nics[i].ip == "")
  {
    forall i | 0 <= i < |cfg.nics|
      ensures LacksBridge(cfg.nics[i]) <==> Filled(host, vm, i, cfg.nics[i]).None?
      ensures LacksBridge(cfg.nics[i]) ==> FilledAll(host, vm, 0, cfg.nics).None?
      ensures FilledAll(host, vm, 0, cfg.nics).Some? ==> FilledAll(host, vm, 0, cfg.nics).value[i].ip == cfg.nics[i].ip
    {
      FilledAllAt(host, vm, 0, cfg.nics, i);
    }
    if forall i :: 0 <= i < |cfg.nics| ==> !LacksBridge(cfg.nics[i]) {
      FilledAllWhen(host, vm, 0, cfg.nics);
    }
  }

  method HasAddress(nics: seq<NicConfig>) returns (r: bool)
    ensures r <==> exists j :: 0 <= j < |nics| && nics[j].ip != ""
  {
    r := false;
    for i := 0 to |nics|
      invariant r <==> exists j :: 0 <= j < i && nics[j].ip != ""
    {
      r := r || nics[i].ip != "";
    }
  }

  method ToQemu(nics: seq<NicConfig>) returns (q: seq<QemuNic>)
    ensures q == QemuNics(nics)
  {
    q := [];
    for i := 0 to |nics|
      invariant QemuNics(nics) == q + QemuNics(nics[i..])
    {
      q := q + [QemuNic(nics[i].bridge, nics[i].mac)];
      assert nics[i..][1..] == nics[i + 1..];
    }
  }

  /** StartVM: fills the shared array in place, launches QEMU and persists the filled configuration. */
  method StartVM(host: Host, vm: VmId, cfg: ConfigRef) returns (r: Result<Started, StartError>)
    modifies cfg.nics
    ensures r == StartSpec(host, vm, old(cfg.Value()))
    ensures r == Err(NoInterfaces) <==> old(cfg.nics[..]) == []
    ensures r == Err(NoBridge) <==>
            exists i :: 0 <= i < cfg.nics.Length && LacksBridge(old(cfg.nics[i]))
    ensures r == Err(NoAddresses) <==>
            && cfg.nics.Length > 0
            && (forall i :: 0 <= i < cfg.nics.Length ==> !LacksBridge(old(cfg.nics[i])) && old(cfg.nics[i]).ip == "")
    ensures r.Ok? ==> Requested(host, vm, old(cfg.Value()), r.value.machine)
    ensures r.Ok? ==> Records(cfg.Value(), r.value.machine, r.value.json)
    ensures r.Ok? ==> cfg.Value() == Loaded(r.value.json).(diskPath := cfg.fields.diskPath, mac := cfg.fields.mac)
  {
    ghost var before := cfg.Value();
    StartFailsIff(host, vm, before);
    if StartSpec(host, vm, before).Ok? {
      MachineIsRequested(host, vm, before);
    }
    var nics := cfg.nics;
    if nics.Length == 0 {
      return Err(NoInterfaces);
    }
    var ok := FillInPlace(host, vm, nics);
    if !ok {
      return Err(NoBridge);
    }
    var addressed := HasAddress(nics[..]);
    if !addressed {
      return Err(NoAddresses);
    }
    var qemuNics := ToQemu(nics[..]);
    var legacyMac := qemuNics[0].mac;
    var disk := DiskFor(vm, cfg.fields);
    var machine := QemuConfig(vm, cfg.fields.name, cfg.fields.vcpus, cfg.fields.memory, disk, legacyMac, qemuNics,
                              IsoFor(vm), Dir(vm) + "/qmp.sock", Dir(vm) + "/monitor.sock", cfg.fields.machineType);
    var json := Persisted(cfg.Value(), disk, legacyMac, IsoFor(vm));
    LoadAfterPersist(cfg.Value(), disk, legacyMac, IsoFor(vm));
    assert machine == Machine(vm, cfg.Value());
    r := Ok(Started(machine, json));
  }
}

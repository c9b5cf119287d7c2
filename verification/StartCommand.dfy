/**
  From a create request to a running machine: the interfaces CreateVM builds, the interface list
  publishVMStart sends at power-on, and the checks the agent makes on it.
  */
module StartCommand {
  import opened Common
  import opened NodeAgent

  datatype NicRequest = NicRequest(network: string, primary: bool)

  /** A stored interface; the repository returns it as it was inserted. */
  datatype VmNic = VmNic(id: string, name: string, network: string, mac: string, addresses: seq<string>, primary: bool)

  /** Identifiers, names and MACs are generated per index. Addresses are what AllocateIP answers
      at the time interface i is built, or None. */
  datatype Env = Env(
    ipam: bool, defaultNetwork: Option<string>, allocate: (nat, string) -> Option<string>,
    idOf: nat -> string, ethName: nat -> string, macOf: nat -> string, controlGateway: string -> Option<string>)
  {
    /** Network ids and address texts are not empty. */
    ghost predicate Sane() {
      && (defaultNetwork.Some? ==> defaultNetwork.value != "")
      && forall i, n :: allocate(i, n).Some? ==> allocate(i, n).value != ""
    }
  }

  predicate HasPrimary(reqs: seq<NicRequest>) {
    exists i :: 0 <= i < |reqs| && reqs[i].primary
  }

  /** The network interface i of a request ends up on; None when the default network is unavailable. */
  function NetworkOf(env: Env, requested: string): Option<string> {
    if requested == "" && env.ipam then env.defaultNetwork else Some(requested)
  }

  function BuiltNic(env: Env, i: nat, requested: string, primary: bool): Option<VmNic> {
    match NetworkOf(env, requested)
    case None => None
    case Some(network) =>
      if env.ipam && network != "" then
        match env.allocate(i, network)
        case None => None
        case Some(a) => Some(VmNic(env.idOf(i), env.ethName(i), network, env.macOf(i), [a], primary))
      else Some(VmNic(env.idOf(i), env.ethName(i), network, env.macOf(i), [], primary))
  }

  /** A request without interfaces gets one on the default network. */
  function Requests(reqs: seq<NicRequest>): seq<NicRequest> {
    if reqs == [] then [NicRequest("", true)] else reqs
  }

  ghost predicate BuiltFrom(env: Env, reqs: seq<NicRequest>, nics: seq<VmNic>) {
    && |nics| == |Requests(reqs)|
    && forall i :: 0 <= i < |nics| ==>
         var req := Requests(reqs)[i];
         BuiltNic(env, i, req.network, req.primary || (i == 0 && !HasPrimary(Requests(reqs)))) == Some(nics[i])
  }

  /** The interface is on the network asked for, or the default one, with an address allocated there if
      addresses are managed, under its own id, name and MAC. */
  ghost predicate ServesRequest(env: Env, i: nat, req: NicRequest, nic: VmNic) {
    && nic.id == env.idOf(i) && nic.name == env.ethName(i) && nic.mac == env.macOf(i)
    && (req.network != "" || !env.ipam ==> nic.network == req.network)
    && (req.network == "" && env.ipam ==> env.defaultNetwork == Some(nic.network))
    && (env.ipam && nic.network != "" ==>
          |nic.addresses| == 1 && env.allocate(i, nic.network) == Some(nic.addresses[0]))
    && (!env.ipam || nic.network == "" ==> nic.addresses == [])
  }

  /** One interface per request, or a primary one on the default network when there are none; the primary
      ones are those asked for, or the first when none is. */
  ghost predicate ServesAll(env: Env, reqs: seq<NicRequest>, nics: seq<VmNic>) {
    if reqs == [] then |nics| == 1 && nics[0].primary && ServesRequest(env, 0, NicRequest("", true), nics[0])
    else
      && |nics| == |reqs|
      && (forall i :: 0 <= i < |reqs| ==> ServesRequest(env, i, reqs[i], nics[i]))
      && (forall i :: 1 <= i < |reqs| ==> (nics[i].primary <==> reqs[i].primary))
      && (nics[0].primary <==> reqs[0].primary || forall j :: 0 <= j < |reqs| ==> !reqs[j].primary)
  }

  lemma BuiltServesOne(env: Env, i: nat, req: NicRequest, primary: bool, nic: VmNic)
    requires BuiltNic(env, i, req.network, primary) == Some(nic)
    ensures ServesRequest(env, i, req, nic) && nic.primary == primary
  {
  }

  lemma BuiltServesAll(env: Env, reqs: seq<NicRequest>, nics: seq<VmNic>)
    requires BuiltFrom(env, reqs, nics)
    ensures ServesAll(env, reqs, nics)
  {
    var wanted := Requests(reqs);
    forall i | 0 <= i < |wanted|
      ensures ServesRequest(env, i, wanted[i], nics[i])
      ensures nics[i].primary == (wanted[i].primary || (i == 0 && !HasPrimary(wanted)))
    {
      BuiltServesOne(env, i, wanted[i], wanted[i].primary || (i == 0 && !HasPrimary(wanted)), nics[i]);
    }
  }

  method HasPrimaryLoop(reqs: seq<NicRequest>) returns (r: bool)
    ensures r == HasPrimary(reqs)
  {
    for i := 0 to |reqs|
      invariant forall j :: 0 <= j < i ==> !reqs[j].primary
    {
      if reqs[i].primary {
        return true;
      }
    }
    return false;
  }

  /** CreateVM's interface section: fails exactly when a network or an address cannot be had. */
  method BuildNics(env: Env, reqs: seq<NicRequest>) returns (r: Option<seq<VmNic>>)
    ensures r.Some? ==> BuiltFrom(env, reqs, r.value)
    ensures r.None? ==>
              exists i :: 0 <= i < |Requests(reqs)| && BuiltNic(env, i, Requests(reqs)[i].network, false).None?
    ensures r.Some? ==> exists i :: 0 <= i < |r.value| && r.value[i].primary
    ensures r.Some? ==> ServesAll(env, reqs, r.value)
  {
    var wanted := Requests(reqs);
    var anyPrimary := HasPrimaryLoop(wanted);
    var nics: seq<VmNic> := [];
    for i := 0 to |wanted|
      invariant |nics| == i
      invariant forall j :: 0 <= j < i ==>
                  BuiltNic(env, j, wanted[j].network, wanted[j].primary || (j == 0 && !anyPrimary)) == Some(nics[j])
    {
      var nic := BuiltNic(env, i, wanted[i].network, wanted[i].primary || (i == 0 && !anyPrimary));
      if nic.None? {
        return None;
      }
      nics := nics + [nic.value];
    }
    if anyPrimary {
      var i :| 0 <= i < |wanted| && wanted[i].primary;
      assert nics[i].primary;
    } else {
      assert nics[0].primary;
    }
    r := Some(nics);
    BuiltServesAll(env, reqs, nics);
  }

  function FirstAddress(n: VmNic): string {
    if n.addresses == [] then "" else n.addresses[0]
  }

  /** publishVMStart for one interface. */
  function Sent(env: Env, i: nat, n: VmNic): Option<NicConfig> {
    var ip := FirstAddress(n);
    var gw := if ip != "" then env.controlGateway(ip) else None;
    match BridgeFor(n.network)
    case None => None
    case Some(bridge) =>
      var mac := if n.mac == "" then env.macOf(i) else n.mac;
      Some(NicConfig(n.network, mac, ip, if gw.Some? then gw.value else "", bridge, n.name))
  }

  ghost predicate SentFrom(env: Env, nics: seq<VmNic>, out: seq<NicConfig>) {
    && |out| == |nics|
    && forall i :: 0 <= i < |nics| ==> Sent(env, i, nics[i]) == Some(out[i])
  }

  /** The command carries the stored network, name, MAC and first address, the network's bridge, and the
      gateway of the address if there is one. */
  ghost predicate SendsNic(env: Env, i: nat, n: VmNic, c: NicConfig) {
    && c.network == n.network && c.name == n.name && Some(c.bridge) == BridgeFor(n.network)
    && (n.mac != "" ==> c.mac == n.mac)
    && (n.mac == "" ==> c.mac == env.macOf(i))
    && (n.addresses != [] ==> c.ip == n.addresses[0])
    && (n.addresses == [] ==> c.ip == "" && c.gateway == "")
    && (c.ip != "" && env.controlGateway(c.ip).Some? ==> c.gateway == env.controlGateway(c.ip).value)
    && (c.ip != "" && env.controlGateway(c.ip).None? ==> c.gateway == "")
  }

  lemma SentSendsNic(env: Env, i: nat, n: VmNic, c: NicConfig)
    requires Sent(env, i, n) == Some(c)
    ensures SendsNic(env, i, n, c)
  {
  }

  /** publishVMStart: no command is published when an interface has no network or there is none. */
  method PublishNics(env: Env, nics: seq<VmNic>) returns (r: Option<seq<NicConfig>>)
    ensures r.Some? ==> nics != [] && SentFrom(env, nics, r.value)
    ensures r.None? <==> nics == [] || exists i :: 0 <= i < |nics| && nics[i].network == ""
    ensures r.Some? ==> |r.value| == |nics| && forall i :: 0 <= i < |nics| ==> SendsNic(env, i, nics[i], r.value[i])
  {
    var out: seq<NicConfig> := [];
    for i := 0 to |nics|
      invariant |out| == i
      invariant forall j :: 0 <= j < i ==> Sent(env, j, nics[j]) == Some(out[j]) && nics[j].network != ""
    {
      var n := Sent(env, i, nics[i]);
      if n.None? {
        return None;
      }
      out := out + [n.value];
    }
    if out == [] {
      return None;
    }
    r := Some(out);
  }

  /** With address management, every built interface can be sent, with a bridge and an address. */
  lemma BuiltNicIsComplete(env: Env, reqs: seq<NicRequest>, nics: seq<VmNic>, i: nat)
    requires env.Sane() && env.ipam && BuiltFrom(env, reqs, nics) && i < |nics|
    ensures Sent(env, i, nics[i]).Some?
    ensures Sent(env, i, nics[i]).value.bridge != "" && Sent(env, i, nics[i]).value.ip != ""
  {
    var req := Requests(reqs)[i];
    assert BuiltNic(env, i, req.network, req.primary || (i == 0 && !HasPrimary(Requests(reqs)))) == Some(nics[i]);
    assert nics[i].network != "" && nics[i].addresses != [] && nics[i].addresses[0] != "";
  }

  ghost predicate AllComplete(out: seq<NicConfig>) {
    forall i :: 0 <= i < |out| ==> out[i].bridge != "" && out[i].ip != ""
  }

  lemma SentIsComplete(env: Env, reqs: seq<NicRequest>, nics: seq<VmNic>) returns (out: seq<NicConfig>)
    requires env.Sane() && env.ipam && BuiltFrom(env, reqs, nics)
    ensures SentFrom(env, nics, out) && out != [] && AllComplete(out)
  {
    forall i | 0 <= i < |nics|
      ensures Sent(env, i, nics[i]).Some?
    {
      BuiltNicIsComplete(env, reqs, nics, i);
    }
    out := seq(|nics|, i requires 0 <= i < |nics| => Sent(env, i, nics[i]).value);
    forall i | 0 <= i < |out|
      ensures out[i].bridge != "" && out[i].ip != ""
    {
      BuiltNicIsComplete(env, reqs, nics, i);
    }
  }

  /** The start command of an accepted VM exists and passes every check of the agent exactly when
      address management is configured; each interface then has a bridge and an address. */
  lemma AcceptedVmStartsIff(env: Env, host: Host, vm: VmId, reqs: seq<NicRequest>, nics: seq<VmNic>)
    requires env.Sane() && BuiltFrom(env, reqs, nics)
    ensures (exists out :: SentFrom(env, nics, out) && CheckedNics(host, vm, out).Ok?) <==> env.ipam
    ensures env.ipam ==> forall out :: SentFrom(env, nics, out) ==> AllComplete(out)
  {
    if env.ipam {
      var out := SentIsComplete(env, reqs, nics);
      CompleteNicsPass(host, vm, out);
      forall out' | SentFrom(env, nics, out')
        ensures out' == out
      {
        assert forall i :: 0 <= i < |out| ==> Sent(env, i, nics[i]) == Some(out'[i]);
      }
    } else {
      forall out | SentFrom(env, nics, out)
        ensures !CheckedNics(host, vm, out).Ok?
      {
        NoIpamNoAddress(env, host, vm, reqs, nics, out);
      }
    }
  }

  lemma CompleteNicsPass(host: Host, vm: VmId, out: seq<NicConfig>)
    requires out != [] && forall i :: 0 <= i < |out| ==> out[i].bridge != "" && out[i].ip != ""
    ensures CheckedNics(host, vm, out).Ok?
  {
    FilledAllWhen(host, vm, 0, out);
    FilledAllAt(host, vm, 0, out, 0);
    assert FilledAll(host, vm, 0, out).value[0].ip != "";
  }

  lemma NoIpamNoAddress(env: Env, host: Host, vm: VmId, reqs: seq<NicRequest>, nics: seq<VmNic>, out: seq<NicConfig>)
    requires !env.ipam && BuiltFrom(env, reqs, nics) && SentFrom(env, nics, out)
    ensures !CheckedNics(host, vm, out).Ok?
  {
    if out != [] && FilledAll(host, vm, 0, out).Some? {
      forall i | 0 <= i < |out|
        ensures FilledAll(host, vm, 0, out).value[i].ip == ""
      {
        FilledAllAt(host, vm, 0, out, i);
        assert Sent(env, i, nics[i]) == Some(out[i]);
        var req := Requests(reqs)[i];
        assert BuiltNic(env, i, req.network, req.primary || (i == 0 && !HasPrimary(Requests(reqs)))) == Some(nics[i]);
      }
    }
  }
}

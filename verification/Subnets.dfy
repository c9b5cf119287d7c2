/** CreateSubnet: a chain of checks, the last of which tests one address of the new block. */
module Subnets {
  import opened Common
  import opened Ipv4
  import opened Ipam

  datatype SubnetError = MissingField | NetworkNotFound | InvalidCidr | OutsideNetwork

  datatype SubnetRequest = SubnetRequest(networkId: string, name: string, cidrText: string, parsed: BlockText)

  predicate Complete(req: SubnetRequest) {
    req.networkId != "" && req.name != "" && req.cidrText != ""
  }

  predicate BothBlocks(req: SubnetRequest, parent: BlockText) {
    req.parsed.Block? && parent.Block?
  }

  /** `parent` is the stored block of the network the request names, if that network exists. */
  method CreateSubnet(req: SubnetRequest, parent: Option<BlockText>) returns (r: Result<Cidr, SubnetError>)
    ensures r.Ok? ==> req.parsed == Block(r.value)
    ensures r.Ok? <==>
              Complete(req) && parent.Some? && BothBlocks(req, parent.value)
              && Contains(parent.value.cidr, Network(req.parsed.cidr))
    ensures r == Err(MissingField) <==> !Complete(req)
    ensures r == Err(NetworkNotFound) <==> Complete(req) && parent.None?
    ensures r == Err(InvalidCidr) <==> Complete(req) && parent.Some? && !BothBlocks(req, parent.value)
    ensures r == Err(OutsideNetwork) <==>
              Complete(req) && parent.Some? && BothBlocks(req, parent.value)
              && !Contains(parent.value.cidr, Network(req.parsed.cidr))
  {
    if req.networkId == "" || req.name == "" || req.cidrText == "" {
      return Err(MissingField);
    }
    if parent.None? {
      return Err(NetworkNotFound);
    }
    if !req.parsed.Block? || !parent.value.Block? {
      return Err(InvalidCidr);
    }
    if !Contains(parent.value.cidr, Network(req.parsed.cidr)) {
      return Err(OutsideNetwork);
    }
    r := Ok(req.parsed.cidr);
  }

  /** A subnet that passes the containment test lies inside the network exactly when its prefix
      is at least as long; one that fails it at such a length lies wholly outside. */
  lemma AcceptedSubnetLiesInsideIff(network: Cidr, subnet: Cidr)
    ensures Contains(network, Network(subnet)) ==> (Within(subnet, network) <==> network.ones <= subnet.ones)
    ensures !Contains(network, Network(subnet)) && network.ones <= subnet.ones ==> Disjoint(subnet, network)
  {
    if network.ones <= subnet.ones {
      BlocksNestOrSplit(network, subnet);
    } else if Contains(network, Network(subnet)) {
      SizeGrows(subnet.ones, network.ones);
      var first, last := Network(subnet), Broadcast(subnet);
      ContainsIsInterval(subnet, last);
      ContainsIsInterval(network, first);
      ContainsIsInterval(network, last);
      assert Contains(subnet, last) && !Contains(network, last);
    }
  }

  /** 10.0.0.0/29 is accepted as a subnet of 10.0.0.0/30 although 10.0.0.7 is outside. */
  lemma OversizedSubnetIsAccepted()
    ensures
      var network, subnet := Cidr(0x0A00_0000, 30), Cidr(0x0A00_0000, 29);
      Contains(network, Network(subnet)) && !Within(subnet, network)
  {
    var network, subnet := Cidr(0x0A00_0000, 30), Cidr(0x0A00_0000, 29);
    assert Masked(0x0A00_0000, 30) == 0x0A00_0000;
    assert Masked(0x0A00_0000, 29) == 0x0A00_0000;
    AcceptedSubnetLiesInsideIff(network, subnet);
  }
}

/**
  The interface table with its two partial unique indexes, the all-or-nothing insert of a VM's
  interfaces, and AllocateIP, the read half of the optimistic allocation.
  */
module NicTable {
  import opened Common
  import opened Ipv4
  import opened Ipam

  type NetId = string
  type VmId = string
  type Mac = string

  /** The first element of an interface's address array. */
  datatype NicAddress = NoAddress | Inet(value: Cidr) | Unparsable

  datatype NicRow = NicRow(vm: VmId, network: NetId, address: NicAddress, mac: Mac)

  type Table = seq<NicRow>

  /** idx_vm_nics_unique_ip_per_network */
  predicate SameAddress(a: NicRow, b: NicRow) {
    a.network == b.network && a.network != "" && a.address.Inet? && a.address == b.address
  }

  /** idx_vm_nics_unique_mac */
  predicate SameMac(a: NicRow, b: NicRow) {
    a.mac == b.mac && a.mac != ""
  }

  predicate Clash(a: NicRow, b: NicRow) {
    SameAddress(a, b) || SameMac(a, b)
  }

  predicate Violates(table: Table, row: NicRow) {
    exists i :: 0 <= i < |table| && Clash(table[i], row)
  }

  ghost predicate Unique(table: Table) {
    forall i, j :: 0 <= i < j < |table| ==> !Clash(table[i], table[j])
  }

  datatype TxResult = Committed(table: Table) | UniqueViolation | Rejected

  /** Inserting rows one after the other in a transaction that aborts at the first error. */
  function InsertAll(table: Table, rows: seq<NicRow>): TxResult
    decreases |rows|
  {
    if rows == [] then Committed(table)
    else if rows[0].address.Unparsable? then Rejected
    else if Violates(table, rows[0]) then UniqueViolation
    else InsertAll(table + [rows[0]], rows[1..])
  }

  /** VMRepository.Create, as far as interfaces are concerned. */
  method CreateTx(table: Table, rows: seq<NicRow>) returns (r: TxResult)
    ensures r == InsertAll(table, rows)
  {
    var working := table;
    for i := 0 to |rows|
      invariant InsertAll(working, rows[i..]) == InsertAll(table, rows)
    {
      assert rows[i..][1..] == rows[i + 1..];
      if rows[i].address.Unparsable? {
        return Rejected;
      }
      if Violates(working, rows[i]) {
        return UniqueViolation;
      }
      working := working + [rows[i]];
    }
    r := Committed(working);
  }

  /** A committed insert appends exactly the rows, none clashing with the table or each other. */
  lemma {:induction false} CommitAppends(table: Table, rows: seq<NicRow>)
    ensures InsertAll(table, rows).Committed? ==> InsertAll(table, rows).table == table + rows
    ensures InsertAll(table, rows).Committed? && Unique(table) ==> Unique(table + rows)
    ensures InsertAll(table, rows).Committed? ==> forall i :: 0 <= i < |rows| ==> !rows[i].address.Unparsable?
    decreases |rows|
  {
    if rows == [] {
      assert table + rows == table;
    } else if InsertAll(table, rows).Committed? {
      CommitAppends(table + [rows[0]], rows[1..]);
      assert table + [rows[0]] + rows[1..] == table + rows;
    }
  }

  /** A unique violation names a row that clashes with a stored row or an earlier row of the VM. */
  lemma {:induction false} ViolationHasCause(table: Table, rows: seq<NicRow>)
    requires InsertAll(table, rows).UniqueViolation?
    ensures exists i :: 0 <= i < |rows| && Violates(table + rows[..i], rows[i])
    decreases |rows|
  {
    if Violates(table, rows[0]) {
      assert table + rows[..0] == table;
    } else {
      ViolationHasCause(table + [rows[0]], rows[1..]);
      var i :| 0 <= i < |rows| - 1 && Violates(table + [rows[0]] + rows[1..][..i], rows[1..][i]);
      assert table + [rows[0]] + rows[1..][..i] == table + rows[..i + 1];
    }
  }

  /** A clash anywhere prevents the commit. */
  lemma ClashPreventsCommit(table: Table, rows: seq<NicRow>, i: nat, j: nat)
    requires i < j < |rows| && Clash(rows[i], rows[j])
    ensures !InsertAll(table, rows).Committed?
    decreases |rows|
  {
    if InsertAll(table, rows).Committed? {
      if i == 0 {
        RowStaysVisible(table + [rows[0]], rows[1..], |table|, j - 1);
      } else {
        ClashPreventsCommit(table + [rows[0]], rows[1..], i - 1, j - 1);
      }
    }
  }

  lemma {:induction false} RowStaysVisible(table: Table, rows: seq<NicRow>, k: nat, j: nat)
    requires k < |table| && j < |rows| && Clash(table[k], rows[j])
    ensures !InsertAll(table, rows).Committed?
    decreases |rows|
  {
    if j > 0 {
      RowStaysVisible(table + [rows[0]], rows[1..], k, j - 1);
    }
  }

  function DeleteVm(table: Table, vm: VmId): (t: Table) {
    if table == [] then []
    else if table[0].vm == vm then DeleteVm(table[1..], vm)
    else [table[0]] + DeleteVm(table[1..], vm)
  }

  lemma {:induction false} DeletedRowsWereThere(table: Table, vm: VmId)
    ensures forall r :: r in DeleteVm(table, vm) ==> r in table && r.vm != vm
    ensures Unique(table) ==> Unique(DeleteVm(table, vm))
    ensures forall r :: r in table && r.vm != vm ==> r in DeleteVm(table, vm)
  {
    if table != [] {
      DeletedRowsWereThere(table[1..], vm);
      var rest := DeleteVm(table[1..], vm);
      assert forall r :: r in table[1..] ==> r in table;
      if Unique(table) {
        forall j | 0 <= j < |rest|
          ensures !Clash(table[0], rest[j])
        {
          assert rest[j] in table[1..];
          var k :| 0 <= k < |table[1..]| && table[1..][k] == rest[j];
          assert table[k + 1] == rest[j];
        }
      }
    }
  }

  /** Deleting a VM removes its rows and keeps every other row as often as it was there. */
  lemma {:induction false} DeleteKeepsOthers(table: Table, vm: VmId, r: NicRow)
    ensures multiset(DeleteVm(table, vm))[r] == if r.vm == vm then 0 else multiset(table)[r]
  {
    if table != [] {
      DeleteKeepsOthers(table[1..], vm, r);
      assert table == [table[0]] + table[1..];
    }
  }

  // ---------------------------------------------------------------- allocation

  ghost predicate Holds(row: NicRow, network: NetId, a: Addr) {
    row.network == network && row.address.Inet? && row.address.value.ip == a
  }

  /** The addresses in use on a network. */
  ghost function UsedOn(table: Table, network: NetId): set<Addr> {
    set i | 0 <= i < |table| && table[i].network == network && table[i].address.Inet? :: table[i].address.value.ip
  }

  lemma UsedOnHolds(table: Table, network: NetId, a: Addr)
    ensures a in UsedOn(table, network) <==> exists i :: 0 <= i < |table| && Holds(table[i], network, a)
  {
    if a in UsedOn(table, network) {
      var i :| 0 <= i < |table| && table[i].network == network && table[i].address.Inet?
          && table[i].address.value.ip == a;
      assert Holds(table[i], network, a);
    }
  }

  lemma UsedOnSplit(table: Table, rows: seq<NicRow>, network: NetId, a: Addr)
    requires a in UsedOn(table + rows, network)
    ensures a in UsedOn(table, network) || exists i :: 0 <= i < |rows| && Holds(rows[i], network, a)
  {
    UsedOnHolds(table + rows, network, a);
    var i :| 0 <= i < |table + rows| && Holds((table + rows)[i], network, a);
    UsedOnHolds(table, network, a);
    if i < |table| {
      assert Holds(table[i], network, a);
    } else {
      assert Holds(rows[i - |table|], network, a);
    }
  }

  lemma ViolatesSplit(table: Table, own: seq<NicRow>, row: NicRow)
    requires Violates(table + own, row)
    ensures Violates(table, row) || exists i :: 0 <= i < |own| && Clash(own[i], row)
  {
    var i :| 0 <= i < |table + own| && Clash((table + own)[i], row);
    if i < |table| {
      assert Clash(table[i], row);
    } else {
      assert Clash(own[i - |table|], row);
    }
  }

  /** The address AllocateIP gives for a network whose allocation subnet is known. */
  ghost function AllocSpec(table: Table, subnets: map<NetId, Cidr>, network: NetId): Option<Addr> {
    if network !in subnets then None else Pick(subnets[network], UsedOn(table, network))
  }

  method AllocateIP(table: Table, subnets: map<NetId, Cidr>, network: NetId) returns (r: Option<Cidr>)
    ensures r.Some? <==> AllocSpec(table, subnets, network).Some?
    ensures r.Some? ==> r.value == Cidr(AllocSpec(table, subnets, network).value, subnets[network].ones)
  {
    if network !in subnets {
      return None;
    }
    var used: seq<UsedText> := [];
    for i := 0 to |table|
      invariant UsedAddrs(used) == UsedOn(table[..i], network)
    {
      assert table[..i + 1] == table[..i] + [table[i]];
      UsedOnGrows(table[..i], table[i], network);
      if table[i].network == network && table[i].address.Inet? {
        UsedAddrsGrows(used, WithPrefix(table[i].address.value.ip, table[i].address.value.ones));
        used := used + [WithPrefix(table[i].address.value.ip, table[i].address.value.ones)];
      }
    }
    assert table[..|table|] == table;
    var a := NextAvailableIP(Block(subnets[network]), used);
    PickIsLeastFree(subnets[network], UsedOn(table, network));
    match a
    case Allocated(ip, ones, _) => r := Some(Cidr(ip, ones));
    case _ => r := None;
  }

  lemma UsedOnGrows(table: Table, row: NicRow, network: NetId)
    ensures UsedOn(table + [row], network) ==
            UsedOn(table, network)
            + (if row.network == network && row.address.Inet? then {row.address.value.ip} else {})
  {
    var t := table + [row];
    assert t[|table|] == row;
    assert forall i :: 0 <= i < |table| ==> t[i] == table[i];
  }

  lemma UsedAddrsGrows(used: seq<UsedText>, u: UsedText)
    requires u.HasAddr()
    ensures UsedAddrs(used + [u]) == UsedAddrs(used) + {u.ip}
  {
    var t := used + [u];
    assert t[|used|] == u;
    assert forall i :: 0 <= i < |used| ==> t[i] == used[i];
  }

  /** An allocated address is a host of the subnet that no stored interface of the network holds. */
  lemma AllocatedIsFreshHost(table: Table, subnets: map<NetId, Cidr>, network: NetId)
    requires AllocSpec(table, subnets, network).Some?
    ensures network in subnets
    ensures IsHost(subnets[network], AllocSpec(table, subnets, network).value)
    ensures AllocSpec(table, subnets, network).value !in UsedOn(table, network)
  {
    var a := AllocSpec(table, subnets, network).value;
    PickIsLeastFree(subnets[network], UsedOn(table, network));
    assert IsLeastFree(subnets[network], UsedOn(table, network), a);
  }
}

/**
  Loading disks and interfaces: one query per VM, or one query for a page of VMs whose rows are
  handed out through a map from VM id to object.
  */
module VmLoading {
  import opened Lists

  type VmId = string

  datatype Disk = Disk(id: string, name: string, sizeBytes: int, order: int, boot: bool, imageId: string)

  datatype Nic = Nic(id: string, name: string, network: string, mac: string, addresses: seq<string>, primary: bool)

  datatype DiskRow = DiskRow(vm: VmId, disk: Disk)

  datatype NicRow = NicRow(vm: VmId, nic: Nic)

  class VirtualMachine {
    const id: VmId
    var disks: seq<Disk>
    var nics: seq<Nic>

    constructor (id: VmId)
      ensures this.id == id && disks == [] && nics == []
    {
      this.id := id;
      disks, nics := [], [];
    }
  }

  /** The disks of one VM in the order of the rows. */
  function DisksOf(rows: seq<DiskRow>, vm: VmId): seq<Disk> {
    if rows == [] then [] else (if rows[0].vm == vm then [rows[0].disk] else []) + DisksOf(rows[1..], vm)
  }

  function NicsOf(rows: seq<NicRow>, vm: VmId): seq<Nic> {
    if rows == [] then [] else (if rows[0].vm == vm then [rows[0].nic] else []) + NicsOf(rows[1..], vm)
  }

  lemma {:induction false} DisksOfSnoc(rows: seq<DiskRow>, r: DiskRow, vm: VmId)
    ensures DisksOf(rows + [r], vm) == DisksOf(rows, vm) + (if r.vm == vm then [r.disk] else [])
  {
    if rows == [] {
      assert rows + [r] == [r];
    } else {
      DisksOfSnoc(rows[1..], r, vm);
      assert (rows + [r])[1..] == rows[1..] + [r];
    }
  }

  lemma {:induction false} NicsOfSnoc(rows: seq<NicRow>, r: NicRow, vm: VmId)
    ensures NicsOf(rows + [r], vm) == NicsOf(rows, vm) + (if r.vm == vm then [r.nic] else [])
  {
    if rows == [] {
      assert rows + [r] == [r];
    } else {
      NicsOfSnoc(rows[1..], r, vm);
      assert (rows + [r])[1..] == rows[1..] + [r];
    }
  }

  ghost predicate DistinctIds(vms: seq<VirtualMachine>) {
    forall i, j :: 0 <= i < j < |vms| ==> vms[i].id != vms[j].id
  }

  /** vmMap of batchLoadRelated. */
  method IndexById(vms: seq<VirtualMachine>) returns (m: map<VmId, VirtualMachine>)
    requires DistinctIds(vms)
    ensures forall i :: 0 <= i < |vms| ==> vms[i].id in m && m[vms[i].id] == vms[i]
    ensures forall id :: id in m ==> m[id] in vms && m[id].id == id
  {
    m := map[];
    for i := 0 to |vms|
      invariant forall j :: 0 <= j < i ==> vms[j].id in m && m[vms[j].id] == vms[j]
      invariant forall id :: id in m ==> m[id] in vms && m[id].id == id
    {
      m := m[vms[i].id := vms[i]];
    }
  }

  method AppendDisk(vms: seq<VirtualMachine>, vmMap: map<VmId, VirtualMachine>, row: DiskRow)
    requires forall id :: id in vmMap ==> vmMap[id] in vms && vmMap[id].id == id
    requires forall vm :: vm in vms ==> vm.id in vmMap && vmMap[vm.id] == vm
    modifies vms
    ensures forall vm :: vm in vms ==> vm.disks == old(vm.disks) + (if row.vm == vm.id then [row.disk] else [])
    ensures forall vm :: vm in vms ==> vm.nics == old(vm.nics)
  {
    if row.vm in vmMap {
      var target := vmMap[row.vm];
      target.disks := target.disks + [row.disk];
    }
  }

  method AppendNic(vms: seq<VirtualMachine>, vmMap: map<VmId, VirtualMachine>, row: NicRow)
    requires forall id :: id in vmMap ==> vmMap[id] in vms && vmMap[id].id == id
    requires forall vm :: vm in vms ==> vm.id in vmMap && vmMap[vm.id] == vm
    modifies vms
    ensures forall vm :: vm in vms ==> vm.nics == old(vm.nics) + (if row.vm == vm.id then [row.nic] else [])
    ensures forall vm :: vm in vms ==> vm.disks == old(vm.disks)
  {
    if row.vm in vmMap {
      var target := vmMap[row.vm];
      target.nics := target.nics + [row.nic];
    }
  }

  /** batchLoadRelated over the rows its two queries returned. */
  method BatchLoadRelated(vms: seq<VirtualMachine>, diskRows: seq<DiskRow>, nicRows: seq<NicRow>)
    requires DistinctIds(vms)
    modifies vms
    ensures forall vm :: vm in vms ==> vm.disks == old(vm.disks) + DisksOf(diskRows, vm.id)
    ensures forall vm :: vm in vms ==> vm.nics == old(vm.nics) + NicsOf(nicRows, vm.id)
  {
    var vmMap := IndexById(vms);
    for i := 0 to |diskRows|
      invariant forall vm :: vm in vms ==> vm.disks == old(vm.disks) + DisksOf(diskRows[..i], vm.id)
      invariant forall vm :: vm in vms ==> vm.nics == old(vm.nics)
    {
      DisksOfStep(diskRows, i);
      AppendDisk(vms, vmMap, diskRows[i]);
    }
    assert diskRows[..|diskRows|] == diskRows;
    for i := 0 to |nicRows|
      invariant forall vm :: vm in vms ==> vm.disks == old(vm.disks) + DisksOf(diskRows, vm.id)
      invariant forall vm :: vm in vms ==> vm.nics == old(vm.nics) + NicsOf(nicRows[..i], vm.id)
    {
      NicsOfStep(nicRows, i);
      AppendNic(vms, vmMap, nicRows[i]);
    }
    assert nicRows[..|nicRows|] == nicRows;
  }

  /** loadRelated over the rows its two queries returned for this VM. */
  method LoadRelated(vm: VirtualMachine, diskRows: seq<DiskRow>, nicRows: seq<NicRow>)
    requires forall i :: 0 <= i < |diskRows| ==> diskRows[i].vm == vm.id
    requires forall i :: 0 <= i < |nicRows| ==> nicRows[i].vm == vm.id
    modifies vm
    ensures vm.disks == old(vm.disks) + DisksOf(diskRows, vm.id)
    ensures vm.nics == old(vm.nics) + NicsOf(nicRows, vm.id)
  {
    for i := 0 to |diskRows|
      invariant vm.disks == old(vm.disks) + DisksOf(diskRows[..i], vm.id)
      invariant vm.nics == old(vm.nics)
    {
      DisksOfStep(diskRows, i);
      vm.disks := vm.disks + [diskRows[i].disk];
    }
    assert diskRows[..|diskRows|] == diskRows;
    for i := 0 to |nicRows|
      invariant vm.disks == old(vm.disks) + DisksOf(diskRows, vm.id)
      invariant vm.nics == old(vm.nics) + NicsOf(nicRows[..i], vm.id)
    {
      NicsOfStep(nicRows, i);
      vm.nics := vm.nics + [nicRows[i].nic];
    }
    assert nicRows[..|nicRows|] == nicRows;
  }

  lemma DisksOfStep(rows: seq<DiskRow>, i: nat)
    requires i < |rows|
    ensures forall vm ::
              DisksOf(rows[..i + 1], vm) == DisksOf(rows[..i], vm) + (if rows[i].vm == vm then [rows[i].disk] else [])
  {
    assert rows[..i + 1] == rows[..i] + [rows[i]];
    forall vm {
      DisksOfSnoc(rows[..i], rows[i], vm);
    }
  }

  lemma NicsOfStep(rows: seq<NicRow>, i: nat)
    requires i < |rows|
    ensures forall vm ::
              NicsOf(rows[..i + 1], vm) == NicsOf(rows[..i], vm) + (if rows[i].vm == vm then [rows[i].nic] else [])
  {
    assert rows[..i + 1] == rows[..i] + [rows[i]];
    forall vm {
      NicsOfSnoc(rows[..i], rows[i], vm);
    }
  }

  // ---------------------------------------------------------------- batch against single

  function OfVm(vm: VmId): DiskRow -> bool {
    (r: DiskRow) => r.vm == vm
  }

  function OfAny(ids: set<VmId>): DiskRow -> bool {
    (r: DiskRow) => r.vm in ids
  }

  function NicOfAny(ids: set<VmId>): NicRow -> bool {
    (r: NicRow) => r.vm in ids
  }

  function Order(r: DiskRow): int {
    r.disk.order
  }

  /** `result` answers SELECT ... WHERE vm_id = ANY(ids) ORDER BY "order": ties in any order. */
  ghost predicate DiskQuery(table: seq<DiskRow>, ids: set<VmId>, result: seq<DiskRow>) {
    multiset(result) == multiset(Filter(table, OfAny(ids))) && Sorted(result, Order)
  }

  /** The interface query has no ORDER BY. */
  ghost predicate NicQuery(table: seq<NicRow>, ids: set<VmId>, result: seq<NicRow>) {
    multiset(result) == multiset(Filter(table, NicOfAny(ids)))
  }

  ghost predicate DistinctOrders(table: seq<DiskRow>, vm: VmId) {
    DistinctKeys(Filter(table, OfVm(vm)), Order)
  }

  function Disks(rows: seq<DiskRow>): seq<Disk> {
    if rows == [] then [] else [rows[0].disk] + Disks(rows[1..])
  }

  lemma {:induction false} DisksOfIsFilter(rows: seq<DiskRow>, vm: VmId)
    ensures DisksOf(rows, vm) == Disks(Filter(rows, OfVm(vm)))
  {
    if rows != [] {
      DisksOfIsFilter(rows[1..], vm);
      var p := OfVm(vm);
      assert p(rows[0]) <==> rows[0].vm == vm;
      if rows[0].vm == vm {
        assert Filter(rows, p) == [rows[0]] + Filter(rows[1..], p);
        assert Filter(rows, p)[1..] == Filter(rows[1..], p);
      } else {
        assert Filter(rows, p) == Filter(rows[1..], p);
      }
    }
  }

  /** What a query returned for one VM, sorted, has the table's rows of that VM. */
  lemma RowsOfVm(table: seq<DiskRow>, ids: set<VmId>, result: seq<DiskRow>, vm: VmId)
    requires DiskQuery(table, ids, result) && vm in ids
    ensures
      var p := OfVm(vm);
      Sorted(Filter(result, p), Order) && multiset(Filter(result, p)) == multiset(Filter(table, p))
  {
    var p, q := OfVm(vm), OfAny(ids);
    FilterKeepsSorted(result, p, Order);
    FilterSameElements(result, Filter(table, q), p);
    FilterTwice(table, p, q);
  }

  lemma DistinctKeysReorder<T>(a: seq<T>, b: seq<T>, key: T -> int)
    requires multiset(a) == multiset(b) && DistinctKeys(a, key)
    ensures DistinctKeys(b, key)
  {
    forall i, j | 0 <= i < j < |b|
      ensures key(b[i]) != key(b[j])
    {
      if key(b[i]) == key(b[j]) {
        SameElementsSameMembers(a, b, b[i]);
        SameElementsSameMembers(a, b, b[j]);
        var x :| 0 <= x < |a| && a[x] == b[i];
        var y :| 0 <= y < |a| && a[y] == b[j];
        assert x == y;
        TwiceWhenEqual(b, i, j);
        OnceInDistinct(a, x);
      }
    }
  }

  /** The batched loader gives every VM the disks the single loader gives it, in the same order. */
  lemma BatchLoadsSameDisks(table: seq<DiskRow>, ids: set<VmId>, batch: seq<DiskRow>, single: seq<DiskRow>, vm: VmId)
    requires vm in ids && DistinctOrders(table, vm)
    requires DiskQuery(table, ids, batch) && DiskQuery(table, {vm}, single)
    ensures DisksOf(batch, vm) == DisksOf(single, vm)
  {
    var p := OfVm(vm);
    RowsOfVm(table, ids, batch, vm);
    RowsOfVm(table, {vm}, single, vm);
    DistinctKeysReorder(Filter(table, p), Filter(batch, p), Order);
    SortedOrderIsUnique(Filter(batch, p), Filter(single, p), Order);
    DisksOfIsFilter(batch, vm);
    DisksOfIsFilter(single, vm);
  }

  // ---------------------------------------------------------------- when disk orders repeat

  lemma {:induction false} DisksAt(rows: seq<DiskRow>, i: nat)
    requires i < |rows|
    ensures |Disks(rows)| == |rows| && Disks(rows)[i] == rows[i].disk
  {
    if |rows| > 1 {
      DisksAt(rows[1..], if i > 0 then i - 1 else 0);
    }
  }

  lemma TieInAnswer(table: seq<DiskRow>, single: seq<DiskRow>, vm: VmId) returns (i: nat, j: nat)
    requires DistinctElements(table) && DiskQuery(table, {vm}, single) && !DistinctOrders(table, vm)
    ensures i < j < |single| && Order(single[i]) == Order(single[j])
  {
    OnlyThatVm(table, single, vm);
    if DistinctKeys(single, Order) {
      DistinctKeysReorder(single, Filter(table, OfVm(vm)), Order);
      assert false;
    }
    i, j :| 0 <= i < j < |single| && Order(single[i]) == Order(single[j]);
  }

  lemma DifferentAnswersShow(table: seq<DiskRow>, a: seq<DiskRow>, b: seq<DiskRow>, vm: VmId, i: nat)
    requires DistinctElements(table) && DiskQuery(table, {vm}, a) && DiskQuery(table, {vm}, b)
    requires i < |a| && i < |b| && a[i] != b[i]
    ensures DisksOf(a, vm) != DisksOf(b, vm)
  {
    OnlyThatVm(table, a, vm);
    OnlyThatVm(table, b, vm);
    DisksOfIsFilter(a, vm);
    DisksOfIsFilter(b, vm);
    DisksAt(a, i);
    DisksAt(b, i);
    assert a[i].vm == b[i].vm;
  }

  /** An answer to the single query that holds two disks of equal order has another order. */
  lemma TwoSingleAnswers(table: seq<DiskRow>, single: seq<DiskRow>, vm: VmId) returns (other: seq<DiskRow>)
    requires DistinctElements(table) && DiskQuery(table, {vm}, single) && !DistinctOrders(table, vm)
    ensures DiskQuery(table, {vm}, other) && DisksOf(other, vm) != DisksOf(single, vm)
  {
    var i, j := TieInAnswer(table, single, vm);
    SwapEqualKeys(single, Order, i, j);
    other := single[i := single[j]][j := single[i]];
    AnswerIsDistinct(table, single, vm);
    DifferentAnswersShow(table, other, single, vm, i);
  }

  lemma AnswerIsDistinct(table: seq<DiskRow>, single: seq<DiskRow>, vm: VmId)
    requires DistinctElements(table) && DiskQuery(table, {vm}, single)
    ensures DistinctElements(single)
  {
    OnlyThatVm(table, single, vm);
  }

  lemma SameFilter(table: seq<DiskRow>, vm: VmId)
    ensures Filter(table, OfVm(vm)) == Filter(table, OfAny({vm}))
  {
    if table != [] {
      SameFilter(table[1..], vm);
      assert OfVm(vm)(table[0]) == OfAny({vm})(table[0]);
    }
  }

  lemma OnlyThatVm(table: seq<DiskRow>, result: seq<DiskRow>, vm: VmId)
    requires DistinctElements(table) && DiskQuery(table, {vm}, result)
    ensures Filter(result, OfVm(vm)) == result && DistinctElements(result)
    ensures multiset(result) == multiset(Filter(table, OfVm(vm)))
    ensures forall i :: 0 <= i < |result| ==> result[i].vm == vm
  {
    SameFilter(table, vm);
    var p := OfVm(vm);
    forall r | r in result
      ensures p(r)
    {
      SameElementsSameMembers(result, Filter(table, p), r);
      FilterMember(table, p, r);
    }
    FilterPrefix(result, p, |result|);
    FilterKeepsDistinct(table, p);
    ReorderedDistinct(Filter(table, p), result);
  }

  /**
    Over different rows the two loaders are sure to agree on a VM's disks exactly when no two of its
    disks have the same order: the two queries break ties independently.
    */
  lemma BatchLoadsSameDisksIff(table: seq<DiskRow>, ids: set<VmId>, vm: VmId)
    requires DistinctElements(table) && vm in ids
    ensures
      (forall batch, single :: DiskQuery(table, ids, batch) && DiskQuery(table, {vm}, single) ==>
        DisksOf(batch, vm) == DisksOf(single, vm)) <==> DistinctOrders(table, vm)
  {
    if DistinctOrders(table, vm) {
      forall batch, single | DiskQuery(table, ids, batch) && DiskQuery(table, {vm}, single)
        ensures DisksOf(batch, vm) == DisksOf(single, vm)
      {
        BatchLoadsSameDisks(table, ids, batch, single, vm);
      }
    } else {
      var batch := Arrange(Filter(table, OfAny(ids)), Order);
      var single := Arrange(Filter(table, OfAny({vm})), Order);
      var other := TwoSingleAnswers(table, single, vm);
      assert DiskQuery(table, ids, batch) && DiskQuery(table, {vm}, single);
    }
  }

  // ---------------------------------------------------------------- interfaces

  lemma {:induction false} NicsOfCount(rows: seq<NicRow>, vm: VmId, n: Nic)
    ensures multiset(NicsOf(rows, vm))[n] == multiset(rows)[NicRow(vm, n)]
  {
    if rows != [] {
      NicsOfCount(rows[1..], vm, n);
      assert rows == [rows[0]] + rows[1..];
      assert multiset(rows) == multiset{rows[0]} + multiset(rows[1..]);
    }
  }

  /** Interfaces come without an order; both loaders give the same ones, equally often. */
  lemma BatchLoadsSameNics(table: seq<NicRow>, ids: set<VmId>, batch: seq<NicRow>, single: seq<NicRow>, vm: VmId)
    requires vm in ids && NicQuery(table, ids, batch) && NicQuery(table, {vm}, single)
    ensures multiset(NicsOf(batch, vm)) == multiset(NicsOf(single, vm))
  {
    var some, same := multiset(NicsOf(batch, vm)), multiset(NicsOf(single, vm));
    forall n | n in some || n in same
      ensures some[n] == same[n]
    {
      NicsOfCount(batch, vm, n);
      NicsOfCount(single, vm, n);
      FilterCount(table, NicOfAny(ids), NicRow(vm, n));
      FilterCount(table, NicOfAny({vm}), NicRow(vm, n));
    }
    EqualCounts(some, same);
  }
}

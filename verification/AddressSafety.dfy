/**
  Any number of CreateVM and Clone calls, retrying and finishing at their own pace, interleaved
  with deletions: in every reachable state the interface table has no duplicate addresses and
  holds only host addresses.
  */
module AddressSafety {
  import opened Common
  import opened Ipv4
  import opened Ipam
  import opened NicTable

  datatype Kind = Create | Clone

  datatype Phase =
    | Building
    | Inserting(attempt: nat)
    | Reallocating(attempt: nat, next: nat)
    | Finished(committed: bool)

  /** A call in progress: networks still to be served, interfaces built so far, and where it stands. */
  datatype Call = Call(kind: Kind, vm: VmId, pending: seq<NetId>, rows: seq<NicRow>, phase: Phase)

  type Pid = nat

  datatype State = State(table: Table, calls: map<Pid, Call>)

  datatype Action =
    | Begin(pid: Pid, kind: Kind, vm: VmId, networks: seq<NetId>)
    | BuildNext(pid: Pid, mac: Mac)
    | CloneDefaultNic(pid: Pid, network: NetId, mac: Mac)
    | TryInsert(pid: Pid)
    | ReallocNext(pid: Pid, mac: Mac)
    | DeleteVM(vm: VmId)

  type Subnets = map<NetId, Cidr>

  ghost function AddressOf(table: Table, subnets: Subnets, network: NetId): NicAddress {
    match AllocSpec(table, subnets, network)
    case Some(a) => Inet(Cidr(a, subnets[network].ones))
    case None => NoAddress
  }

  ghost function Built(s: State, subnets: Subnets, c: Call, mac: Mac): Call
    requires c.phase.Building? && c.pending != []
  {
    var network := c.pending[0];
    var address := if network == "" then NoAddress else AddressOf(s.table, subnets, network);
    if network != "" && address.NoAddress? && c.kind.Create? then c.(phase := Finished(false))
    else c.(pending := c.pending[1..], rows := c.rows + [NicRow(c.vm, network, address, mac)])
  }

  /** The source ignores the allocation error here and stores an empty address text. */
  ghost function WithDefaultNic(s: State, subnets: Subnets, c: Call, network: NetId, mac: Mac): Call {
    var found := AllocSpec(s.table, subnets, network).Some? && network != "";
    var address := if found then AddressOf(s.table, subnets, network) else Unparsable;
    c.(rows := [NicRow(c.vm, network, address, mac)])
  }

  ghost function AfterViolation(c: Call, attempt: nat): Call {
    if c.kind.Clone? && attempt >= 1 then c.(phase := Finished(false)) else c.(phase := Reallocating(attempt, 0))
  }

  ghost function Reallocated(s: State, subnets: Subnets, c: Call, mac: Mac): Call
    requires c.phase.Reallocating?
  {
    var i, attempt := c.phase.next, c.phase.attempt;
    if i < |c.rows| then
      var row := c.rows[i];
      var address := if row.network == "" then NoAddress else AddressOf(s.table, subnets, row.network);
      var moved := if address.Inet? then row.(address := address) else row;
      var renamed := if c.kind.Clone? || row.network != "" then moved.(mac := mac) else moved;
      c.(rows := c.rows[i := renamed], phase := Reallocating(attempt, i + 1))
    else if c.kind.Create? && attempt >= 2 then c.(phase := Finished(false))
    else c.(phase := Inserting(attempt + 1))
  }

  ghost function Attempted(c: Call): Option<nat> {
    match c.phase
    case Building => if c.pending == [] then Some(0) else None
    case Inserting(a) => Some(a)
    case _ => None
  }

  /** The effect of an action; one that is not enabled changes nothing. */
  ghost function Next(s: State, subnets: Subnets, a: Action): State {
    match a
    case Begin(pid, kind, vm, networks) =>
      if pid in s.calls then s else s.(calls := s.calls[pid := Call(kind, vm, networks, [], Building)])
    case BuildNext(pid, mac) =>
      if pid in s.calls && s.calls[pid].phase.Building? && s.calls[pid].pending != []
      then s.(calls := s.calls[pid := Built(s, subnets, s.calls[pid], mac)]) else s
    case CloneDefaultNic(pid, network, mac) =>
      if pid in s.calls && s.calls[pid].phase.Building? && s.calls[pid].kind.Clone?
         && s.calls[pid].pending == [] && s.calls[pid].rows == []
      then s.(calls := s.calls[pid := WithDefaultNic(s, subnets, s.calls[pid], network, mac)]) else s
    case TryInsert(pid) =>
      if pid in s.calls && Attempted(s.calls[pid]).Some? then
        var c := s.calls[pid];
        match InsertAll(s.table, c.rows)
        case Committed(table) => State(table, s.calls[pid := c.(phase := Finished(true))])
        case UniqueViolation => s.(calls := s.calls[pid := AfterViolation(c, Attempted(c).value)])
        case Rejected => s.(calls := s.calls[pid := c.(phase := Finished(false))])
      else s
    case ReallocNext(pid, mac) =>
      if pid in s.calls && s.calls[pid].phase.Reallocating?
      then s.(calls := s.calls[pid := Reallocated(s, subnets, s.calls[pid], mac)]) else s
    case DeleteVM(vm) =>
      s.(table := DeleteVm(s.table, vm))
  }

  /** The state after a run that starts with an empty table. */
  ghost function Exec(subnets: Subnets, run: seq<Action>): State {
    if run == [] then State([], map[])
    else Next(Exec(subnets, run[..|run| - 1]), subnets, run[|run| - 1])
  }

  /** An allocated address is a host of the subnet its network allocates from. */
  ghost predicate HostRow(subnets: Subnets, row: NicRow) {
    row.address.Inet? ==>
      && row.network != "" && row.network in subnets
      && IsHost(subnets[row.network], row.address.value.ip)
      && row.address.value.ones == subnets[row.network].ones
  }

  ghost predicate HostRows(subnets: Subnets, rows: seq<NicRow>) {
    forall i :: 0 <= i < |rows| ==> HostRow(subnets, rows[i])
  }

  ghost predicate Inv(subnets: Subnets, s: State) {
    && Unique(s.table)
    && HostRows(subnets, s.table)
    && forall pid :: pid in s.calls ==> HostRows(subnets, s.calls[pid].rows)
  }

  lemma AddressOfIsHost(table: Table, subnets: Subnets, vm: VmId, network: NetId, mac: Mac)
    requires network != ""
    ensures HostRow(subnets, NicRow(vm, network, AddressOf(table, subnets, network), mac))
  {
    if AllocSpec(table, subnets, network).Some? {
      AllocatedIsFreshHost(table, subnets, network);
    }
  }

  lemma NextKeepsInv(s: State, subnets: Subnets, a: Action)
    requires Inv(subnets, s)
    ensures Inv(subnets, Next(s, subnets, a))
  {
    match a
    case Begin(_, _, _, _) =>
    case BuildNext(pid, mac) =>
      if pid in s.calls && s.calls[pid].pending != [] && s.calls[pid].pending[0] != "" {
        AddressOfIsHost(s.table, subnets, s.calls[pid].vm, s.calls[pid].pending[0], mac);
      }
    case CloneDefaultNic(pid, network, mac) =>
      if pid in s.calls && network != "" {
        AddressOfIsHost(s.table, subnets, s.calls[pid].vm, network, mac);
      }
    case TryInsert(pid) =>
      if pid in s.calls {
        CommitAppends(s.table, s.calls[pid].rows);
      }
    case ReallocNext(pid, mac) =>
      if pid in s.calls && s.calls[pid].phase.Reallocating? {
        ReallocatedKeepsHosts(s, subnets, s.calls[pid], mac);
      }
    case DeleteVM(vm) =>
      DeletedRowsWereThere(s.table, vm);
      assert HostRows(subnets, DeleteVm(s.table, vm));
  }

  lemma ReallocatedKeepsHosts(s: State, subnets: Subnets, c: Call, mac: Mac)
    requires c.phase.Reallocating? && HostRows(subnets, c.rows)
    ensures HostRows(subnets, Reallocated(s, subnets, c, mac).rows)
  {
    var i := c.phase.next;
    if i < |c.rows| && c.rows[i].network != "" {
      AddressOfIsHost(s.table, subnets, c.vm, c.rows[i].network, mac);
    }
  }

  lemma {:induction false} EveryRunKeepsInv(subnets: Subnets, run: seq<Action>)
    ensures Inv(subnets, Exec(subnets, run))
  {
    if run != [] {
      EveryRunKeepsInv(subnets, run[..|run| - 1]);
      NextKeepsInv(Exec(subnets, run[..|run| - 1]), subnets, run[|run| - 1]);
    }
  }

  /** A host address lies in its block and is none of the three reserved addresses. */
  lemma HostIsNotReserved(c: Cidr, a: Addr)
    requires IsHost(c, a)
    ensures Contains(c, a)
    ensures a != Network(c) && a != Wrap(Network(c) + 1) && a != Broadcast(c)
  {
    ContainsIsInterval(c, a);
    BlockFits(c);
  }

  lemma TableAddressesAreSafe(subnets: Subnets, table: Table, i: nat, j: nat)
    requires Unique(table) && HostRows(subnets, table)
    requires i < |table| && j < |table| && table[i].address.Inet?
    ensures i != j && table[i].network == table[j].network && table[j].address.Inet? ==>
              table[i].address.value.ip != table[j].address.value.ip
    ensures table[i].network in subnets && IsHost(subnets[table[i].network], table[i].address.value.ip)
  {
    assert HostRow(subnets, table[i]) && HostRow(subnets, table[j]);
    assert i < j ==> !Clash(table[i], table[j]);
    assert j < i ==> !Clash(table[j], table[i]);
  }

  /** In every run: interfaces of one network hold different addresses, and none holds the
      network, gateway or broadcast address of its subnet. */
  lemma CommittedAddressesAreSafe(subnets: Subnets, run: seq<Action>, i: nat, j: nat)
    requires i < |Exec(subnets, run).table| && j < |Exec(subnets, run).table|
    requires Exec(subnets, run).table[i].address.Inet?
    ensures
      var x, y := Exec(subnets, run).table[i], Exec(subnets, run).table[j];
      && (i != j && x.network == y.network && y.address.Inet? ==> x.address.value.ip != y.address.value.ip)
      && x.network in subnets
      && Contains(subnets[x.network], x.address.value.ip)
      && x.address.value.ip != Network(subnets[x.network])
      && x.address.value.ip != Wrap(Network(subnets[x.network]) + 1)
      && x.address.value.ip != Broadcast(subnets[x.network])
  {
    EveryRunKeepsInv(subnets, run);
    var table := Exec(subnets, run).table;
    TableAddressesAreSafe(subnets, table, i, j);
    HostIsNotReserved(subnets[table[i].network], table[i].address.value.ip);
  }

  // ---------------------------------------------------------------- what a step does to the table

  /** The table changes only by the commit of a call's own rows, which ends the call, and by deletes. */
  lemma OnlyCommitsAndDeletesWrite(s: State, subnets: Subnets, a: Action)
    ensures
      var s' := Next(s, subnets, a);
      match a
      case DeleteVM(vm) => s'.table == DeleteVm(s.table, vm) && s'.calls == s.calls
      case TryInsert(pid) =>
        && (s'.table == s.table || (pid in s.calls && s'.table == s.table + s.calls[pid].rows))
        && (pid in s.calls && !s.calls[pid].phase.Finished? ==>
              (s'.calls[pid].phase == Finished(true) <==>
               Attempted(s.calls[pid]).Some? && InsertAll(s.table, s.calls[pid].rows).Committed?))
        && (pid in s.calls && !s.calls[pid].phase.Finished? && s'.calls[pid].phase == Finished(true) ==>
              s'.table == s.table + s.calls[pid].rows)
      case _ => s'.table == s.table
  {
    if a.TryInsert? && a.pid in s.calls {
      CommitAppends(s.table, s.calls[a.pid].rows);
    }
  }

  /** A call on its own stores its VM's interface with the address allocated for it. */
  lemma UndisturbedCreateStores(s: State, subnets: Subnets, pid: Pid, vm: VmId, network: NetId, mac: Mac)
    requires pid !in s.calls && network != "" && AllocSpec(s.table, subnets, network).Some?
    requires forall i :: 0 <= i < |s.table| ==> s.table[i].mac != mac
    ensures
      var s1 := Next(s, subnets, Begin(pid, Create, vm, [network]));
      var s2 := Next(s1, subnets, BuildNext(pid, mac));
      var s3 := Next(s2, subnets, TryInsert(pid));
      var address := Inet(Cidr(AllocSpec(s.table, subnets, network).value, subnets[network].ones));
      s3.table == s.table + [NicRow(vm, network, address, mac)] && s3.calls[pid].phase == Finished(true)
  {
    var a := AllocSpec(s.table, subnets, network).value;
    var row := NicRow(vm, network, Inet(Cidr(a, subnets[network].ones)), mac);
    FreshRowCommits(s.table, subnets, row);
    var s1 := Next(s, subnets, Begin(pid, Create, vm, [network]));
    var s2 := Next(s1, subnets, BuildNext(pid, mac));
    assert s2.calls[pid] == Call(Create, vm, [], [row], Building);
  }

  /** Without a free address a create ends unsuccessfully, while a clone goes on without one. */
  lemma NoAddressEndsCreateOnly(s: State, subnets: Subnets, pid: Pid, mac: Mac)
    requires pid in s.calls && s.calls[pid].phase.Building? && s.calls[pid].pending != []
    requires s.calls[pid].pending[0] != "" && AllocSpec(s.table, subnets, s.calls[pid].pending[0]).None?
    ensures
      var c, c' := s.calls[pid], Next(s, subnets, BuildNext(pid, mac)).calls[pid];
      if c.kind.Create? then c'.phase == Finished(false)
      else
        && c'.phase == Building && c'.pending == c.pending[1..]
        && c'.rows == c.rows + [NicRow(c.vm, c.pending[0], NoAddress, mac)]
  {
  }

  /** A clone that needs the default network and finds no address there is refused by the database. */
  lemma DefaultWithoutAddressFails(s: State, subnets: Subnets, pid: Pid, network: NetId, mac: Mac)
    requires pid in s.calls && s.calls[pid].phase.Building? && s.calls[pid].kind.Clone?
    requires s.calls[pid].pending == [] && s.calls[pid].rows == []
    requires network == "" || AllocSpec(s.table, subnets, network).None?
    ensures
      var s1 := Next(s, subnets, CloneDefaultNic(pid, network, mac));
      var s2 := Next(s1, subnets, TryInsert(pid));
      s2.table == s.table && s2.calls[pid].phase == Finished(false)
  {
  }

  /** Reallocation gives an interface the address its network has to give now, if any, and a new MAC;
      a create leaves interfaces without a network alone, a clone gives them a new MAC too. */
  lemma ReallocationRenews(s: State, subnets: Subnets, pid: Pid, mac: Mac)
    requires pid in s.calls && s.calls[pid].phase.Reallocating? && s.calls[pid].phase.next < |s.calls[pid].rows|
    ensures
      var c, c' := s.calls[pid], Next(s, subnets, ReallocNext(pid, mac)).calls[pid];
      var i := c.phase.next;
      && |c'.rows| == |c.rows| && (forall j :: 0 <= j < |c.rows| && j != i ==> c'.rows[j] == c.rows[j])
      && c'.rows[i].vm == c.rows[i].vm && c'.rows[i].network == c.rows[i].network
      && c'.rows[i].mac == (if c.kind.Create? && c.rows[i].network == "" then c.rows[i].mac else mac)
      && (if c.rows[i].network != "" && AllocSpec(s.table, subnets, c.rows[i].network).Some?
          then c'.rows[i].address == AddressOf(s.table, subnets, c.rows[i].network)
          else c'.rows[i].address == c.rows[i].address)
  {
  }

  /** A call that lost its race and is then left alone stores its interface with the renewed address and MAC. */
  lemma UndisturbedRetryStores(s: State, subnets: Subnets, pid: Pid, row: NicRow, mac: Mac)
    requires pid in s.calls && s.calls[pid].rows == [row]
    requires s.calls[pid].phase.Reallocating? && s.calls[pid].phase.next == 0
    requires s.calls[pid].kind.Clone? || s.calls[pid].phase.attempt < 2
    requires row.network != "" && AllocSpec(s.table, subnets, row.network).Some?
    requires forall i :: 0 <= i < |s.table| ==> s.table[i].mac != mac
    ensures
      var s1 := Next(s, subnets, ReallocNext(pid, mac));
      var s2 := Next(s1, subnets, ReallocNext(pid, mac));
      var s3 := Next(s2, subnets, TryInsert(pid));
      && s3.table == s.table + [row.(address := AddressOf(s.table, subnets, row.network), mac := mac)]
      && s3.calls[pid].phase == Finished(true)
  {
    var row' := row.(address := AddressOf(s.table, subnets, row.network), mac := mac);
    FreshRowCommits(s.table, subnets, row');
    var s1 := Next(s, subnets, ReallocNext(pid, mac));
    assert s1.calls[pid].rows == [row'];
  }

  /** A row with a newly allocated address and a MAC nobody has can be inserted. */
  lemma FreshRowCommits(table: Table, subnets: Subnets, row: NicRow)
    requires row.network != "" && AllocSpec(table, subnets, row.network).Some?
    requires row.address == AddressOf(table, subnets, row.network)
    requires forall i :: 0 <= i < |table| ==> table[i].mac != row.mac
    ensures InsertAll(table, [row]) == Committed(table + [row])
  {
    var a := AllocSpec(table, subnets, row.network).value;
    AllocatedIsFreshHost(table, subnets, row.network);
    UsedOnHolds(table, row.network, a);
    forall i | 0 <= i < |table|
      ensures !Clash(table[i], row)
    {
      assert !Holds(table[i], row.network, a);
    }
    assert InsertAll(table, [row]) == InsertAll(table + [row], []);
  }

  // ---------------------------------------------------------------- number of attempts

  /** A create inserts at most three times, a clone at most twice. */
  predicate WithinAttempts(c: Call) {
    match c.phase
    case Inserting(a) => a <= if c.kind.Create? then 2 else 1
    case Reallocating(a, _) => a <= if c.kind.Create? then 2 else 0
    case _ => true
  }

  ghost predicate AllWithinAttempts(s: State) {
    forall pid :: pid in s.calls ==> WithinAttempts(s.calls[pid])
  }

  lemma NextKeepsAttempts(s: State, subnets: Subnets, a: Action)
    requires AllWithinAttempts(s)
    ensures AllWithinAttempts(Next(s, subnets, a))
  {
  }

  lemma {:induction false} AttemptsAreBounded(subnets: Subnets, run: seq<Action>)
    ensures AllWithinAttempts(Exec(subnets, run))
  {
    if run != [] {
      AttemptsAreBounded(subnets, run[..|run| - 1]);
      NextKeepsAttempts(Exec(subnets, run[..|run| - 1]), subnets, run[|run| - 1]);
    }
  }
}

/**
  CreateVM's read-pick-insert-retry loop against arbitrary interference.

  Database operations of one CreateVM call are numbered 0, 1, 2, ...; before operation k a batch
  of rival transactions `rivals(k)` runs. A universally quantified `rivals` stands for every
  interleaving with other creates, clones and deletes.
  */
module CreateRetry {
  import opened Common
  import opened Ipv4
  import opened Ipam
  import opened NicTable

  datatype Txn = Insert(rows: seq<NicRow>) | Delete(vm: VmId)

  function Apply(table: Table, t: Txn): Table {
    match t
    case Delete(vm) => DeleteVm(table, vm)
    case Insert(rows) => var r := InsertAll(table, rows); if r.Committed? then r.table else table
  }

  function Run(table: Table, ts: seq<Txn>): Table {
    if ts == [] then table else Apply(Run(table, ts[..|ts| - 1]), ts[|ts| - 1])
  }

  /** What the world of one call consists of. */
  datatype World = World(start: Table, rivals: nat -> seq<Txn>, subnets: map<NetId, Cidr>, mac: (nat, int) -> Mac) {
    /** The table operation k finds before its batch of rivals, if the call itself wrote nothing. */
    ghost function Before(k: nat): Table
      decreases k, 0
    {
      if k == 0 then start else At(k - 1)
    }

    /** The table operation k reads. */
    ghost function At(k: nat): Table
      decreases k, 1
    {
      Run(Before(k), rivals(k))
    }

    ghost predicate Quiet() {
      forall k :: rivals(k) == []
    }

    /** Generated MACs of different interfaces differ, and no stored row ever has one. */
    ghost predicate FreshMacs() {
      && (forall i, a, j, b :: i != j ==> mac(i, a) != mac(j, b))
      && (forall i, a, k: nat, n: nat :: n < |At(k)| ==> At(k)[n].mac != mac(i, a))
    }
  }

  /** Transaction t, run on `before`, commits a row holding the address. */
  ghost predicate CommitsAddress(before: Table, t: Txn, network: NetId, a: Addr) {
    && t.Insert?
    && InsertAll(before, t.rows).Committed?
    && exists i :: 0 <= i < |t.rows| && Holds(t.rows[i], network, a)
  }

  /** Some rival committed the address after operation r and not later than operation w. */
  ghost predicate RivalBetween(world: World, network: NetId, a: Addr, r: nat, w: nat) {
    exists k: nat, m: nat ::
      && r < k <= w
      && m < |world.rivals(k)|
      && CommitsAddress(Run(world.Before(k), world.rivals(k)[..m]), world.rivals(k)[m], network, a)
  }

  lemma AppearsInTxn(table: Table, t: Txn, network: NetId, a: Addr)
    requires a !in UsedOn(table, network) && a in UsedOn(Apply(table, t), network)
    ensures CommitsAddress(table, t, network, a)
  {
    match t
    case Delete(vm) =>
      DeleteAddsNothing(table, vm, network);
    case Insert(rows) =>
      CommitAppends(table, rows);
      UsedOnSplit(table, rows, network, a);
  }

  lemma DeleteAddsNothing(table: Table, vm: VmId, network: NetId)
    ensures UsedOn(DeleteVm(table, vm), network) <= UsedOn(table, network)
  {
    forall a | a in UsedOn(DeleteVm(table, vm), network)
      ensures a in UsedOn(table, network)
    {
      UsedOnHolds(DeleteVm(table, vm), network, a);
      var i :| 0 <= i < |DeleteVm(table, vm)| && Holds(DeleteVm(table, vm)[i], network, a);
      DeletedRowsWereThere(table, vm);
      var j :| 0 <= j < |table| && table[j] == DeleteVm(table, vm)[i];
      UsedOnHolds(table, network, a);
    }
  }

  lemma {:induction false} AppearsInBatch(table: Table, ts: seq<Txn>, network: NetId, a: Addr)
    requires a !in UsedOn(table, network) && a in UsedOn(Run(table, ts), network)
    ensures exists m :: 0 <= m < |ts| && CommitsAddress(Run(table, ts[..m]), ts[m], network, a)
  {
    var last := |ts| - 1;
    if a in UsedOn(Run(table, ts[..last]), network) {
      AppearsInBatch(table, ts[..last], network, a);
      var m :| 0 <= m < last && CommitsAddress(Run(table, ts[..last][..m]), ts[..last][m], network, a);
      assert ts[..last][..m] == ts[..m];
    } else {
      AppearsInTxn(Run(table, ts[..last]), ts[last], network, a);
    }
  }

  /** An address absent when read and present at the insert was committed by a rival in between. */
  lemma {:induction false} AppearsInWindow(world: World, network: NetId, a: Addr, r: nat, w: nat)
    requires r <= w
    requires a !in UsedOn(world.At(r), network) && a in UsedOn(world.At(w), network)
    ensures RivalBetween(world, network, a, r, w)
    decreases w
  {
    if a in UsedOn(world.At(w - 1), network) {
      AppearsInWindow(world, network, a, r, w - 1);
      var k: nat, m: nat :| r < k <= w - 1 && m < |world.rivals(k)|
        && CommitsAddress(Run(world.Before(k), world.rivals(k)[..m]), world.rivals(k)[m], network, a);
      assert r < k <= w;
    } else {
      AppearsInBatch(world.At(w - 1), world.rivals(w), network, a);
    }
  }

  // ---------------------------------------------------------------- one call

  /** Row i of the call was last given its address by the read at operation readAt[i]. */
  ghost predicate ReadFrom(world: World, row: NicRow, readAt: nat, now: nat) {
    if row.network == "" then row.address.NoAddress?
    else
      && readAt < now
      && AllocSpec(world.At(readAt), world.subnets, row.network).Some?
      && row.address == Inet(Cidr(AllocSpec(world.At(readAt), world.subnets, row.network).value,
                                  world.subnets[row.network].ones))
  }

  ghost predicate RowOf(world: World, vm: VmId, network: NetId, i: nat, row: NicRow, readAt: nat, now: nat) {
    && row.network == network
    && row.vm == vm
    && (exists a :: row.mac == world.mac(i, a))
    && ReadFrom(world, row, readAt, now)
  }

  ghost predicate RowsOf(world: World, vm: VmId, networks: seq<NetId>, rows: seq<NicRow>, readAt: seq<nat>, now: nat) {
    && |rows| == |readAt| <= |networks|
    && forall i :: 0 <= i < |rows| ==> RowOf(world, vm, networks[i], i, rows[i], readAt[i], now)
  }

  ghost predicate DistinctNetworks(networks: seq<NetId>) {
    forall i, j :: 0 <= i < j < |networks| ==> networks[i] != networks[j] || networks[i] == ""
  }

  /** A collision of a VM with distinct networks and fresh MACs is the work of a rival. */
  lemma CollisionNeedsRival(world: World, vm: VmId, networks: seq<NetId>, rows: seq<NicRow>, readAt: seq<nat>, w: nat)
    requires world.FreshMacs() && DistinctNetworks(networks)
    requires RowsOf(world, vm, networks, rows, readAt, w)
    requires InsertAll(world.At(w), rows).UniqueViolation?
    ensures exists i :: 0 <= i < |rows| && rows[i].address.Inet?
                        && RivalBetween(world, rows[i].network, rows[i].address.value.ip, readAt[i], w)
  {
    var table := world.At(w);
    ViolationHasCause(table, rows);
    var i :| 0 <= i < |rows| && Violates(table + rows[..i], rows[i]);
    forall j | 0 <= j < i
      ensures !Clash(rows[j], rows[i])
    {
      assert RowOf(world, vm, networks[j], j, rows[j], readAt[j], w);
    }
    ViolatesSplit(table, rows[..i], rows[i]);
    var n :| 0 <= n < |table| && Clash(table[n], rows[i]);
    assert Holds(table[n], rows[i].network, rows[i].address.value.ip);
    UsedOnHolds(table, rows[i].network, rows[i].address.value.ip);
    AllocatedIsFreshHost(world.At(readAt[i]), world.subnets, rows[i].network);
    AppearsInWindow(world, rows[i].network, rows[i].address.value.ip, readAt[i], w);
  }

  lemma {:induction false} QuietWorldStandsStill(world: World, k: nat)
    requires world.Quiet()
    ensures world.At(k) == world.start
  {
    if k > 0 {
      QuietWorldStandsStill(world, k - 1);
    }
  }

  /** Two interfaces on one network read the same table, pick the same address and collide. */
  lemma SharedNetworkCollides(world: World, vm: VmId, networks: seq<NetId>, rows: seq<NicRow>, readAt: seq<nat>, w: nat)
    requires world.Quiet() && !DistinctNetworks(networks)
    requires RowsOf(world, vm, networks, rows, readAt, w) && |rows| == |networks|
    ensures !InsertAll(world.At(w), rows).Committed?
  {
    var i, j :| 0 <= i < j < |networks| && networks[i] == networks[j] && networks[i] != "";
    QuietWorldStandsStill(world, readAt[i]);
    QuietWorldStandsStill(world, readAt[j]);
    assert SameAddress(rows[i], rows[j]);
    ClashPreventsCommit(world.At(w), rows, i, j);
  }

  datatype Outcome = Created | NoFreeAddress | GaveUp | DatabaseError

  /** Insert number 0, 1 or 2 of the call: the rows, when each address had been read, and the operation. */
  datatype Attempt = Attempt(number: nat, rows: seq<NicRow>, readAt: seq<nat>, insertAt: nat)

  /** The MAC of interface i in an attempt: drawn anew for every one, unless it has no network. */
  function MacOf(world: World, network: NetId, i: nat, number: int): Mac {
    world.mac(i, if network == "" || number <= 0 then -1 else number - 1)
  }

  /** The first n rows carry the MACs of this attempt, the others those of the attempt before. */
  ghost predicate MacsFrom(world: World, networks: seq<NetId>, rows: seq<NicRow>, number: nat, n: nat) {
    |rows| <= |networks| &&
    forall j :: 0 <= j < |rows| ==> rows[j].mac == MacOf(world, networks[j], j, if j < n then number else number - 1)
  }

  /** Operation k finds no address to give on the network. */
  ghost predicate NoneFree(world: World, network: NetId, k: nat) {
    network != "" && AllocSpec(world.At(k), world.subnets, network).None?
  }

  method BuildNics(world: World, vm: VmId, networks: seq<NetId>)
      returns (ok: bool, rows: seq<NicRow>, readAt: seq<nat>, table: Table, ops: nat)
    ensures table == world.Before(ops)
    ensures RowsOf(world, vm, networks, rows, readAt, ops) && MacsFrom(world, networks, rows, 0, |rows|)
    ensures ok ==> |rows| == |networks|
    ensures !ok ==> exists i, k: nat :: 0 <= i < |networks| && k < ops && NoneFree(world, networks[i], k)
  {
    rows, readAt, table, ops := [], [], world.start, 0;
    for i := 0 to |networks|
      invariant table == world.Before(ops)
      invariant RowsOf(world, vm, networks, rows, readAt, ops) && |rows| == i
      invariant MacsFrom(world, networks, rows, 0, i)
    {
      var address, at := NoAddress, 0;
      if networks[i] != "" {
        table := Run(table, world.rivals(ops));
        assert table == world.At(ops);
        var a := AllocateIP(table, world.subnets, networks[i]);
        at := ops;
        LaterReads(world, vm, networks, rows, readAt, ops, ops + 1);
        ops := ops + 1;
        if a.None? {
          assert NoneFree(world, networks[i], ops - 1);
          return false, rows, readAt, table, ops;
        }
        address := Inet(a.value);
      }
      rows := rows + [NicRow(vm, networks[i], address, world.mac(i, -1))];
      readAt := readAt + [at];
    }
    ok := true;
  }

  /** The address was read after operation `lo`, unless the network had none free at some point since. */
  ghost predicate ReadAfter(world: World, network: NetId, readAt: nat, lo: nat, hi: nat) {
    || network == ""
    || lo < readAt < hi
    || exists k: nat :: lo < k < hi && NoneFree(world, network, k)
  }

  /** The windows of successive attempts do not overlap, as long as addresses were free. */
  ghost predicate Follows(world: World, prev: Attempt, next: Attempt) {
    && prev.insertAt < next.insertAt
    && |next.rows| == |next.readAt|
    && forall i :: 0 <= i < |next.rows| ==>
         ReadAfter(world, next.rows[i].network, next.readAt[i], prev.insertAt, next.insertAt)
  }

  /** One interface after a collision: a new MAC and, if one is free, a new address. */
  method Renew(
    world: World, vm: VmId, network: NetId, i: nat, attempt: nat, row0: NicRow, at0: nat, table0: Table, now: nat,
    ghost lo: nat)
      returns (row: NicRow, at: nat, table: Table)
    requires network != "" && lo < now && table0 == world.Before(now)
    requires RowOf(world, vm, network, i, row0, at0, now)
    ensures table == world.Before(now + 1)
    ensures RowOf(world, vm, network, i, row, at, now + 1) && row.mac == world.mac(i, attempt)
    ensures ReadAfter(world, network, at, lo, now + 1)
  {
    table := Run(table0, world.rivals(now));
    assert table == world.At(now);
    var a := AllocateIP(table, world.subnets, network);
    row, at := row0.(mac := world.mac(i, attempt)), at0;
    if a.Some? {
      row := row.(address := Inet(a.value));
      at := now;
    } else {
      assert NoneFree(world, network, now);
    }
  }

  /** Interfaces renewed after operation `lo`, the first n of them so far. */
  ghost predicate Renewing(world: World, vm: VmId, networks: seq<NetId>, a: Attempt, n: nat, lo: nat) {
    && n <= |a.rows| == |networks|
    && RowsOf(world, vm, networks, a.rows, a.readAt, a.insertAt)
    && MacsFrom(world, networks, a.rows, a.number, n)
    && forall j :: 0 <= j < n ==> ReadAfter(world, networks[j], a.readAt[j], lo, a.insertAt)
  }

  lemma RenewingStarts(world: World, vm: VmId, networks: seq<NetId>, a: Attempt)
    requires Built(world, vm, networks, a)
    ensures Renewing(world, vm, networks, a.(number := a.number + 1, insertAt := a.insertAt + 1), 0, a.insertAt)
  {
    LaterReads(world, vm, networks, a.rows, a.readAt, a.insertAt, a.insertAt + 1);
  }

  lemma RenewOneMore(world: World, vm: VmId, networks: seq<NetId>, a: Attempt, n: nat, lo: nat, row: NicRow, at: nat)
    requires Renewing(world, vm, networks, a, n, lo) && n < |networks|
    requires RowOf(world, vm, networks[n], n, row, at, a.insertAt + 1)
    requires ReadAfter(world, networks[n], at, lo, a.insertAt + 1)
    requires row.mac == MacOf(world, networks[n], n, a.number)
    ensures
      var next := Attempt(a.number, a.rows[n := row], a.readAt[n := at], a.insertAt + 1);
      Renewing(world, vm, networks, next, n + 1, lo)
  {
    LaterReads(world, vm, networks, a.rows, a.readAt, a.insertAt, a.insertAt + 1);
    forall j | 0 <= j < n
      ensures ReadAfter(world, networks[j], a.readAt[j], lo, a.insertAt + 1)
    {
      assert ReadAfter(world, networks[j], a.readAt[j], lo, a.insertAt);
    }
  }

  /** An interface without a network keeps address and MAC. */
  lemma RenewSkips(world: World, vm: VmId, networks: seq<NetId>, a: Attempt, n: nat, lo: nat)
    requires Renewing(world, vm, networks, a, n, lo) && n < |networks| && networks[n] == ""
    ensures Renewing(world, vm, networks, a, n + 1, lo)
  {
    assert ReadAfter(world, networks[n], a.readAt[n], lo, a.insertAt);
  }

  lemma RenewedFollows(world: World, vm: VmId, networks: seq<NetId>, last: Attempt, next: Attempt)
    requires last.insertAt < next.insertAt && Renewing(world, vm, networks, next, |networks|, last.insertAt)
    ensures Follows(world, last, next)
  {
    forall i | 0 <= i < |next.rows|
      ensures ReadAfter(world, next.rows[i].network, next.readAt[i], last.insertAt, next.insertAt)
    {
      assert RowOf(world, vm, networks[i], i, next.rows[i], next.readAt[i], next.insertAt);
    }
  }

  method RenewAt(
    world: World, vm: VmId, networks: seq<NetId>, attempt: nat, a: Attempt, table0: Table, i: nat, ghost lo: nat)
      returns (next: Attempt, table: Table)
    requires lo < a.insertAt && table0 == world.Before(a.insertAt) && a.number == attempt + 1
    requires Renewing(world, vm, networks, a, i, lo) && i < |networks| && networks[i] != ""
    ensures next.number == a.number && lo < next.insertAt && table == world.Before(next.insertAt)
    ensures Renewing(world, vm, networks, next, i + 1, lo)
  {
    assert RowOf(world, vm, networks[i], i, a.rows[i], a.readAt[i], a.insertAt);
    var row, at;
    row, at, table := Renew(world, vm, networks[i], i, attempt, a.rows[i], a.readAt[i], table0, a.insertAt, lo);
    RenewOneMore(world, vm, networks, a, i, lo, row, at);
    next := Attempt(a.number, a.rows[i := row], a.readAt[i := at], a.insertAt + 1);
  }

  method RenewAll(world: World, vm: VmId, networks: seq<NetId>, attempt: nat, last: Attempt, table0: Table)
      returns (next: Attempt, table: Table)
    requires table0 == world.Before(last.insertAt + 1) && last.number == attempt
    requires
      var next := last.(number := last.number + 1, insertAt := last.insertAt + 1);
      Renewing(world, vm, networks, next, 0, last.insertAt)
    ensures next.number == last.number + 1
    ensures last.insertAt < next.insertAt && table == world.Before(next.insertAt)
    ensures Renewing(world, vm, networks, next, |networks|, last.insertAt)
  {
    next, table := last.(number := last.number + 1, insertAt := last.insertAt + 1), table0;
    for i := 0 to |networks|
      invariant next.number == last.number + 1
      invariant last.insertAt < next.insertAt && table == world.Before(next.insertAt)
      invariant Renewing(world, vm, networks, next, i, last.insertAt)
    {
      if networks[i] != "" {
        next, table := RenewAt(world, vm, networks, attempt, next, table, i, last.insertAt);
      } else {
        RenewSkips(world, vm, networks, next, i, last.insertAt);
      }
    }
  }

  /** An attempt with one row for every network, each read before the insert, with the attempt's own MACs. */
  ghost predicate Built(world: World, vm: VmId, networks: seq<NetId>, a: Attempt) {
    && |a.rows| == |networks|
    && RowsOf(world, vm, networks, a.rows, a.readAt, a.insertAt)
    && MacsFrom(world, networks, a.rows, a.number, |a.rows|)
  }

  /** After a collision every interface on a network is renewed; the result is the next attempt. */
  method Reallocate(world: World, vm: VmId, networks: seq<NetId>, attempt: nat, last: Attempt, table0: Table)
      returns (next: Attempt, table: Table)
    requires Built(world, vm, networks, last) && table0 == world.At(last.insertAt) && last.number == attempt
    ensures Built(world, vm, networks, next) && table == world.Before(next.insertAt)
    ensures next.number == last.number + 1
    ensures Follows(world, last, next)
  {
    RenewingStarts(world, vm, networks, last);
    next, table := RenewAll(world, vm, networks, attempt, last, table0);
    RenewedFollows(world, vm, networks, last, next);
  }

  /** What the database answers to the attempt's insert. */
  ghost function Answer(world: World, a: Attempt): TxResult {
    InsertAll(world.At(a.insertAt), a.rows)
  }

  /** One insert of the current rows. */
  method TryInsert(world: World, vm: VmId, networks: seq<NetId>, a: Attempt, table0: Table)
      returns (r: TxResult, table: Table)
    requires Built(world, vm, networks, a) && table0 == world.Before(a.insertAt)
    ensures r == Answer(world, a)
    ensures table == if r.Committed? then world.At(a.insertAt) + a.rows else world.At(a.insertAt)
    ensures r.Committed? ==> r.table == table
  {
    table := Run(table0, world.rivals(a.insertAt));
    assert table == world.At(a.insertAt);
    r := CreateTx(table, a.rows);
    if r.Committed? {
      CommitAppends(table, a.rows);
      table := r.table;
    }
  }

  // ---------------------------------------------------------------- the attempts of a call

  /** Attempt a is number a and has a row per network, read where it says. */
  ghost predicate AllBuilt(world: World, vm: VmId, networks: seq<NetId>, attempts: seq<Attempt>) {
    forall a :: 0 <= a < |attempts| ==> Built(world, vm, networks, attempts[a]) && attempts[a].number == a
  }

  ghost predicate Chain(world: World, attempts: seq<Attempt>) {
    forall a :: 0 <= a < |attempts| - 1 ==> Follows(world, attempts[a], attempts[a + 1])
  }

  ghost predicate Collides(world: World, a: Attempt) {
    Answer(world, a).UniqueViolation?
  }

  /** The first n attempts ended in a unique violation. */
  ghost predicate Collided(world: World, attempts: seq<Attempt>, n: nat) {
    n <= |attempts| && forall a :: 0 <= a < n ==> Collides(world, attempts[a])
  }

  /** The attempts of a call in order; all but perhaps the last collided. */
  ghost predicate History(world: World, vm: VmId, networks: seq<NetId>, attempts: seq<Attempt>) {
    && AllBuilt(world, vm, networks, attempts)
    && Chain(world, attempts)
    && (attempts == [] || Collided(world, attempts, |attempts| - 1))
  }

  ghost predicate Continues(world: World, attempts: seq<Attempt>, next: Attempt) {
    attempts != [] ==> Follows(world, attempts[|attempts| - 1], next)
  }

  lemma HistoryGrows(world: World, vm: VmId, networks: seq<NetId>, attempts: seq<Attempt>, next: Attempt)
    requires History(world, vm, networks, attempts) && Collided(world, attempts, |attempts|)
    requires Continues(world, attempts, next) && Built(world, vm, networks, next) && next.number == |attempts|
    ensures History(world, vm, networks, attempts + [next])
    ensures Collides(world, next) ==> Collided(world, attempts + [next], |attempts| + 1)
  {
  }

  /** One turn of the retry loop, up to the reallocation. */
  method InsertOnce(
    world: World, vm: VmId, networks: seq<NetId>, before: seq<Attempt>, current: Attempt, table0: Table)
      returns (outcome: Option<Outcome>, table: Table, attempts: seq<Attempt>)
    requires Built(world, vm, networks, current) && table0 == world.Before(current.insertAt)
    requires History(world, vm, networks, before) && Collided(world, before, |before|)
    requires Continues(world, before, current) && current.number == |before|
    ensures attempts == before + [current] && History(world, vm, networks, attempts)
    ensures outcome.None? ==> Collided(world, attempts, |attempts|)
    ensures outcome.Some? ==> outcome.value in {Created, DatabaseError}
    ensures outcome == Some(Created) ==> Stored(world, attempts, table)
    ensures outcome == Some(DatabaseError) ==> LastRejected(world, attempts)
    ensures outcome != Some(Created) ==> table == world.At(current.insertAt)
  {
    var r;
    r, table := TryInsert(world, vm, networks, current, table0);
    HistoryGrows(world, vm, networks, before, current);
    attempts := before + [current];
    outcome := if r.Committed? then Some(Created) else if r.Rejected? then Some(DatabaseError) else None;
  }

  /** The retry loop around the insert. */
  method InsertWithRetry(
    world: World, vm: VmId, networks: seq<NetId>, first: Attempt, table0: Table, faults: nat -> bool)
      returns (outcome: Outcome, table: Table, attempts: seq<Attempt>, ops: nat)
    requires Built(world, vm, networks, first) && table0 == world.Before(first.insertAt) && first.number == 0
    ensures History(world, vm, networks, attempts) && |attempts| <= 3 && !outcome.NoFreeAddress?
    ensures outcome.Created? ==> Stored(world, attempts, table)
    ensures !outcome.Created? ==> table == world.Before(ops)
    ensures outcome.GaveUp? ==> |attempts| == 3 && Collided(world, attempts, 3)
    ensures outcome.DatabaseError? ==> ops > 0 && (faults(ops - 1) || LastRejected(world, attempts))
  {
    attempts, table := [], table0;
    var current := first;
    var attempt := 0;
    while true
      invariant 0 <= attempt < 3 && |attempts| == attempt == current.number
      invariant table == world.Before(current.insertAt)
      invariant Built(world, vm, networks, current) && Continues(world, attempts, current)
      invariant History(world, vm, networks, attempts) && Collided(world, attempts, attempt)
      decreases 3 - attempt
    {
      if faults(current.insertAt) {
        table := Run(table, world.rivals(current.insertAt));
        return DatabaseError, table, attempts, current.insertAt + 1;
      }
      var done;
      done, table, attempts := InsertOnce(world, vm, networks, attempts, current, table);
      if done.Some? {
        return done.value, table, attempts, current.insertAt + 1;
      }
      var next;
      next, table := Reallocate(world, vm, networks, attempt, current, table);
      if attempt == 2 {
        return GaveUp, table, attempts, next.insertAt;
      }
      current := next;
      attempt := attempt + 1;
    }
  }

  /** The last attempt's insert committed, and the table is the one it committed. */
  ghost predicate Stored(world: World, attempts: seq<Attempt>, table: Table) {
    && attempts != []
    && Answer(world, attempts[|attempts| - 1]) == Committed(table)
    && table == world.At(attempts[|attempts| - 1].insertAt) + attempts[|attempts| - 1].rows
  }

  ghost predicate LastRejected(world: World, attempts: seq<Attempt>) {
    attempts != [] && Answer(world, attempts[|attempts| - 1]).Rejected?
  }

  lemma {:induction false} NeverRejected(table: Table, rows: seq<NicRow>)
    requires forall i :: 0 <= i < |rows| ==> !rows[i].address.Unparsable?
    ensures !InsertAll(table, rows).Rejected?
    decreases |rows|
  {
    if rows != [] {
      NeverRejected(table + [rows[0]], rows[1..]);
    }
  }

  /** Built rows carry an allocated address or none, so the database accepts their texts. */
  lemma BuiltIsNotRejected(world: World, vm: VmId, networks: seq<NetId>, a: Attempt)
    requires Built(world, vm, networks, a)
    ensures !Answer(world, a).Rejected?
  {
    forall i | 0 <= i < |a.rows|
      ensures !a.rows[i].address.Unparsable?
    {
      assert RowOf(world, vm, networks[i], i, a.rows[i], a.readAt[i], a.insertAt);
    }
    NeverRejected(world.At(a.insertAt), a.rows);
  }

  // ---------------------------------------------------------------- giving up

  /** At every operation between two successive inserts each named network has an address to give. */
  ghost predicate FreeBetween(world: World, networks: seq<NetId>, attempts: seq<Attempt>) {
    forall a, i, k: nat ::
      0 <= a < |attempts| - 1 && attempts[a].insertAt < k < attempts[a + 1].insertAt && 0 <= i < |networks| ==>
        !NoneFree(world, networks[i], k)
  }

  /** A rival committed the address of interface i after this attempt read it and not after the insert. */
  ghost predicate BeatenAt(world: World, a: Attempt, i: nat) {
    && i < |a.rows| == |a.readAt|
    && a.rows[i].address.Inet?
    && RivalBetween(world, a.rows[i].network, a.rows[i].address.value.ip, a.readAt[i], a.insertAt)
  }

  /** Attempt a lost one of its own addresses to a rival, in a window that starts after the insert before. */
  ghost predicate Beaten(world: World, attempts: seq<Attempt>, a: nat) {
    && a < |attempts|
    && exists i: nat :: BeatenAt(world, attempts[a], i) && (a > 0 ==> attempts[a - 1].insertAt < attempts[a].readAt[i])
  }

  lemma CollisionIsBeaten(world: World, vm: VmId, networks: seq<NetId>, a: Attempt) returns (i: nat)
    requires world.FreshMacs() && DistinctNetworks(networks) && Built(world, vm, networks, a) && Collides(world, a)
    ensures BeatenAt(world, a, i) && RowOf(world, vm, networks[i], i, a.rows[i], a.readAt[i], a.insertAt)
  {
    CollisionNeedsRival(world, vm, networks, a.rows, a.readAt, a.insertAt);
    i :| 0 <= i < |a.rows| && a.rows[i].address.Inet?
      && RivalBetween(world, a.rows[i].network, a.rows[i].address.value.ip, a.readAt[i], a.insertAt);
  }

  /** With addresses free at the reallocations, every collision was lost to a rival in its own window. */
  lemma EveryAttemptIsBeaten(world: World, vm: VmId, networks: seq<NetId>, attempts: seq<Attempt>, a: nat)
    requires world.FreshMacs() && DistinctNetworks(networks) && FreeBetween(world, networks, attempts)
    requires AllBuilt(world, vm, networks, attempts) && Chain(world, attempts)
    requires a < |attempts| && Collides(world, attempts[a])
    ensures Beaten(world, attempts, a)
  {
    var x := attempts[a];
    var i := CollisionIsBeaten(world, vm, networks, x);
    if a > 0 {
      assert Follows(world, attempts[a - 1], attempts[a - 1 + 1]);
      assert ReadAfter(world, x.rows[i].network, x.readAt[i], attempts[a - 1].insertAt, x.insertAt);
    }
  }

  // ---------------------------------------------------------------- a quiet world

  /** Every named network has an address to give in the table the call finds. */
  ghost predicate FreeAtStart(world: World, networks: seq<NetId>) {
    forall i :: 0 <= i < |networks| ==> networks[i] == "" || AllocSpec(world.start, world.subnets, networks[i]).Some?
  }

  lemma QuietBuildIsFree(world: World, vm: VmId, networks: seq<NetId>, a: Attempt)
    requires world.Quiet() && Built(world, vm, networks, a)
    ensures FreeAtStart(world, networks)
  {
    forall i | 0 <= i < |networks| && networks[i] != ""
      ensures AllocSpec(world.start, world.subnets, networks[i]).Some?
    {
      assert RowOf(world, vm, networks[i], i, a.rows[i], a.readAt[i], a.insertAt);
      QuietWorldStandsStill(world, a.readAt[i]);
    }
  }

  predicate SameName(a: Mac, b: Mac) {
    a == b && a != ""
  }

  /** The MACs drawn for this attempt differ from each other and from those stored at the start. */
  ghost predicate MacsFree(world: World, networks: seq<NetId>, number: nat) {
    && (forall i, j :: 0 <= i < j < |networks| ==>
          !SameName(MacOf(world, networks[i], i, number), MacOf(world, networks[j], j, number)))
    && (forall i, n :: 0 <= i < |networks| && 0 <= n < |world.start| ==>
          !SameName(world.start[n].mac, MacOf(world, networks[i], i, number)))
  }

  lemma QuietClashWithStored(world: World, vm: VmId, networks: seq<NetId>, a: Attempt, i: nat, n: nat)
    requires world.Quiet() && Built(world, vm, networks, a) && i < |networks| && n < |world.start|
    ensures Clash(world.start[n], a.rows[i]) <==>
            SameName(world.start[n].mac, MacOf(world, networks[i], i, a.number))
  {
    assert RowOf(world, vm, networks[i], i, a.rows[i], a.readAt[i], a.insertAt);
    if networks[i] != "" {
      QuietWorldStandsStill(world, a.readAt[i]);
      AllocatedIsFreshHost(world.start, world.subnets, networks[i]);
      UsedOnHolds(world.start, networks[i], a.rows[i].address.value.ip);
      assert !SameAddress(world.start[n], a.rows[i]) by {
        if SameAddress(world.start[n], a.rows[i]) {
          assert Holds(world.start[n], networks[i], a.rows[i].address.value.ip);
        }
      }
    }
  }

  lemma ClashAmongOwn(world: World, vm: VmId, networks: seq<NetId>, a: Attempt, i: nat, j: nat)
    requires DistinctNetworks(networks) && Built(world, vm, networks, a) && i < j < |networks|
    ensures Clash(a.rows[i], a.rows[j]) <==>
            SameName(MacOf(world, networks[i], i, a.number), MacOf(world, networks[j], j, a.number))
  {
    assert RowOf(world, vm, networks[i], i, a.rows[i], a.readAt[i], a.insertAt);
    assert RowOf(world, vm, networks[j], j, a.rows[j], a.readAt[j], a.insertAt);
  }

  /** A MAC that is taken prevents the commit. */
  lemma QuietCommitHasFreeMacs(world: World, vm: VmId, networks: seq<NetId>, a: Attempt)
    requires world.Quiet() && Built(world, vm, networks, a) && DistinctNetworks(networks)
    requires Answer(world, a).Committed?
    ensures MacsFree(world, networks, a.number)
  {
    QuietWorldStandsStill(world, a.insertAt);
    forall i, j | 0 <= i < j < |networks|
      ensures !SameName(MacOf(world, networks[i], i, a.number), MacOf(world, networks[j], j, a.number))
    {
      ClashAmongOwn(world, vm, networks, a, i, j);
      if Clash(a.rows[i], a.rows[j]) {
        ClashPreventsCommit(world.start, a.rows, i, j);
      }
    }
    forall i, n | 0 <= i < |networks| && 0 <= n < |world.start|
      ensures !SameName(world.start[n].mac, MacOf(world, networks[i], i, a.number))
    {
      QuietClashWithStored(world, vm, networks, a, i, n);
      if Clash(world.start[n], a.rows[i]) {
        RowStaysVisible(world.start, a.rows, n, i);
      }
    }
  }

  /** With distinct networks nothing but a MAC can clash. */
  lemma QuietCollisionHasTakenMac(world: World, vm: VmId, networks: seq<NetId>, a: Attempt)
    requires world.Quiet() && Built(world, vm, networks, a) && DistinctNetworks(networks)
    requires Collides(world, a)
    ensures !MacsFree(world, networks, a.number)
  {
    QuietWorldStandsStill(world, a.insertAt);
    ViolationHasCause(world.start, a.rows);
    var i :| 0 <= i < |a.rows| && Violates(world.start + a.rows[..i], a.rows[i]);
    ViolatesSplit(world.start, a.rows[..i], a.rows[i]);
    if Violates(world.start, a.rows[i]) {
      var n :| 0 <= n < |world.start| && Clash(world.start[n], a.rows[i]);
      QuietClashWithStored(world, vm, networks, a, i, n);
    } else {
      var j :| 0 <= j < |a.rows[..i]| && Clash(a.rows[..i][j], a.rows[i]);
      ClashAmongOwn(world, vm, networks, a, j, i);
    }
  }

  /** Without rivals an insert commits exactly when networks differ and the attempt's MACs are free. */
  lemma QuietInsertCommitsIff(world: World, vm: VmId, networks: seq<NetId>, a: Attempt)
    requires world.Quiet() && Built(world, vm, networks, a)
    ensures Answer(world, a).Committed? <==> DistinctNetworks(networks) && MacsFree(world, networks, a.number)
  {
    BuiltIsNotRejected(world, vm, networks, a);
    if !DistinctNetworks(networks) {
      SharedNetworkCollides(world, vm, networks, a.rows, a.readAt, a.insertAt);
    } else if Collides(world, a) {
      QuietCollisionHasTakenMac(world, vm, networks, a);
    } else {
      QuietCommitHasFreeMacs(world, vm, networks, a);
    }
  }

  const QUIET :=
    World([], (k: nat) => [], map["n" := Cidr(0x0A00_0000, 29)], (i: nat, a: int) => if i == 0 then "m0" else "m1")

  /** Two interfaces in an empty 10.0.0.0/29 are both given 10.0.0.2, and the insert fails. */
  lemma TwoInterfacesCollide(vm: VmId)
    ensures
      var address := Inet(Cidr(0x0A00_0002, 29));
      var a := Attempt(0, [NicRow(vm, "n", address, "m0"), NicRow(vm, "n", address, "m1")], [0, 1], 2);
      QUIET.Quiet() && Built(QUIET, vm, ["n", "n"], a) && Collides(QUIET, a)
  {
    var c := Cidr(0x0A00_0000, 29);
    assert Masked(0x0A00_0000, 29) == 0x0A00_0000;
    PickIsLeastFree(c, {});
    assert IsLeastFree(c, {}, 0x0A00_0002);
    QuietWorldStandsStill(QUIET, 0);
    QuietWorldStandsStill(QUIET, 1);
    assert UsedOn([], "n") == {};
    assert AllocSpec([], QUIET.subnets, "n") == Some(0x0A00_0002);
    var address := Inet(Cidr(0x0A00_0002, 29));
    var a := Attempt(0, [NicRow(vm, "n", address, "m0"), NicRow(vm, "n", address, "m1")], [0, 1], 2);
    assert a.rows[0].mac == QUIET.mac(0, -1) && a.rows[1].mac == QUIET.mac(1, -1);
    assert Built(QUIET, vm, ["n", "n"], a);
    assert ["n", "n"][0] == ["n", "n"][1];
    assert !DistinctNetworks(["n", "n"]);
    SharedNetworkCollides(QUIET, vm, ["n", "n"], a.rows, a.readAt, a.insertAt);
    BuiltIsNotRejected(QUIET, vm, ["n", "n"], a);
  }

  // ---------------------------------------------------------------- the whole call

  method CreateVM(world: World, vm: VmId, networks: seq<NetId>, faults: nat -> bool)
      returns (outcome: Outcome, table: Table, attempts: seq<Attempt>, ops: nat)
    // The attempts are this call's own: a row per network, addresses read before the insert.
    ensures History(world, vm, networks, attempts) && |attempts| <= 3
    // Success is reported only when the last insert committed; otherwise the call left no trace.
    ensures outcome.Created? ==> Stored(world, attempts, table)
    ensures !outcome.Created? ==> table == world.Before(ops)
    // Each failure has its cause.
    ensures outcome.NoFreeAddress? ==>
        exists i, k: nat :: 0 <= i < |networks| && k < ops && NoneFree(world, networks[i], k)
    ensures outcome.DatabaseError? ==> ops > 0 && faults(ops - 1)
    ensures outcome.GaveUp? ==> |attempts| == 3 && Collided(world, attempts, 3)
    // Giving up takes three lost races, each for an own address and in a window of its own.
    ensures (outcome.GaveUp? && world.FreshMacs() && DistinctNetworks(networks)
             && FreeBetween(world, networks, attempts)) ==>
              Beaten(world, attempts, 0) && Beaten(world, attempts, 1) && Beaten(world, attempts, 2)
    ensures world.Quiet() ==> QuietResult(world, networks, forall k :: !faults(k), outcome, attempts)
  {
    var ok, rows, readAt;
    ok, rows, readAt, table, ops := BuildNics(world, vm, networks);
    if !ok {
      NoneFreeStaysSo(world, networks, ops);
      return NoFreeAddress, table, [], ops;
    }
    var first := Attempt(0, rows, readAt, ops);
    outcome, table, attempts, ops := InsertWithRetry(world, vm, networks, first, table, faults);
    CallExplained(world, vm, networks, attempts);
    if world.Quiet() {
      QuietCall(world, vm, networks, forall k :: !faults(k), first, outcome, attempts, table);
    }
  }

  /**
    Without rivals: if there are no faults either, the VM is created exactly when networks differ and
    have room and one of the three draws of MACs is free; and it is created with the first free draw.
    */
  ghost predicate QuietResult(
    world: World, networks: seq<NetId>, faultless: bool, outcome: Outcome, attempts: seq<Attempt>)
  {
    && (faultless ==>
          (outcome.Created? <==>
             && DistinctNetworks(networks) && FreeAtStart(world, networks)
             && (MacsFree(world, networks, 0) || MacsFree(world, networks, 1) || MacsFree(world, networks, 2))))
    && (outcome.Created? ==>
          && attempts != [] && MacsFree(world, networks, |attempts| - 1)
          && forall k: nat :: k < |attempts| - 1 ==> !MacsFree(world, networks, k))
  }

  lemma QuietCall(
    world: World, vm: VmId, networks: seq<NetId>, faultless: bool, first: Attempt, outcome: Outcome,
    attempts: seq<Attempt>, table: Table)
    requires world.Quiet() && Built(world, vm, networks, first) && History(world, vm, networks, attempts)
    requires |attempts| <= 3 && !outcome.NoFreeAddress? && (faultless ==> !outcome.DatabaseError?)
    requires outcome.Created? ==> Stored(world, attempts, table)
    requires outcome.GaveUp? ==> |attempts| == 3 && Collided(world, attempts, 3)
    ensures QuietResult(world, networks, faultless, outcome, attempts)
  {
    QuietBuildIsFree(world, vm, networks, first);
    forall a | 0 <= a < |attempts|
      ensures CommitsIff(world, networks, attempts[a]) && attempts[a].number == a
    {
      assert Built(world, vm, networks, attempts[a]);
      QuietInsertCommitsIff(world, vm, networks, attempts[a]);
    }
    if outcome.GaveUp? {
      assert Collides(world, attempts[0]) && Collides(world, attempts[1]) && Collides(world, attempts[2]);
    }
    if outcome.Created? {
      forall k: nat | k < |attempts| - 1
        ensures !MacsFree(world, networks, k)
      {
        assert Collides(world, attempts[k]);
      }
    }
  }

  lemma NoneFreeStaysSo(world: World, networks: seq<NetId>, ops: nat)
    requires exists i, k: nat :: 0 <= i < |networks| && k < ops && NoneFree(world, networks[i], k)
    ensures world.Quiet() ==> !FreeAtStart(world, networks)
  {
    if world.Quiet() {
      var i, k: nat :| 0 <= i < |networks| && k < ops && NoneFree(world, networks[i], k);
      QuietWorldStandsStill(world, k);
    }
  }

  ghost predicate CommitsIff(world: World, networks: seq<NetId>, a: Attempt) {
    Answer(world, a).Committed? <==> DistinctNetworks(networks) && MacsFree(world, networks, a.number)
  }

  /** What the attempts of a call tell about rivals and about the world it ran in. */
  lemma CallExplained(world: World, vm: VmId, networks: seq<NetId>, attempts: seq<Attempt>)
    requires History(world, vm, networks, attempts)
    ensures !LastRejected(world, attempts)
    ensures world.FreshMacs() && DistinctNetworks(networks) && FreeBetween(world, networks, attempts) ==>
              forall a :: 0 <= a < |attempts| && Collides(world, attempts[a]) ==> Beaten(world, attempts, a)
  {
    if attempts != [] {
      BuiltIsNotRejected(world, vm, networks, attempts[|attempts| - 1]);
    }
    if world.FreshMacs() && DistinctNetworks(networks) && FreeBetween(world, networks, attempts) {
      forall a | 0 <= a < |attempts| && Collides(world, attempts[a])
        ensures Beaten(world, attempts, a)
      {
        EveryAttemptIsBeaten(world, vm, networks, attempts, a);
      }
    }
  }

  /** What was read before an operation was read before every later one. */
  lemma LaterReads(
    world: World, vm: VmId, networks: seq<NetId>, rows: seq<NicRow>, readAt: seq<nat>, now: nat, later: nat)
    requires RowsOf(world, vm, networks, rows, readAt, now) && now <= later
    ensures RowsOf(world, vm, networks, rows, readAt, later)
  {
    forall i | 0 <= i < |rows|
      ensures RowOf(world, vm, networks[i], i, rows[i], readAt[i], later)
    {
      assert RowOf(world, vm, networks[i], i, rows[i], readAt[i], now);
    }
  }
}

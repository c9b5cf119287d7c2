/** Byte accounting of storage pools over create, clone, resize and delete of volumes. */
module Pools {
  import opened Common

  type PoolId = string
  type VolumeId = string

  const LIMIT: int := 0x8000_0000_0000_0000

  type Int64 = x: int | -LIMIT <= x < LIMIT

  /** int64 addition, which wraps. */
  function Add(a: Int64, b: Int64): Int64 {
    var x := a + b;
    if x >= LIMIT then x - 2 * LIMIT else if x < -LIMIT then x + 2 * LIMIT else x
  }

  datatype Status = Creating | Available | InUse | Deleting | Error

  datatype Pool = Pool(total: Int64, used: Int64)

  datatype Volume = Volume(name: string, pool: PoolId, size: Int64, status: Status)

  datatype State = State(pools: map<PoolId, Pool>, volumes: map<VolumeId, Volume>)

  /** Ids are drawn by the service; `tool` says whether qemu-img succeeds. */
  datatype Op =
    | CreatePool(pool: PoolId, name: string, path: string)
    | CreateVolume(id: VolumeId, name: string, pool: PoolId, size: Int64, tool: bool)
    | DeleteVolume(id: VolumeId, force: bool)
    | ResizeVolume(id: VolumeId, size: Int64, tool: bool)
    | CloneVolume(source: VolumeId, id: VolumeId, name: string, tool: bool)

  datatype Failure =
    | NameRequired | PathRequired | PoolRequired | SizeNotPositive | PoolNotFound | NoSpace
    | VolumeNotFound | VolumeInUse | RepositoryFailed | ToolFailed

  // ---------------------------------------------------------------- one operation

  /** The capacity test of CreateVolume. */
  predicate Fits(pool: Pool, size: Int64) {
    !(Add(pool.used, size) > pool.total && pool.total > 0)
  }

  predicate Accepts(s: State, op: Op) {
    match op
    case CreatePool(pool, name, path) => name != "" && path != "" && pool !in s.pools
    case CreateVolume(id, name, pool, size, tool) =>
      name != "" && pool != "" && size > 0 && pool in s.pools && Fits(s.pools[pool], size) && id !in s.volumes && tool
    case DeleteVolume(id, force) => id in s.volumes && (force || s.volumes[id].status != InUse)
    case ResizeVolume(id, size, tool) => size > 0 && id in s.volumes && tool
    case CloneVolume(source, id, name, tool) => name != "" && source in s.volumes && id !in s.volumes && tool
  }

  function Use(s: State, pool: PoolId, used: Int64): map<PoolId, Pool>
    requires pool in s.pools
  {
    s.pools[pool := s.pools[pool].(used := used)]
  }

  /** UsedBytes after a resize, with the clamp at zero. */
  function Resized(used: Int64, before: Int64, after: Int64): Int64
    requires before > 0 && after > 0
  {
    if after > before then Add(used, after - before)
    else
      var x := Add(used, after - before);
      if x < 0 then 0 else x
  }

  ghost predicate Linked(s: State) {
    forall v :: v in s.volumes ==> s.volumes[v].pool in s.pools && s.volumes[v].size > 0
  }

  ghost function Next(s: State, op: Op): State
    requires Linked(s)
  {
    if !Accepts(s, op) then s
    else
      match op
      case CreatePool(pool, _, _) => s.(pools := s.pools[pool := Pool(0, 0)])
      case CreateVolume(id, name, pool, size, _) =>
        State(Use(s, pool, Add(s.pools[pool].used, size)), s.volumes[id := Volume(name, pool, size, Available)])
      case DeleteVolume(id, _) => s.(volumes := s.volumes - {id})
      case ResizeVolume(id, size, _) =>
        var v := s.volumes[id];
        State(Use(s, v.pool, Resized(s.pools[v.pool].used, v.size, size)), s.volumes[id := v.(size := size)])
      case CloneVolume(source, id, name, _) =>
        var v := s.volumes[source];
        State(Use(s, v.pool, Add(s.pools[v.pool].used, v.size)),
            s.volumes[id := Volume(name, v.pool, v.size, Available)])
  }

  /** The service over its two repositories, whose writes succeed except for a repeated id. */
  class StorageService {
    var pools: map<PoolId, Pool>
    var volumes: map<VolumeId, Volume>

    ghost function Value(): State
      reads this
    {
      State(pools, volumes)
    }

    ghost predicate Valid()
      reads this
    {
      Linked(Value())
    }

    constructor ()
      ensures Valid() && Value() == State(map[], map[])
    {
      pools, volumes := map[], map[];
    }

    method CreatePool(pool: PoolId, name: string, path: string) returns (r: Result<Pool, Failure>)
      requires Valid()
      modifies this
      ensures Valid() && Value() == Next(old(Value()), Op.CreatePool(pool, name, path))
      ensures r.Ok? <==> Accepts(old(Value()), Op.CreatePool(pool, name, path))
      ensures r == Err(NameRequired) <==> name == ""
      ensures r == Err(PathRequired) <==> name != "" && path == ""
      ensures r == Err(RepositoryFailed) <==> name != "" && path != "" && pool in old(pools)
      ensures r.Ok? ==> r.value == Pool(0, 0) && pools == old(pools)[pool := Pool(0, 0)] && volumes == old(volumes)
      ensures r.Err? ==> Value() == old(Value()) && r.error in {NameRequired, PathRequired, RepositoryFailed}
    {
      if name == "" {
        return Err(NameRequired);
      }
      if path == "" {
        return Err(PathRequired);
      }
      if pool in pools {
        return Err(RepositoryFailed);
      }
      pools := pools[pool := Pool(0, 0)];
      return Ok(pools[pool]);
    }

    method CreateVolume(
      id: VolumeId, name: string, poolId: PoolId, size: Int64, tool: bool) returns (r: Result<Volume, Failure>)
      requires Valid()
      modifies this
      ensures Valid() && Value() == Next(old(Value()), Op.CreateVolume(id, name, poolId, size, tool))
      ensures r.Ok? <==> Accepts(old(Value()), Op.CreateVolume(id, name, poolId, size, tool))
      ensures r.Ok? ==>
                && name != "" && size > 0 && poolId in old(pools) && tool
                && r.value == Volume(name, poolId, size, Available)
                && volumes == old(volumes)[id := r.value]
                && pools == old(pools)[poolId := Pool(old(pools)[poolId].total, Add(old(pools)[poolId].used, size))]
      ensures r.Err? ==> Value() == old(Value())
      ensures r == Err(NameRequired) <==> name == ""
      ensures r == Err(PoolRequired) <==> name != "" && poolId == ""
      ensures r == Err(SizeNotPositive) <==> name != "" && poolId != "" && size <= 0
      ensures r == Err(PoolNotFound) <==> name != "" && poolId != "" && size > 0 && poolId !in old(pools)
      ensures r == Err(NoSpace) <==>
                && name != "" && poolId != "" && size > 0 && poolId in old(pools)
                && old(pools)[poolId].total > 0 && Add(old(pools)[poolId].used, size) > old(pools)[poolId].total
      ensures r.Err? ==> r.error !in {VolumeNotFound, VolumeInUse, PathRequired}
      ensures r == Err(RepositoryFailed) ==> id in old(volumes)
      ensures r == Err(ToolFailed) ==> !tool
    {
      if name == "" {
        return Err(NameRequired);
      }
      if poolId == "" {
        return Err(PoolRequired);
      }
      if size <= 0 {
        return Err(SizeNotPositive);
      }
      if poolId !in pools {
        return Err(PoolNotFound);
      }
      var pool := pools[poolId];
      if Add(pool.used, size) > pool.total && pool.total > 0 {
        return Err(NoSpace);
      }
      if id in volumes {
        return Err(RepositoryFailed);
      }
      var vol := Volume(name, poolId, size, Creating);
      volumes := volumes[id := vol];
      if !tool {
        volumes := volumes - {id};
        return Err(ToolFailed);
      }
      vol := vol.(status := Available);
      volumes := volumes[id := vol];
      pool := pool.(used := Add(pool.used, size));
      pools := pools[poolId := pool];
      return Ok(vol);
    }

    method DeleteVolume(id: VolumeId, force: bool) returns (r: Result<(), Failure>)
      requires Valid()
      modifies this
      ensures Valid() && Value() == Next(old(Value()), Op.DeleteVolume(id, force))
      ensures r.Ok? <==> Accepts(old(Value()), Op.DeleteVolume(id, force))
      ensures r == Err(VolumeNotFound) <==> id !in old(volumes)
      ensures r == Err(VolumeInUse) <==> id in old(volumes) && !force && old(volumes)[id].status == InUse
      ensures r.Ok? ==> volumes == old(volumes) - {id} && pools == old(pools)
      ensures r.Err? ==> Value() == old(Value()) && r.error in {VolumeNotFound, VolumeInUse}
    {
      if id !in volumes {
        return Err(VolumeNotFound);
      }
      if !force && volumes[id].status == InUse {
        return Err(VolumeInUse);
      }
      volumes := volumes - {id};
      return Ok(());
    }

    method ResizeVolume(id: VolumeId, size: Int64, tool: bool) returns (r: Result<Volume, Failure>)
      requires Valid()
      modifies this
      ensures Valid() && Value() == Next(old(Value()), Op.ResizeVolume(id, size, tool))
      ensures r.Ok? <==> Accepts(old(Value()), Op.ResizeVolume(id, size, tool))
      ensures r == Err(SizeNotPositive) <==> size <= 0
      ensures r == Err(VolumeNotFound) <==> size > 0 && id !in old(volumes)
      ensures r == Err(ToolFailed) <==> size > 0 && id in old(volumes) && !tool
      ensures r.Ok? ==>
                var v := old(volumes)[id];
                && r.value == Volume(v.name, v.pool, size, v.status)
                && volumes == old(volumes)[id := r.value]
                && forall p :: p in pools ==> p in old(pools) && (p != v.pool ==> pools[p] == old(pools)[p])
      ensures r.Err? ==> Value() == old(Value()) && r.error in {SizeNotPositive, VolumeNotFound, ToolFailed}
    {
      if size <= 0 {
        return Err(SizeNotPositive);
      }
      if id !in volumes {
        return Err(VolumeNotFound);
      }
      var vol := volumes[id];
      var pool := pools[vol.pool];
      if !tool {
        return Err(ToolFailed);
      }
      if size > vol.size {
        pool := pool.(used := Add(pool.used, size - vol.size));
      } else {
        pool := pool.(used := Add(pool.used, -(vol.size - size)));
        if pool.used < 0 {
          pool := pool.(used := 0);
        }
      }
      pools := pools[vol.pool := pool];
      vol := vol.(size := size);
      volumes := volumes[id := vol];
      return Ok(vol);
    }

    method CloneVolume(source: VolumeId, id: VolumeId, name: string, tool: bool) returns (r: Result<Volume, Failure>)
      requires Valid()
      modifies this
      ensures Valid() && Value() == Next(old(Value()), Op.CloneVolume(source, id, name, tool))
      ensures r.Ok? <==> Accepts(old(Value()), Op.CloneVolume(source, id, name, tool))
      ensures r == Err(NameRequired) <==> name == ""
      ensures r == Err(VolumeNotFound) <==> name != "" && source !in old(volumes)
      ensures r == Err(RepositoryFailed) <==> name != "" && source in old(volumes) && id in old(volumes)
      ensures r == Err(ToolFailed) <==> name != "" && source in old(volumes) && id !in old(volumes) && !tool
      ensures r.Ok? ==>
                var v := old(volumes)[source];
                && r.value == Volume(name, v.pool, v.size, Available)
                && volumes == old(volumes)[id := r.value]
                && pools == old(pools)[v.pool := Pool(old(pools)[v.pool].total, Add(old(pools)[v.pool].used, v.size))]
      ensures r.Err? ==>
                Value() == old(Value()) && r.error in {NameRequired, VolumeNotFound, RepositoryFailed, ToolFailed}
    {
      if name == "" {
        return Err(NameRequired);
      }
      if source !in volumes {
        return Err(VolumeNotFound);
      }
      var src := volumes[source];
      var pool := pools[src.pool];
      if id in volumes {
        return Err(RepositoryFailed);
      }
      var vol := Volume(name, src.pool, src.size, Creating);
      volumes := volumes[id := vol];
      if !tool {
        volumes := volumes - {id};
        return Err(ToolFailed);
      }
      vol := vol.(status := Available);
      volumes := volumes[id := vol];
      pool := pool.(used := Add(pool.used, src.size));
      pools := pools[src.pool := pool];
      return Ok(vol);
    }
  }

  // ---------------------------------------------------------------- live bytes

  type Volumes = map<VolumeId, Volume>

  function Share(v: Volume, pool: PoolId): int {
    if v.pool == pool then v.size else 0
  }

  /** The sizes of the pool's volumes added up. */
  ghost function Live(volumes: Volumes, pool: PoolId): int {
    if volumes == map[] then 0
    else
      var v :| v in volumes;
      Share(volumes[v], pool) + Live(volumes - {v}, pool)
  }

  /** The order of adding does not matter. */
  lemma {:induction false} LiveWithout(volumes: Volumes, pool: PoolId, id: VolumeId)
    requires id in volumes
    ensures Live(volumes, pool) == Share(volumes[id], pool) + Live(volumes - {id}, pool)
    decreases |volumes|
  {
    var v :| v in volumes && Live(volumes, pool) == Share(volumes[v], pool) + Live(volumes - {v}, pool);
    if v != id {
      LiveWithout(volumes - {v}, pool, id);
      LiveWithout(volumes - {id}, pool, v);
      assert volumes - {v} - {id} == volumes - {id} - {v};
    }
  }

  lemma LiveWith(volumes: Volumes, pool: PoolId, id: VolumeId, v: Volume)
    ensures Live(volumes[id := v], pool) ==
            Live(volumes, pool) + Share(v, pool) - (if id in volumes then Share(volumes[id], pool) else 0)
  {
    LiveWithout(volumes[id := v], pool, id);
    if id in volumes {
      LiveWithout(volumes, pool, id);
      assert volumes[id := v] - {id} == volumes - {id};
    } else {
      assert volumes[id := v] - {id} == volumes;
    }
  }

  ghost predicate PositiveSizes(volumes: Volumes) {
    forall v :: v in volumes ==> volumes[v].size > 0
  }

  ghost predicate Unused(volumes: Volumes, pool: PoolId) {
    forall v :: v in volumes ==> volumes[v].pool != pool
  }

  lemma {:induction false} LiveIsNotNegative(volumes: Volumes, pool: PoolId)
    requires PositiveSizes(volumes)
    ensures Live(volumes, pool) >= 0
    decreases |volumes|
  {
    if volumes != map[] {
      var v :| v in volumes;
      LiveWithout(volumes, pool, v);
      LiveIsNotNegative(volumes - {v}, pool);
    }
  }

  /** A pool has no live bytes exactly when it has no volumes. */
  lemma {:induction false} NoLiveBytesIff(volumes: Volumes, pool: PoolId)
    requires PositiveSizes(volumes)
    ensures Live(volumes, pool) == 0 <==> Unused(volumes, pool)
    decreases |volumes|
  {
    if v :| v in volumes && volumes[v].pool == pool {
      LiveWithout(volumes, pool, v);
      LiveIsNotNegative(volumes - {v}, pool);
    } else if volumes != map[] {
      var v :| v in volumes;
      LiveWithout(volumes, pool, v);
      NoLiveBytesIff(volumes - {v}, pool);
    }
  }

  // ---------------------------------------------------------------- conservation

  /** Bytes of the pool that an accepted operation adds to the books. */
  function Growth(s: State, op: Op, pool: PoolId): int {
    if !Accepts(s, op) then 0
    else
      match op
      case CreateVolume(_, _, p, size, _) => if p == pool then size else 0
      case ResizeVolume(id, size, _) => if s.volumes[id].pool == pool then size - s.volumes[id].size else 0
      case CloneVolume(source, _, _, _) => Share(s.volumes[source], pool)
      case _ => 0
  }

  /** Bytes of the pool's volume that an accepted delete removes without giving them back. */
  function LostBy(s: State, op: Op, pool: PoolId): int {
    if op.DeleteVolume? && Accepts(s, op) then Share(s.volumes[op.id], pool) else 0
  }

  /** UsedBytes is the live bytes plus the bytes lost to deletes so far. */
  ghost predicate Balanced(s: State, pool: PoolId, lost: int) {
    Linked(s) && lost >= 0 &&
    if pool in s.pools then s.pools[pool].used == Live(s.volumes, pool) + lost else lost == 0
  }

  predicate Overflows(s: State, op: Op, pool: PoolId) {
    pool in s.pools && s.pools[pool].used + Growth(s, op, pool) >= LIMIT
  }

  lemma NextKeepsLinks(s: State, op: Op)
    requires Linked(s)
    ensures Linked(Next(s, op))
  {
  }

  /** Live bytes change by what was added and what was lost. */
  lemma LiveAfter(s: State, op: Op, pool: PoolId)
    requires Linked(s)
    ensures Live(Next(s, op).volumes, pool) == Live(s.volumes, pool) + Growth(s, op, pool) - LostBy(s, op, pool)
  {
    if Accepts(s, op) {
      match op
      case CreatePool(_, _, _) =>
      case CreateVolume(id, name, p, size, _) => LiveWith(s.volumes, pool, id, Volume(name, p, size, Available));
      case DeleteVolume(id, _) => LiveWithout(s.volumes, pool, id);
      case ResizeVolume(id, size, _) => LiveWith(s.volumes, pool, id, s.volumes[id].(size := size));
      case CloneVolume(source, id, name, _) =>
        var v := s.volumes[source];
        LiveWith(s.volumes, pool, id, Volume(name, v.pool, v.size, Available));
    }
  }

  lemma ShrinkLeavesRest(s: State, op: Op, pool: PoolId)
    requires Linked(s)
    ensures Live(s.volumes, pool) + Growth(s, op, pool) >= 0
  {
    NextKeepsLinks(s, op);
    LiveAfter(s, op, pool);
    LiveIsNotNegative(Next(s, op).volumes, pool);
    LiveIsNotNegative(s.volumes, pool);
    if op.DeleteVolume? {
      assert Growth(s, op, pool) == 0;
    }
  }

  /** The books change by the same amount, up to wrap-around; the clamp at zero never comes into it. */
  lemma UsedAfter(s: State, op: Op, pool: PoolId, lost: int)
    requires Balanced(s, pool, lost) && pool in s.pools
    ensures pool in Next(s, op).pools
    ensures
      var exact := s.pools[pool].used + Growth(s, op, pool);
      Next(s, op).pools[pool].used == (if exact >= LIMIT then exact - 2 * LIMIT else exact) && exact >= 0
  {
    ShrinkLeavesRest(s, op, pool);
  }

  /** One operation keeps a pool's books balanced exactly when they do not pass 2^63 bytes. */
  lemma StepBalancesIff(s: State, op: Op, pool: PoolId, lost: int)
    requires Balanced(s, pool, lost)
    ensures Balanced(Next(s, op), pool, lost + LostBy(s, op, pool)) <==> !Overflows(s, op, pool)
  {
    NextKeepsLinks(s, op);
    LiveAfter(s, op, pool);
    if pool in s.pools {
      UsedAfter(s, op, pool, lost);
    } else {
      NoLiveBytesIff(s.volumes, pool);
    }
  }

  // ---------------------------------------------------------------- every run

  ghost function Run(s: State, ops: seq<Op>): (r: State)
    requires Linked(s)
    ensures Linked(r)
    decreases |ops|
  {
    if ops == [] then s
    else
      NextKeepsLinks(s, ops[0]);
      Run(Next(s, ops[0]), ops[1..])
  }

  /** Bytes lost to deletes in the pool during the run. */
  ghost function Lost(s: State, ops: seq<Op>, pool: PoolId): int
    requires Linked(s)
    decreases |ops|
  {
    if ops == [] then 0
    else
      NextKeepsLinks(s, ops[0]);
      LostBy(s, ops[0], pool) + Lost(Next(s, ops[0]), ops[1..], pool)
  }

  ghost predicate NeverOverflows(s: State, ops: seq<Op>, pool: PoolId)
    requires Linked(s)
    decreases |ops|
  {
    ops == [] ||
    (NextKeepsLinks(s, ops[0]); !Overflows(s, ops[0], pool) && NeverOverflows(Next(s, ops[0]), ops[1..], pool))
  }

  /** Over every run, used bytes are the live bytes and the bytes deletes have left on the books. */
  lemma {:induction false} EveryRunBalances(s: State, ops: seq<Op>, pool: PoolId, lost: int)
    requires Balanced(s, pool, lost) && NeverOverflows(s, ops, pool)
    ensures Balanced(Run(s, ops), pool, lost + Lost(s, ops, pool))
    decreases |ops|
  {
    if ops != [] {
      StepBalancesIff(s, ops[0], pool, lost);
      EveryRunBalances(Next(s, ops[0]), ops[1..], pool, lost + LostBy(s, ops[0], pool));
    }
  }

  const EMPTY := State(map[], map[])

  /** From an empty service: the books, and when they show what is really there. */
  lemma UsedBytesMean(ops: seq<Op>, pool: PoolId)
    requires NeverOverflows(EMPTY, ops, pool) && pool in Run(EMPTY, ops).pools
    ensures
      var end := Run(EMPTY, ops);
      && end.pools[pool].used == Live(end.volumes, pool) + Lost(EMPTY, ops, pool)
      && (end.pools[pool].used == Live(end.volumes, pool) <==> !DeletedFrom(EMPTY, ops, pool))
  {
    EveryRunBalances(EMPTY, ops, pool, 0);
    LostIff(EMPTY, ops, pool);
  }

  /** Creating and deleting a volume of 6 bytes leaves 6 bytes used and nothing there. */
  lemma DeletedBytesStay()
    ensures
      var ops := [Op.CreatePool("p", "p", "/p"), Op.CreateVolume("v", "v", "p", 6, true), Op.DeleteVolume("v", false)];
      Run(EMPTY, ops) == State(map["p" := Pool(0, 6)], map[])
  {
    var create, fill, drop :=
      Op.CreatePool("p", "p", "/p"), Op.CreateVolume("v", "v", "p", 6, true), Op.DeleteVolume("v", false);
    var one := Next(EMPTY, create);
    assert one == State(map["p" := Pool(0, 0)], map[]);
    var two := Next(one, fill);
    assert two == State(map["p" := Pool(0, 6)], map["v" := Volume("v", "p", 6, Available)]);
    assert Next(two, drop).volumes == map[];
    assert Run(two, [drop]) == Next(two, drop);
    assert [fill, drop][1..] == [drop];
    assert Run(one, [fill, drop]) == Run(two, [drop]);
    assert [create, fill, drop][1..] == [fill, drop];
  }

  /** Some delete in the run removed a volume of the pool. */
  ghost predicate DeletedFrom(s: State, ops: seq<Op>, pool: PoolId)
    requires Linked(s)
    decreases |ops|
  {
    ops != [] &&
    (NextKeepsLinks(s, ops[0]);
     (ops[0].DeleteVolume? && Accepts(s, ops[0]) && s.volumes[ops[0].id].pool == pool)
     || DeletedFrom(Next(s, ops[0]), ops[1..], pool))
  }

  lemma {:induction false} LostIff(s: State, ops: seq<Op>, pool: PoolId)
    requires Linked(s)
    ensures Lost(s, ops, pool) >= 0
    ensures Lost(s, ops, pool) > 0 <==> DeletedFrom(s, ops, pool)
    decreases |ops|
  {
    if ops != [] {
      NextKeepsLinks(s, ops[0]);
      LostIff(Next(s, ops[0]), ops[1..], pool);
    }
  }

  // ---------------------------------------------------------------- capacity

  predicate WithinTotal(s: State, pool: PoolId) {
    pool in s.pools && (s.pools[pool].total > 0 ==> s.pools[pool].used <= s.pools[pool].total)
  }

  /** Bytes the pool can still take. */
  function Room(s: State, pool: PoolId): int
    requires pool in s.pools
  {
    s.pools[pool].total - s.pools[pool].used
  }

  /**
    Only CreateVolume looks at the capacity. In a pool that has a total, short of overflow, a create
    keeps to it, a clone exactly when the source is no larger than the room left, and a resize
    exactly when the volume does not grow by more than that.
    */
  lemma CapacityKeptIff(s: State, op: Op, pool: PoolId, lost: int)
    requires Balanced(s, pool, lost) && WithinTotal(s, pool) && s.pools[pool].total > 0
    requires Accepts(s, op) && !Overflows(s, op, pool)
    ensures op.CloneVolume? && s.volumes[op.source].pool == pool ==>
              (WithinTotal(Next(s, op), pool) <==> s.volumes[op.source].size <= Room(s, pool))
    ensures op.ResizeVolume? && s.volumes[op.id].pool == pool ==>
              (WithinTotal(Next(s, op), pool) <==> op.size - s.volumes[op.id].size <= Room(s, pool))
    ensures op.CreateVolume? || op.DeleteVolume? || op.CreatePool? || Growth(s, op, pool) == 0 ==>
        WithinTotal(Next(s, op), pool)
  {
    UsedAfter(s, op, pool, lost);
  }

  /** A pool of 10 bytes that holds one volume of 6 is overfull after cloning it. */
  lemma CloneMayExceedTotal()
    ensures
      var s := State(map["p" := Pool(10, 6)], map["v" := Volume("v", "p", 6, Available)]);
      var op := Op.CloneVolume("v", "w", "copy", true);
      Balanced(s, "p", 0) && WithinTotal(s, "p") && Accepts(s, op) && !WithinTotal(Next(s, op), "p")
  {
    var volumes := map["v" := Volume("v", "p", 6, Available)];
    LiveWithout(volumes, "p", "v");
    assert volumes - {"v"} == map[];
    var s := State(map["p" := Pool(10, 6)], volumes);
    CapacityKeptIff(s, Op.CloneVolume("v", "w", "copy", true), "p", 0);
  }

  /** Pools are created without a total and nothing sets one, so the test never rejects a volume. */
  lemma {:induction false} NoTotalIsEverSet(s: State, ops: seq<Op>)
    requires Linked(s) && forall p :: p in s.pools ==> s.pools[p].total == 0
    ensures forall p :: p in Run(s, ops).pools ==> Run(s, ops).pools[p].total == 0
    ensures forall p, size :: p in Run(s, ops).pools ==> Fits(Run(s, ops).pools[p], size)
    decreases |ops|
  {
    if ops != [] {
      NextKeepsLinks(s, ops[0]);
      NoTotalIsEverSet(Next(s, ops[0]), ops[1..]);
    }
  }
}

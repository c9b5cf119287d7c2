/**
  The image download protocol: callers that read an image row and start downloads, download
  goroutines that share an `active` map, a row, a partial file and a final file, and a process
  that may die at any step. The network is an environment that answers 200, 206, another status
  or an error, and may cut a body off anywhere (sections 14.2, 15.3.7 and 15.5.17 of RFC 9110).
  */
module Puller {
  import opened Common
  import opened ImageHash

  type ImageId = string

  datatype Status = Ready | Downloading | Processing | Error

  datatype Row = Row(status: Status, size: nat, checksum: string)

  /** What survives a restart: the row, the `.tmp` file and the final file of one image. */
  datatype Slot = Slot(row: Option<Row>, tmp: Option<Bytes>, final: Option<Bytes>)

  /** The remote body and URL suffix of every image, the digest, and what qemu-img may produce. */
  datatype Config = Config(
    body: ImageId -> Bytes,
    qcow2Url: ImageId -> bool,
    sha: Sha,
    isConversion: (Bytes, Bytes) -> bool)

  /** detectImageFormat, with the URL suffix deciding for files too short to have a magic number. */
  predicate NeedsConvert(data: Bytes, qcow2Url: bool) {
    if |data| < 4 then !qcow2Url else data[..4] != [0x51, 0x46, 0x49, 0xfb]
  }

  /** What ends up as the image: a body with the magic number of qcow2 as it is, any other one converted;
      of bodies too short for a magic number those whose URL ends in `.qcow2` are taken as they are. */
  ghost predicate RightFile(cfg: Config, id: ImageId, data: Bytes) {
    var body := cfg.body(id);
    && (|body| >= 4 && body[0] == 0x51 && body[1] == 0x46 && body[2] == 0x49 && body[3] == 0xfb ==> data == body)
    && (|body| >= 4 && !(body[0] == 0x51 && body[1] == 0x46 && body[2] == 0x49 && body[3] == 0xfb) ==>
          cfg.isConversion(body, data))
    && (|body| < 4 && cfg.qcow2Url(id) ==> data == body)
    && (|body| < 4 && !cfg.qcow2Url(id) ==> cfg.isConversion(body, data))
  }

  /** UpdateStatus leaves out size and checksum columns whose new value is zero or empty. */
  function SetStatus(slot: Slot, status: Status, size: nat, checksum: string): Slot {
    match slot.row
    case None => slot
    case Some(r) =>
      var newSize := if size > 0 then size else r.size;
      var newChecksum := if checksum != "" then checksum else r.checksum;
      slot.(row := Some(Row(status, newSize, newChecksum)))
  }

  // ---------------------------------------------------------------- one download goroutine

  datatype Phase =
    | Spawned
    | Locked
    | Requesting(offset: nat, hash: int)
    | Answered(offset: nat, hash: int, payload: Bytes)
    | Marked(offset: nat, hash: int, payload: Bytes)
    | Copying(offset: nat, hash: int, payload: Bytes, written: nat)
    | Copied(total: nat, checksum: string)
    | Cleared(total: nat, checksum: string)
    | Converted
    | Placed(size: nat, checksum: string)
    | Published(size: nat, checksum: string)
    | Leaving
  {
    /** Between setting and deleting the flag in `active`. */
    predicate Critical() {
      !Spawned?
    }
  }

  datatype Answer = Full | Partial | OtherStatus | NoAnswer

  datatype Event =
    | DirFails | Prepare
    | Reply(answer: Answer)
    | Mark
    | OpenFails | Open
    | Chunk(n: nat) | Cut | Eof
    | ClearFinal
    | RenameFails | Rename
    | ConvertWrites(data: Bytes) | ConvertFails | ConvertDone(data: Bytes) | DropTmp
    | Publish
    | Confirm

  function TmpLen(slot: Slot): nat {
    if slot.tmp.Some? then |slot.tmp.value| else 0
  }

  function Fail(slot: Slot): (Slot, Phase) {
    (SetStatus(slot, Error, 0, ""), Leaving)
  }

  /** The client's handling of the response status. */
  function OnReply(cfg: Config, id: ImageId, slot: Slot, offset: nat, hash: int, a: Answer): (Slot, Phase) {
    var body := cfg.body(id);
    match a
    case NoAnswer => Fail(slot)
    case OtherStatus => Fail(slot)
    case Full =>
      if offset > 0 then (slot.(tmp := None), Answered(0, cfg.sha.init, body))
      else (slot, Answered(0, hash, body))
    case Partial =>
      // Only an answer to a range request that starts inside the body.
      if 0 < offset < |body| then (slot, Answered(offset, hash, body[offset..])) else (slot, Requesting(offset, hash))
  }

  /** One step of the goroutine; an event that does not fit the phase changes nothing. */
  function Advance(cfg: Config, id: ImageId, slot: Slot, phase: Phase, e: Event): (Slot, Phase) {
    match (phase, e)
    case (Locked, DirFails) => Fail(slot)
    case (Locked, Prepare) =>
      var hash := if slot.tmp.Some? then Absorb(cfg.sha, cfg.sha.init, slot.tmp.value) else cfg.sha.init;
      (slot, Requesting(TmpLen(slot), hash))
    case (Requesting(offset, hash), Reply(a)) => OnReply(cfg, id, slot, offset, hash, a)
    case (Answered(offset, hash, payload), Mark) =>
      (SetStatus(slot, Processing, 0, ""), Marked(offset, hash, payload))
    case (Marked(_, _, _), OpenFails) => Fail(slot)
    case (Marked(offset, hash, payload), Open) =>
      (if offset > 0 then slot else slot.(tmp := Some([])), Copying(offset, hash, payload, 0))
    case (Copying(offset, hash, payload, written), Chunk(n)) =>
      if written + n <= |payload| && slot.tmp.Some? then
        var data := payload[written..written + n];
        (slot.(tmp := Some(slot.tmp.value + data)), Copying(offset, Absorb(cfg.sha, hash, data), payload, written + n))
      else (slot, phase)
    case (Copying(_, _, _, _), Cut) => (SetStatus(slot, Downloading, 0, ""), Leaving)
    case (Copying(offset, hash, payload, written), Eof) =>
      if written == |payload| then (slot, Copied(offset + written, cfg.sha.finish(hash))) else (slot, phase)
    case (Copied(total, checksum), ClearFinal) => (slot.(final := None), Cleared(total, checksum))
    case (Cleared(total, checksum), Rename) =>
      if slot.tmp.Some? && !NeedsConvert(slot.tmp.value, cfg.qcow2Url(id))
      then (slot.(final := slot.tmp, tmp := None), Placed(total, checksum)) else (slot, phase)
    case (Cleared(_, _), RenameFails) => Fail(slot)
    case (Cleared(_, _), ConvertWrites(data)) =>
      if slot.tmp.Some? && NeedsConvert(slot.tmp.value, cfg.qcow2Url(id)) then (slot.(final := Some(data)), phase)
      else (slot, phase)
    case (Cleared(_, _), ConvertFails) => Fail(slot)
    case (Cleared(_, _), ConvertDone(data)) =>
      if slot.tmp.Some? && NeedsConvert(slot.tmp.value, cfg.qcow2Url(id)) && cfg.isConversion(slot.tmp.value, data)
      then (slot.(final := Some(data)), Converted) else (slot, phase)
    case (Converted, DropTmp) =>
      if slot.final.Some?
      then (slot.(tmp := None), Placed(|slot.final.value|, Digest(cfg.sha, slot.final.value))) else (slot, phase)
    case (Placed(size, checksum), Publish) => (SetStatus(slot, Ready, size, checksum), Published(size, checksum))
    case (Published(size, checksum), Confirm) =>
      (if slot.row.Some? then slot.(row := Some(Row(Ready, size, checksum))) else slot, Leaving)
    case _ => (slot, phase)
  }

  /** The final file an image is supposed to end up with. */
  ghost predicate IsImage(cfg: Config, id: ImageId, data: Bytes) {
    var body := cfg.body(id);
    if NeedsConvert(body, cfg.qcow2Url(id)) then cfg.isConversion(body, data) else data == body
  }

  /** A ready row describes the file that is there. */
  ghost predicate ReadyIsTrue(cfg: Config, id: ImageId, slot: Slot) {
    slot.row.Some? && slot.row.value.status == Ready ==>
      && slot.final.Some?
      && IsImage(cfg, id, slot.final.value)
      && slot.row.value.checksum == Digest(cfg.sha, slot.final.value)
      && (slot.final.value != [] ==> slot.row.value.size == |slot.final.value|)
  }

  ghost predicate SlotInv(cfg: Config, id: ImageId, slot: Slot) {
    && ReadyIsTrue(cfg, id, slot)
    && (slot.tmp.Some? ==> slot.tmp.value <= cfg.body(id))
  }

  predicate NotReady(slot: Slot) {
    slot.row.Some? ==> slot.row.value.status != Ready
  }

  ghost predicate Resumes(cfg: Config, id: ImageId, slot: Slot, offset: nat, hash: int) {
    && offset == TmpLen(slot) <= |cfg.body(id)|
    && hash == Absorb(cfg.sha, cfg.sha.init, cfg.body(id)[..offset])
  }

  /** File, hasher and counter have all reached the same place in the body. */
  ghost predicate Copies(cfg: Config, id: ImageId, slot: Slot, offset: nat, hash: int, payload: Bytes, written: nat) {
    var body := cfg.body(id);
    && offset <= |body| && payload == body[offset..] && written <= |payload|
    && slot.tmp == Some(body[..offset + written])
    && hash == Absorb(cfg.sha, cfg.sha.init, body[..offset + written])
  }

  /** The whole body is in the partial file, with its length and digest. */
  ghost predicate Complete(cfg: Config, id: ImageId, slot: Slot, total: nat, checksum: string) {
    slot.tmp == Some(cfg.body(id)) && total == |cfg.body(id)| && checksum == Digest(cfg.sha, cfg.body(id))
  }

  /** `size` and `checksum` describe the final file, which is the image. */
  ghost predicate Describes(cfg: Config, id: ImageId, slot: Slot, size: nat, checksum: string) {
    && slot.final.Some?
    && IsImage(cfg, id, slot.final.value)
    && size == |slot.final.value|
    && checksum == Digest(cfg.sha, slot.final.value)
  }

  ghost predicate PhaseInv(cfg: Config, id: ImageId, slot: Slot, phase: Phase) {
    var body := cfg.body(id);
    match phase
    case Spawned => true
    case Locked => true
    case Requesting(offset, hash) => Resumes(cfg, id, slot, offset, hash)
    case Answered(offset, hash, payload) => Resumes(cfg, id, slot, offset, hash) && payload == body[offset..]
    case Marked(offset, hash, payload) =>
      Resumes(cfg, id, slot, offset, hash) && payload == body[offset..] && NotReady(slot)
    case Copying(offset, hash, payload, written) =>
      Copies(cfg, id, slot, offset, hash, payload, written) && NotReady(slot)
    case Copied(total, checksum) => Complete(cfg, id, slot, total, checksum) && NotReady(slot)
    case Cleared(total, checksum) => Complete(cfg, id, slot, total, checksum) && NotReady(slot)
    case Converted => slot.final.Some? && IsImage(cfg, id, slot.final.value) && NotReady(slot)
    case Placed(size, checksum) => Describes(cfg, id, slot, size, checksum) && NotReady(slot)
    case Published(size, checksum) => Describes(cfg, id, slot, size, checksum)
    case Leaving => true
  }

  lemma ReplyKeepsInv(cfg: Config, id: ImageId, slot: Slot, offset: nat, hash: int, a: Answer)
    requires SlotInv(cfg, id, slot) && Resumes(cfg, id, slot, offset, hash)
    ensures
      var (slot', phase') := OnReply(cfg, id, slot, offset, hash, a);
      SlotInv(cfg, id, slot') && PhaseInv(cfg, id, slot', phase')
  {
    var body := cfg.body(id);
    assert body[0..] == body;
    assert body[..0] == [];
  }

  lemma ChunkExtendsPrefix(body: Bytes, offset: nat, written: nat, n: nat)
    requires offset + written + n <= |body|
    ensures body[..offset + written] + body[offset..][written..written + n] == body[..offset + written + n]
    ensures body[offset..][written..written + n] == body[offset + written..offset + written + n]
  {
  }

  lemma ChunkKeepsStep(
    cfg: Config, id: ImageId, slot: Slot, offset: nat, hash: int, payload: Bytes, written: nat, n: nat)
    requires Copies(cfg, id, slot, offset, hash, payload, written)
    requires written + n <= |payload|
    ensures
      var data := payload[written..written + n];
      var after := slot.(tmp := Some(slot.tmp.value + data));
      Copies(cfg, id, after, offset, Absorb(cfg.sha, hash, data), payload, written + n)
  {
    ChunkExtendsPrefix(cfg.body(id), offset, written, n);
    AbsorbNext(cfg.sha, cfg.body(id), offset + written, offset + written + n);
  }

  lemma WriteKeepsInv(cfg: Config, id: ImageId, slot: Slot, phase: Phase, n: nat)
    requires phase.Copying? && SlotInv(cfg, id, slot) && PhaseInv(cfg, id, slot, phase)
    ensures
      var (slot', phase') := Advance(cfg, id, slot, phase, Chunk(n));
      SlotInv(cfg, id, slot') && PhaseInv(cfg, id, slot', phase')
  {
    if phase.written + n <= |phase.payload| {
      ChunkKeepsStep(cfg, id, slot, phase.offset, phase.hash, phase.payload, phase.written, n);
    }
  }

  lemma EofKeepsInv(cfg: Config, id: ImageId, slot: Slot, phase: Phase)
    requires phase.Copying? && SlotInv(cfg, id, slot) && PhaseInv(cfg, id, slot, phase)
    ensures
      var (slot', phase') := Advance(cfg, id, slot, phase, Eof);
      SlotInv(cfg, id, slot') && PhaseInv(cfg, id, slot', phase')
  {
    assert cfg.body(id)[..|cfg.body(id)|] == cfg.body(id);
  }

  lemma CopyingKeepsInv(cfg: Config, id: ImageId, slot: Slot, phase: Phase, e: Event)
    requires phase.Copying?
    requires SlotInv(cfg, id, slot) && PhaseInv(cfg, id, slot, phase)
    ensures
      var (slot', phase') := Advance(cfg, id, slot, phase, e);
      SlotInv(cfg, id, slot') && PhaseInv(cfg, id, slot', phase')
  {
    match e
    case Chunk(n) => WriteKeepsInv(cfg, id, slot, phase, n);
    case Eof => EofKeepsInv(cfg, id, slot, phase);
    case _ =>
  }

  lemma EarlyKeepsInv(cfg: Config, id: ImageId, slot: Slot, phase: Phase, e: Event)
    requires phase.Spawned? || phase.Locked? || phase.Requesting? || phase.Answered? || phase.Marked?
    requires SlotInv(cfg, id, slot) && PhaseInv(cfg, id, slot, phase)
    ensures
      var (slot', phase') := Advance(cfg, id, slot, phase, e);
      SlotInv(cfg, id, slot') && PhaseInv(cfg, id, slot', phase')
  {
    var body := cfg.body(id);
    assert body[..0] == [];
    if slot.tmp.Some? {
      assert body[..|slot.tmp.value|] == slot.tmp.value;
    }
    if phase.Requesting? && e.Reply? {
      ReplyKeepsInv(cfg, id, slot, phase.offset, phase.hash, e.answer);
    }
  }

  lemma LateKeepsInv(cfg: Config, id: ImageId, slot: Slot, phase: Phase, e: Event)
    requires cfg.sha.IsHex()
    requires phase.Copied? || phase.Cleared? || phase.Converted? || phase.Placed? || phase.Published? || phase.Leaving?
    requires SlotInv(cfg, id, slot) && PhaseInv(cfg, id, slot, phase)
    ensures
      var (slot', phase') := Advance(cfg, id, slot, phase, e);
      SlotInv(cfg, id, slot') && PhaseInv(cfg, id, slot', phase')
  {
    assert phase.Placed? ==> |phase.checksum| == 64;
  }

  /** Every step of a download keeps what its phase promises about row and files. */
  lemma AdvanceKeepsInv(cfg: Config, id: ImageId, slot: Slot, phase: Phase, e: Event)
    requires cfg.sha.IsHex()
    requires SlotInv(cfg, id, slot) && PhaseInv(cfg, id, slot, phase)
    ensures
      var (slot', phase') := Advance(cfg, id, slot, phase, e);
      SlotInv(cfg, id, slot') && PhaseInv(cfg, id, slot', phase')
  {
    if phase.Copying? {
      CopyingKeepsInv(cfg, id, slot, phase, e);
    } else if phase.Spawned? || phase.Locked? || phase.Requesting? || phase.Answered? || phase.Marked? {
      EarlyKeepsInv(cfg, id, slot, phase, e);
    } else {
      LateKeepsInv(cfg, id, slot, phase, e);
    }
  }

  /** Only the lock leads out of the spawned phase, and no step leads back. */
  lemma AdvanceKeepsCritical(cfg: Config, id: ImageId, slot: Slot, phase: Phase, e: Event)
    ensures phase.Critical() <==> Advance(cfg, id, slot, phase, e).1.Critical()
    ensures phase.Spawned? ==> Advance(cfg, id, slot, phase, e) == (slot, phase)
  {
  }

  // ---------------------------------------------------------------- callers and the whole process

  /** What a caller has decided after reading the row. */
  datatype Caller = WillReset(id: ImageId) | WillSpawn(id: ImageId) | Returned

  datatype Worker = Worker(id: ImageId, phase: Phase)

  datatype State = State(
    slots: map<ImageId, Slot>,
    active: set<ImageId>,
    workers: map<nat, Worker>,
    callers: map<nat, Caller>)
  {
    function SlotOf(id: ImageId): Slot {
      if id in slots then slots[id] else Slot(None, None, None)
    }
  }

  datatype Action =
    | PullNew(caller: nat, id: ImageId, catalogSize: nat)
    | PullExisting(caller: nat, id: ImageId)
    | ResolveById(caller: nat, id: ImageId)
    | Resume(caller: nat, id: ImageId)
    | Reset(caller: nat)
    | Spawn(caller: nat, worker: nat)
    | Lock(worker: nat)
    | Work(worker: nat, event: Event)
    | Unlock(worker: nat)
    | DeleteRow(id: ImageId)
    | Restart

  /** PullFromOfficial and the alias branch of ResolveAndEnsureImage on an existing row. */
  function DecidePull(id: ImageId, slot: Slot): Caller {
    if slot.row.None? then Returned
    else if slot.row.value.status == Ready && slot.final.Some? then Returned
    else if slot.row.value.status == Downloading || slot.row.value.status == Processing then Returned
    else WillReset(id)
  }

  /** ResolveAndEnsureImage by id restarts failed downloads only. */
  function DecideResolve(id: ImageId, slot: Slot): Caller {
    if slot.row.Some? && slot.row.value.status == Error then WillReset(id) else Returned
  }

  /** ResumeDownloads picks up interrupted ones without touching the row. */
  function DecideResume(id: ImageId, slot: Slot): Caller {
    if slot.row.Some? && (slot.row.value.status == Downloading || slot.row.value.status == Processing)
    then WillSpawn(id) else Returned
  }

  function Next(cfg: Config, s: State, a: Action): State {
    match a
    case PullNew(c, id, size) =>
      if s.SlotOf(id).row.Some? then s
      else
        var slot := s.SlotOf(id).(row := Some(Row(Downloading, size, "")));
        s.(slots := s.slots[id := slot], callers := s.callers[c := WillSpawn(id)])
    case PullExisting(c, id) => s.(callers := s.callers[c := DecidePull(id, s.SlotOf(id))])
    case ResolveById(c, id) => s.(callers := s.callers[c := DecideResolve(id, s.SlotOf(id))])
    case Resume(c, id) => s.(callers := s.callers[c := DecideResume(id, s.SlotOf(id))])
    case Reset(c) =>
      if c in s.callers && s.callers[c].WillReset? then
        var id := s.callers[c].id;
        var slot := SetStatus(s.SlotOf(id), Downloading, 0, "");
        s.(slots := s.slots[id := slot], callers := s.callers[c := WillSpawn(id)])
      else s
    case Spawn(c, w) =>
      if c in s.callers && s.callers[c].WillSpawn? && w !in s.workers then
        s.(workers := s.workers[w := Worker(s.callers[c].id, Spawned)], callers := s.callers[c := Returned])
      else s
    case Lock(w) =>
      if w in s.workers && s.workers[w].phase.Spawned? then
        var id := s.workers[w].id;
        if id in s.active then s.(workers := s.workers - {w})
        else s.(active := s.active + {id}, workers := s.workers[w := Worker(id, Locked)])
      else s
    case Work(w, e) =>
      if w in s.workers then
        var id := s.workers[w].id;
        var (slot, phase) := Advance(cfg, id, s.SlotOf(id), s.workers[w].phase, e);
        s.(slots := s.slots[id := slot], workers := s.workers[w := Worker(id, phase)])
      else s
    case Unlock(w) =>
      if w in s.workers && s.workers[w].phase.Leaving? then
        s.(active := s.active - {s.workers[w].id}, workers := s.workers - {w})
      else s
    case DeleteRow(id) => s.(slots := s.slots[id := s.SlotOf(id).(row := None)])
    case Restart => State(s.slots, {}, map[], map[])
  }

  function Exec(cfg: Config, run: seq<Action>): State {
    if run == [] then State(map[], {}, map[], map[])
    else Next(cfg, Exec(cfg, run[..|run| - 1]), run[|run| - 1])
  }

  ghost predicate CriticalFor(s: State, w: nat, id: ImageId) {
    w in s.workers && s.workers[w].phase.Critical() && s.workers[w].id == id
  }

  ghost predicate Inv(cfg: Config, s: State) {
    && (forall id :: SlotInv(cfg, id, s.SlotOf(id)))
    && (forall w :: w in s.workers ==> PhaseInv(cfg, s.workers[w].id, s.SlotOf(s.workers[w].id), s.workers[w].phase))
    // `active` says exactly which images have a goroutine past the lock, and there is only one each.
    && (forall w, id :: CriticalFor(s, w, id) ==> id in s.active)
    && (forall id :: id in s.active ==> exists w :: CriticalFor(s, w, id))
    && (forall w, v, id :: CriticalFor(s, w, id) && CriticalFor(s, v, id) ==> w == v)
  }

  /** Row writes that leave the row not ready, or remove it, disturb no download. */
  lemma RowChangeKeepsInv(cfg: Config, s: State, id: ImageId, row: Option<Row>, callers: map<nat, Caller>)
    requires Inv(cfg, s)
    requires row.Some? ==> row.value.status != Ready
    ensures Inv(cfg, s.(slots := s.slots[id := s.SlotOf(id).(row := row)], callers := callers))
  {
    var s' := s.(slots := s.slots[id := s.SlotOf(id).(row := row)], callers := callers);
    assert forall w, x :: CriticalFor(s', w, x) <==> CriticalFor(s, w, x);
    assert forall x :: x != id ==> s'.SlotOf(x) == s.SlotOf(x);
  }

  /** Only the goroutine past the lock has a phase that says anything about the image's slot. */
  lemma OthersAreSpawned(cfg: Config, s: State, w: nat, v: nat)
    requires Inv(cfg, s) && w in s.workers && v in s.workers && v != w
    requires s.workers[w].id == s.workers[v].id && s.workers[w].phase.Critical()
    ensures s.workers[v].phase.Spawned?
  {
    var id := s.workers[w].id;
    assert CriticalFor(s, w, id);
    assert s.workers[v].phase.Critical() ==> CriticalFor(s, v, id);
  }

  lemma WorkKeepsPhases(cfg: Config, s: State, w: nat, e: Event, v: nat)
    requires cfg.sha.IsHex() && Inv(cfg, s) && w in s.workers && v in s.workers
    ensures
      var s' := Next(cfg, s, Work(w, e));
      PhaseInv(cfg, s'.workers[v].id, s'.SlotOf(s'.workers[v].id), s'.workers[v].phase)
  {
    var s' := Next(cfg, s, Work(w, e));
    var id, phase := s.workers[w].id, s.workers[w].phase;
    if v == w {
      AdvanceKeepsInv(cfg, id, s.SlotOf(id), phase, e);
    } else if s.workers[v].id != id {
      assert s'.SlotOf(s.workers[v].id) == s.SlotOf(s.workers[v].id);
    } else if phase.Critical() {
      OthersAreSpawned(cfg, s, w, v);
    } else {
      AdvanceKeepsCritical(cfg, id, s.SlotOf(id), phase, e);
      assert s'.SlotOf(id) == s.SlotOf(id);
    }
  }

  lemma WorkKeepsInv(cfg: Config, s: State, w: nat, e: Event)
    requires cfg.sha.IsHex() && Inv(cfg, s) && w in s.workers
    ensures Inv(cfg, Next(cfg, s, Work(w, e)))
  {
    var s' := Next(cfg, s, Work(w, e));
    var id, phase := s.workers[w].id, s.workers[w].phase;
    AdvanceKeepsInv(cfg, id, s.SlotOf(id), phase, e);
    AdvanceKeepsCritical(cfg, id, s.SlotOf(id), phase, e);
    assert forall v, x :: CriticalFor(s', v, x) <==> CriticalFor(s, v, x);
    assert forall x :: x != id ==> s'.SlotOf(x) == s.SlotOf(x);
    forall v | v in s'.workers
      ensures PhaseInv(cfg, s'.workers[v].id, s'.SlotOf(s'.workers[v].id), s'.workers[v].phase)
    {
      WorkKeepsPhases(cfg, s, w, e, v);
    }
  }

  lemma LockKeepsInv(cfg: Config, s: State, w: nat)
    requires Inv(cfg, s)
    requires w in s.workers && s.workers[w].phase.Spawned?
    ensures Inv(cfg, Next(cfg, s, Lock(w)))
  {
    var s', id := Next(cfg, s, Lock(w)), s.workers[w].id;
    assert forall x :: s'.SlotOf(x) == s.SlotOf(x);
    if id in s.active {
      assert forall v, x :: CriticalFor(s', v, x) <==> CriticalFor(s, v, x);
    } else {
      assert forall v, x :: CriticalFor(s', v, x) <==> CriticalFor(s, v, x) || (v == w && x == id);
      assert CriticalFor(s', w, id);
    }
  }

  lemma UnlockKeepsInv(cfg: Config, s: State, w: nat)
    requires Inv(cfg, s)
    requires w in s.workers && s.workers[w].phase.Leaving?
    ensures Inv(cfg, Next(cfg, s, Unlock(w)))
  {
    var s', id := Next(cfg, s, Unlock(w)), s.workers[w].id;
    assert forall x :: s'.SlotOf(x) == s.SlotOf(x);
    assert CriticalFor(s, w, id);
    assert forall v, x :: CriticalFor(s', v, x) <==> CriticalFor(s, v, x) && v != w;
    forall x | x in s'.active
      ensures exists v :: CriticalFor(s', v, x)
    {
      var v :| CriticalFor(s, v, x);
      assert CriticalFor(s', v, x);
    }
  }

  lemma NextKeepsInv(cfg: Config, s: State, a: Action)
    requires cfg.sha.IsHex() && Inv(cfg, s)
    ensures Inv(cfg, Next(cfg, s, a))
  {
    var s' := Next(cfg, s, a);
    match a
    case PullNew(c, id, size) =>
      RowChangeKeepsInv(cfg, s, id, Some(Row(Downloading, size, "")), s.callers[c := WillSpawn(id)]);
    case Reset(c) =>
      if c in s.callers && s.callers[c].WillReset? {
        var id := s.callers[c].id;
        var slot := SetStatus(s.SlotOf(id), Downloading, 0, "");
        assert slot == s.SlotOf(id).(row := slot.row);
        RowChangeKeepsInv(cfg, s, id, slot.row, s.callers[c := WillSpawn(id)]);
      }
    case DeleteRow(id) =>
      RowChangeKeepsInv(cfg, s, id, None, s.callers);
    case Lock(w) =>
      if w in s.workers && s.workers[w].phase.Spawned? {
        LockKeepsInv(cfg, s, w);
      }
    case Unlock(w) =>
      if w in s.workers && s.workers[w].phase.Leaving? {
        UnlockKeepsInv(cfg, s, w);
      }
    case Work(w, e) =>
      if w in s.workers {
        WorkKeepsInv(cfg, s, w, e);
      }
    case Spawn(c, w) =>
      assert forall v, x :: CriticalFor(s', v, x) <==> CriticalFor(s, v, x);
      assert forall x :: s'.SlotOf(x) == s.SlotOf(x);
    case _ =>
      assert forall x :: s'.SlotOf(x) == s.SlotOf(x);
      assert a != Restart ==> forall v, x :: CriticalFor(s', v, x) <==> CriticalFor(s, v, x);
  }

  lemma {:induction false} EveryRunKeepsInv(cfg: Config, run: seq<Action>)
    requires cfg.sha.IsHex()
    ensures Inv(cfg, Exec(cfg, run))
  {
    if run != [] {
      EveryRunKeepsInv(cfg, run[..|run| - 1]);
      NextKeepsInv(cfg, Exec(cfg, run[..|run| - 1]), run[|run| - 1]);
    }
  }

  /**
    What the callers of an existing image do. A ready image with its file is left alone by all of them;
    a failed one is restarted by pull and resolve; one under way is taken up again only by the scan at
    start-up; a ready one whose file is gone is restarted by pull.
    */
  lemma CallersDecide(cfg: Config, s: State, c: nat, id: ImageId)
    requires s.SlotOf(id).row.Some?
    ensures
      var slot := s.SlotOf(id);
      var pull, resolve, resume :=
        Next(cfg, s, PullExisting(c, id)), Next(cfg, s, ResolveById(c, id)), Next(cfg, s, Resume(c, id));
      && pull.slots == resolve.slots == resume.slots == s.slots
      && match slot.row.value.status
         case Ready =>
           && pull.callers[c] == (if slot.final.Some? then Returned else WillReset(id))
           && resolve.callers[c] == resume.callers[c] == Returned
         case Error => pull.callers[c] == resolve.callers[c] == WillReset(id) && resume.callers[c] == Returned
         case _ => pull.callers[c] == resolve.callers[c] == Returned && resume.callers[c] == WillSpawn(id)
  {
  }

  /** At most one download per image is past the lock, in every interleaving. */
  lemma OneDownloadPerImage(cfg: Config, run: seq<Action>, w: nat, v: nat, id: ImageId)
    requires cfg.sha.IsHex()
    requires CriticalFor(Exec(cfg, run), w, id) && CriticalFor(Exec(cfg, run), v, id)
    ensures w == v
  {
    EveryRunKeepsInv(cfg, run);
  }

  /** A second download of an image ends at the lock and touches nothing. */
  lemma SecondDownloadReturns(cfg: Config, run: seq<Action>, w: nat, v: nat, id: ImageId)
    requires cfg.sha.IsHex()
    requires
      var s := Exec(cfg, run);
      CriticalFor(s, w, id) && v in s.workers && s.workers[v] == Worker(id, Spawned)
    ensures
      var s, s' := Exec(cfg, run), Next(cfg, Exec(cfg, run), Lock(v));
      s'.workers == s.workers - {v} && s'.slots == s.slots && s'.active == s.active
  {
    EveryRunKeepsInv(cfg, run);
  }

  /** A row marked ready has its whole final file, with that file's checksum and, if not empty, size. */
  lemma ReadyImageIsWhole(cfg: Config, run: seq<Action>, id: ImageId)
    requires cfg.sha.IsHex()
    ensures
      var slot := Exec(cfg, run).SlotOf(id);
      slot.row.Some? && slot.row.value.status == Ready ==>
        && slot.final.Some?
        && RightFile(cfg, id, slot.final.value)
        && slot.row.value.checksum == Digest(cfg.sha, slot.final.value)
        && (slot.final.value != [] ==> slot.row.value.size == |slot.final.value|)
  {
    EveryRunKeepsInv(cfg, run);
    var slot := Exec(cfg, run).SlotOf(id);
    if slot.final.Some? {
      ImageIsRightFile(cfg, id, slot.final.value);
    }
  }

  lemma ImageIsRightFile(cfg: Config, id: ImageId, data: Bytes)
    ensures IsImage(cfg, id, data) <==> RightFile(cfg, id, data)
  {
    ConvertsUnlessMagic(cfg.body(id), cfg.qcow2Url(id));
  }

  /** The two tests of the format, spelled out. */
  lemma ConvertsUnlessMagic(body: Bytes, qcow2Url: bool)
    ensures |body| >= 4 ==>
              (NeedsConvert(body, qcow2Url) <==>
               !(body[0] == 0x51 && body[1] == 0x46 && body[2] == 0x49 && body[3] == 0xfb))
    ensures |body| < 4 ==> (!NeedsConvert(body, qcow2Url) <==> qcow2Url)
  {
    if |body| >= 4 {
      assert body[..4] == [body[0], body[1], body[2], body[3]];
    }
  }

  /** Across cut-offs, resumptions and restarts the partial file is a prefix of the remote body. */
  lemma PartialFileIsPrefix(cfg: Config, run: seq<Action>, id: ImageId)
    requires cfg.sha.IsHex()
    ensures Exec(cfg, run).SlotOf(id).tmp.Some? ==> Exec(cfg, run).SlotOf(id).tmp.value <= cfg.body(id)
  {
    EveryRunKeepsInv(cfg, run);
  }
}

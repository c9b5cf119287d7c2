/**
  What particular runs of the download protocol lead to: a complete partial file that only a full
  answer finishes, and a ready row whose size is not that of its file.
  */
module ImageRuns {
  import opened Common
  import opened ImageHash
  import opened Puller
  import opened ImageDownload

  lemma ExecSnoc(cfg: Config, run: seq<Action>, a: Action)
    ensures Exec(cfg, run + [a]) == Next(cfg, Exec(cfg, run), a)
  {
    assert (run + [a])[..|run + [a]| - 1] == run;
  }

  /** A longer run after which goroutine 0 serves image `id` in this slot and phase. */
  ghost predicate Stands(cfg: Config, run: seq<Action>, longer: seq<Action>, id: ImageId, slot: Slot, phase: Phase) {
    var s := Exec(cfg, longer);
    run <= longer && 0 in s.workers && s.workers[0] == Worker(id, phase) && s.SlotOf(id) == slot
  }

  /** The points goroutine 0 can get to after the run. */
  ghost function After(cfg: Config, run: seq<Action>, id: ImageId): Points {
    (slot, phase) => exists longer :: Stands(cfg, run, longer, id, slot, phase)
  }

  lemma RunTo(cfg: Config, run: seq<Action>, id: ImageId, slot: Slot, phase: Phase) returns (longer: seq<Action>)
    requires After(cfg, run, id)(slot, phase)
    ensures run <= longer && Exec(cfg, longer).SlotOf(id) == slot
  {
    longer :| Stands(cfg, run, longer, id, slot, phase);
  }

  lemma WorkMoves(
    cfg: Config, run: seq<Action>, longer: seq<Action>, id: ImageId, slot: Slot, phase: Phase, e: Event)
    requires Stands(cfg, run, longer, id, slot, phase)
    ensures
      var (slot', phase') := Advance(cfg, id, slot, phase, e);
      Stands(cfg, run, longer + [Work(0, e)], id, slot', phase')
  {
    ExecSnoc(cfg, longer, Work(0, e));
  }

  lemma AfterIsClosed(cfg: Config, run: seq<Action>, id: ImageId)
    ensures Closed(cfg, id, After(cfg, run, id))
  {
    var points := After(cfg, run, id);
    forall slot, phase, e | points(slot, phase)
      ensures
        var (slot', phase') := Advance(cfg, id, slot, phase, e);
        points(slot', phase')
    {
      var longer :| Stands(cfg, run, longer, id, slot, phase);
      WorkMoves(cfg, run, longer, id, slot, phase, e);
    }
  }

  // ---------------------------------------------------------------- a download can be started

  /** What the row says once some caller has set out to start a download. */
  function RowToStart(row: Option<Row>, size: nat): Row {
    match row
    case None => Row(Downloading, size, "")
    case Some(r) => if r.status == Error then r.(status := Downloading) else r
  }

  /** A caller has read the row and will spawn a download; nothing else is going on. */
  ghost predicate AboutToSpawn(s: State, id: ImageId, slot: Slot) {
    s.active == {} && s.workers == map[] && s.callers == map[0 := WillSpawn(id)] && s.SlotOf(id) == slot
  }

  lemma CallerResets(cfg: Config, run: seq<Action>, id: ImageId) returns (longer: seq<Action>)
    requires
      var s := Exec(cfg, run);
      s == State(s.slots, {}, map[], map[]) && s.SlotOf(id).row.Some? && s.SlotOf(id).row.value.status == Error
    ensures run <= longer
    ensures
      var slot := Exec(cfg, run).SlotOf(id);
      AboutToSpawn(Exec(cfg, longer), id, slot.(row := Some(slot.row.value.(status := Downloading))))
  {
    ExecSnoc(cfg, run, PullExisting(0, id));
    ExecSnoc(cfg, run + [PullExisting(0, id)], Reset(0));
    longer := run + [PullExisting(0, id)] + [Reset(0)];
  }

  lemma CallerDecides(cfg: Config, run: seq<Action>, id: ImageId, size: nat) returns (longer: seq<Action>)
    requires NotReady(Exec(cfg, run).SlotOf(id))
    ensures run <= longer
    ensures
      var slot := Exec(cfg, run).SlotOf(id);
      AboutToSpawn(Exec(cfg, longer), id, slot.(row := Some(RowToStart(slot.row, size))))
  {
    var slot := Exec(cfg, run).SlotOf(id);
    var restarted := run + [Restart];
    ExecSnoc(cfg, run, Restart);
    if slot.row.None? {
      ExecSnoc(cfg, restarted, PullNew(0, id, size));
      longer := restarted + [PullNew(0, id, size)];
    } else if slot.row.value.status == Error {
      longer := CallerResets(cfg, restarted, id);
    } else {
      ExecSnoc(cfg, restarted, Resume(0, id));
      longer := restarted + [Resume(0, id)];
    }
  }

  lemma SpawnAndLock(cfg: Config, run: seq<Action>, longer: seq<Action>, id: ImageId, slot: Slot)
    requires run <= longer && AboutToSpawn(Exec(cfg, longer), id, slot)
    ensures After(cfg, run, id)(slot, Locked)
  {
    ExecSnoc(cfg, longer, Spawn(0, 0));
    ExecSnoc(cfg, longer + [Spawn(0, 0)], Lock(0));
    assert Stands(cfg, run, longer + [Spawn(0, 0)] + [Lock(0)], id, slot, Locked);
  }

  /** After a restart some caller starts a download of any image that is not ready. */
  lemma DownloadStarts(cfg: Config, run: seq<Action>, id: ImageId, size: nat) returns (slot: Slot)
    requires cfg.sha.IsHex() && NotReady(Exec(cfg, run).SlotOf(id))
    ensures slot == Exec(cfg, run).SlotOf(id).(row := Some(RowToStart(Exec(cfg, run).SlotOf(id).row, size)))
    ensures After(cfg, run, id)(slot, Locked) && SlotInv(cfg, id, slot)
  {
    var old' := Exec(cfg, run).SlotOf(id);
    slot := old'.(row := Some(RowToStart(old'.row, size)));
    var longer := CallerDecides(cfg, run, id, size);
    SpawnAndLock(cfg, run, longer, id, slot);
    EveryRunKeepsInv(cfg, run);
    assert SlotInv(cfg, id, old');
  }

  /** A full answer brings the whole body into the partial file, whatever was there. */
  lemma FullAnswerCopies(cfg: Config, id: ImageId, points: Points, start: Slot)
    requires Closed(cfg, id, points) && points(start, Locked) && SlotInv(cfg, id, start)
    ensures
      var body := cfg.body(id);
      var slot := SetStatus(start, Processing, 0, "").(tmp := Some(body));
      && points(slot, Copying(0, Absorb(cfg.sha, cfg.sha.init, body), body, |body|))
      && points(slot, Copied(|body|, Digest(cfg.sha, body)))
  {
    var body := cfg.body(id);
    assert body[..0] == [] && body[0..] == body && body[0..|body|] == body;
    OpensAt(cfg, id, points, start, Full, 0, cfg.sha.init);
    var opened' := SetStatus(start, Processing, 0, "").(tmp := Some([]));
    assert points(opened', Copying(0, cfg.sha.init, body, 0));
    ChunkReached(cfg, id, points, opened', 0, cfg.sha.init, body, 0, |body|);
    assert [] + body == body;
    var slot := opened'.(tmp := Some(body));
    CutReached(cfg, id, points, slot, 0, Absorb(cfg.sha, cfg.sha.init, body), body, |body|);
  }

  /** From there any image that may come out can be put in place and published. */
  lemma CopiedIsPublished(cfg: Config, id: ImageId, points: Points, slot: Slot, data: Bytes)
    requires Closed(cfg, id, points) && points(slot, Copied(|cfg.body(id)|, Digest(cfg.sha, cfg.body(id))))
    requires slot.tmp == Some(cfg.body(id)) && IsImage(cfg, id, data)
    ensures
      var placed, sum := slot.(tmp := None, final := Some(data)), Digest(cfg.sha, data);
      points(SetStatus(placed, Ready, |data|, sum), Published(|data|, sum))
  {
    var body, sum := cfg.body(id), Digest(cfg.sha, data);
    if NeedsConvert(body, cfg.qcow2Url(id)) {
      ConversionReached(cfg, id, points, slot, |body|, Digest(cfg.sha, body), data);
    } else {
      RenameReached(cfg, id, points, slot, |body|, Digest(cfg.sha, body));
    }
    var placed := slot.(tmp := None, final := Some(data));
    OnwardTo(cfg, id, points, placed, Placed(|data|, sum), Publish, SetStatus(placed, Ready, |data|, sum),
        Published(|data|, sum));
  }

  // ---------------------------------------------------------------- a complete partial file

  predicate Waiting(phase: Phase, offset: nat) {
    phase.Spawned? || phase.Locked? || phase.Leaving? || (phase.Requesting? && phase.offset == offset)
  }

  /** The partial file is the whole body, the row is not ready and no download has been answered yet. */
  ghost predicate Stuck(cfg: Config, id: ImageId, s: State) {
    && cfg.body(id) != []
    && s.SlotOf(id).tmp == Some(cfg.body(id))
    && NotReady(s.SlotOf(id))
    && forall w :: w in s.workers && s.workers[w].id == id ==> Waiting(s.workers[w].phase, |cfg.body(id)|)
  }

  /** The action is a full answer to a download of the image. */
  predicate FullAnswer(s: State, a: Action, id: ImageId) {
    a.Work? && a.event == Reply(Full) && a.worker in s.workers && s.workers[a.worker].id == id
  }

  lemma StuckStays(cfg: Config, s: State, a: Action, id: ImageId)
    requires Stuck(cfg, id, s) && !FullAnswer(s, a, id)
    ensures Stuck(cfg, id, Next(cfg, s, a))
  {
  }

  /** From operation n of the run on, no download of the image gets a full answer. */
  ghost predicate NoFullAnswer(cfg: Config, run: seq<Action>, n: nat, id: ImageId) {
    forall j :: n <= j < |run| ==> OtherThanFull(cfg, run, j, id)
  }

  ghost predicate OtherThanFull(cfg: Config, run: seq<Action>, j: nat, id: ImageId)
    requires j < |run|
  {
    !FullAnswer(Exec(cfg, run[..j]), run[j], id)
  }

  lemma NoFullAnswerBefore(cfg: Config, run: seq<Action>, n: nat, id: ImageId)
    requires n < |run| && NoFullAnswer(cfg, run, n, id)
    ensures NoFullAnswer(cfg, run[..|run| - 1], n, id)
  {
    var front := run[..|run| - 1];
    forall j | n <= j < |front|
      ensures OtherThanFull(cfg, front, j, id)
    {
      assert front[..j] == run[..j] && OtherThanFull(cfg, run, j, id);
    }
  }

  lemma {:induction false} StuckUntilFullAnswer(cfg: Config, run: seq<Action>, n: nat, id: ImageId)
    requires n <= |run| && Stuck(cfg, id, Exec(cfg, run[..n])) && NoFullAnswer(cfg, run, n, id)
    ensures Stuck(cfg, id, Exec(cfg, run))
  {
    if n == |run| {
      assert run[..n] == run;
    } else {
      var last := |run| - 1;
      var front := run[..last];
      assert front[..n] == run[..n];
      NoFullAnswerBefore(cfg, run, n, id);
      assert OtherThanFull(cfg, run, last, id);
      StuckUntilFullAnswer(cfg, front, n, id);
      StuckStays(cfg, Exec(cfg, front), run[last], id);
    }
  }

  /** A download that is killed after the last byte and before the rename leads there. */
  lemma StuckIsReachable(cfg: Config, id: ImageId) returns (run: seq<Action>)
    requires cfg.sha.IsHex() && cfg.body(id) != []
    ensures Stuck(cfg, id, Exec(cfg, run))
  {
    var body := cfg.body(id);
    var points := After(cfg, [], id);
    var start := DownloadStarts(cfg, [], id, 0);
    AfterIsClosed(cfg, [], id);
    FullAnswerCopies(cfg, id, points, start);
    var slot := SetStatus(start, Processing, 0, "").(tmp := Some(body));
    var longer := RunTo(cfg, [], id, slot, Copied(|body|, Digest(cfg.sha, body)));
    run := longer + [Restart];
    ExecSnoc(cfg, longer, Restart);
    assert Exec(cfg, run).SlotOf(id) == Exec(cfg, longer).SlotOf(id) == slot;
  }

  ghost predicate IsReady(slot: Slot) {
    slot.row.Some? && slot.row.value.status == Ready
  }

  /**
    A complete partial file cannot be finished by resuming: as long as no download of the image gets a
    full answer, the file stays and the row does not become ready, through any number of attempts,
    callers and restarts. With a full answer it can always be finished.
    */
  lemma CompleteFileNeedsFullAnswer(cfg: Config, run: seq<Action>, id: ImageId)
    requires cfg.sha.IsHex() && Stuck(cfg, id, Exec(cfg, run))
    ensures forall more :: run <= more && NoFullAnswer(cfg, more, |run|, id) ==>
              Exec(cfg, more).SlotOf(id).tmp == Some(cfg.body(id)) && !IsReady(Exec(cfg, more).SlotOf(id))
    ensures (exists data :: RightFile(cfg, id, data)) ==>
        exists more :: run <= more && IsReady(Exec(cfg, more).SlotOf(id))
  {
    forall more | run <= more && NoFullAnswer(cfg, more, |run|, id)
      ensures Exec(cfg, more).SlotOf(id).tmp == Some(cfg.body(id)) && !IsReady(Exec(cfg, more).SlotOf(id))
    {
      assert more[..|run|] == run;
      StuckUntilFullAnswer(cfg, more, |run|, id);
    }
    if data :| RightFile(cfg, id, data) {
      ImageIsRightFile(cfg, id, data);
      CanBecomeReady(cfg, run, id, 0, data);
    }
  }

  /** Any image that is not ready can become so, and the row is first written by the status update. */
  lemma CanBecomeReady(cfg: Config, run: seq<Action>, id: ImageId, size: nat, data: Bytes)
    requires cfg.sha.IsHex() && NotReady(Exec(cfg, run).SlotOf(id)) && IsImage(cfg, id, data)
    ensures
      var before := RowToStart(Exec(cfg, run).SlotOf(id).row, size);
      exists more :: run <= more && JustReady(Exec(cfg, more).SlotOf(id), before, data)
  {
    var points := After(cfg, run, id);
    var start := DownloadStarts(cfg, run, id, size);
    AfterIsClosed(cfg, run, id);
    FullAnswerCopies(cfg, id, points, start);
    var slot := SetStatus(start, Processing, 0, "").(tmp := Some(cfg.body(id)));
    CopiedIsPublished(cfg, id, points, slot, data);
    var placed, sum := slot.(tmp := None, final := Some(data)), Digest(cfg.sha, data);
    var more := RunTo(cfg, run, id, SetStatus(placed, Ready, |data|, sum), Published(|data|, sum));
    assert JustReady(Exec(cfg, more).SlotOf(id), RowToStart(Exec(cfg, run).SlotOf(id).row, size), data);
  }

  /** The row is ready, the file is there, and an empty file left the row's old size in place. */
  ghost predicate JustReady(slot: Slot, before: Row, data: Bytes) {
    IsReady(slot) && slot.final == Some(data) && slot.row.value.size == (if |data| > 0 then |data| else before.size)
  }

  // ---------------------------------------------------------------- the size of a ready image

  ghost predicate SizeIsRight(slot: Slot) {
    IsReady(slot) ==> slot.final.Some? && slot.row.value.size == |slot.final.value|
  }

  /** In every run a ready row has its file's size, exactly when the image cannot turn out empty. */
  lemma ReadySizeIsRightIff(cfg: Config, id: ImageId)
    requires cfg.sha.IsHex()
    ensures (forall run :: SizeIsRight(Exec(cfg, run).SlotOf(id))) <==> !RightFile(cfg, id, [])
  {
    ImageIsRightFile(cfg, id, []);
    if IsImage(cfg, id, []) {
      CanBecomeReady(cfg, [], id, 1, []);
      var run :| [] <= run && JustReady(Exec(cfg, run).SlotOf(id), RowToStart(Exec(cfg, []).SlotOf(id).row, 1), []);
      assert !SizeIsRight(Exec(cfg, run).SlotOf(id));
    } else {
      forall run
        ensures SizeIsRight(Exec(cfg, run).SlotOf(id))
      {
        ReadyImageIsWhole(cfg, run, id);
      }
    }
  }
}

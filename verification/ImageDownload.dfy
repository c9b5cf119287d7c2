/**
  One download attempt run without interference, in the imperative form of the source: it
  resumes or restarts the partial file, copies chunk by chunk while hashing, and publishes the
  final file. The interleaved protocol is in module Puller.
  */
module ImageDownload {
  import opened Common
  import opened ImageHash
  import opened Puller

  datatype Outcome = Failed | Interrupted | Done

  /** What the network does in one attempt. Chunk sizes are those of the copy buffer. */
  datatype Network = Network(answer: Answer, cutAfter: Option<nat>, chunk: nat)

  /** io.Copy from a file into the hasher. */
  method HashBytes(h: Sha, state: int, data: Bytes) returns (r: int)
    ensures r == Absorb(h, state, data)
  {
    r := state;
    for i := 0 to |data|
      invariant r == Absorb(h, state, data[..i])
    {
      assert data[..i + 1][..i] == data[..i];
      r := h.step(r, data[i]);
    }
    assert data[..|data|] == data;
  }

  /** The position in the body an attempt starts copying from. */
  function StartOf(slot: Slot, answer: Answer): nat {
    if answer.Partial? then TmpLen(slot) else 0
  }

  predicate Refused(answer: Answer) {
    answer.NoAnswer? || answer.OtherStatus?
  }

  /** The connection breaks before the end of a payload of this length is seen. */
  predicate CutsOff(net: Network, length: int) {
    net.cutAfter.Some? && net.cutAfter.value <= length
  }

  /** The magic number of qcow2, or for a body too short to have one the suffix of the URL. */
  predicate TakenAsItIs(body: Bytes, qcow2Url: bool) {
    if |body| >= 4 then body[0] == 0x51 && body[1] == 0x46 && body[2] == 0x49 && body[3] == 0xfb else qcow2Url
  }

  /** The image is in place and its row describes it. */
  ghost predicate IsDone(cfg: Config, id: ImageId, slot: Slot) {
    && slot.tmp.None? && slot.final.Some? && RightFile(cfg, id, slot.final.value)
    && (slot.row.Some? ==> slot.row.value == Row(Ready, |slot.final.value|, Digest(cfg.sha, slot.final.value)))
  }

  /** What an attempt that found `before` leaves behind. */
  ghost predicate AttemptResult(
    cfg: Config, id: ImageId, net: Network, converts: bool, before: Slot, after: Slot, outcome: Outcome) {
    var body, start := cfg.body(id), StartOf(before, net.answer);
    && (after.row.Some? <==> before.row.Some?)
    && (Refused(net.answer) ==> outcome == Failed && after.tmp == before.tmp && after.final == before.final)
    && (outcome == Interrupted <==> !Refused(net.answer) && CutsOff(net, |body| - start))
    && (outcome == Done <==>
          !Refused(net.answer) && !CutsOff(net, |body| - start) && (TakenAsItIs(body, cfg.qcow2Url(id)) || converts))
    && match outcome
       case Failed => after.row.Some? ==> after.row.value.status == Error
       case Interrupted =>
         && after.tmp == Some(body[..start + net.cutAfter.value])
         && after.final == before.final
         && (after.row.Some? ==> after.row.value.status == Downloading)
       case Done => IsDone(cfg, id, after)
  }

  // ---------------------------------------------------------------- runs of the goroutine

  function Steps(cfg: Config, id: ImageId, slot: Slot, phase: Phase, events: seq<Event>): (Slot, Phase) {
    if events == [] then (slot, phase)
    else
      var (s, p) := Steps(cfg, id, slot, phase, events[..|events| - 1]);
      Advance(cfg, id, s, p, events[|events| - 1])
  }

  /** The events lead the goroutine of module Puller from just past the lock to the given point. */
  ghost predicate LeadsTo(cfg: Config, id: ImageId, start: Slot, events: seq<Event>, slot: Slot, phase: Phase) {
    Steps(cfg, id, start, Locked, events) == (slot, phase)
  }

  ghost predicate Reaches(cfg: Config, id: ImageId, start: Slot, slot: Slot, phase: Phase) {
    exists events :: LeadsTo(cfg, id, start, events, slot, phase)
  }

  /** A set of points the goroutine may stand at. */
  type Points = (Slot, Phase) -> bool

  /** No step leads out of the set. */
  ghost predicate Closed(cfg: Config, id: ImageId, points: Points) {
    forall slot, phase, e :: points(slot, phase) ==>
        points(Advance(cfg, id, slot, phase, e).0, Advance(cfg, id, slot, phase, e).1)
  }

  ghost function ReachableFrom(cfg: Config, id: ImageId, start: Slot): Points {
    (slot, phase) => Reaches(cfg, id, start, slot, phase)
  }

  lemma StepsSnoc(cfg: Config, id: ImageId, start: Slot, events: seq<Event>, slot: Slot, phase: Phase, e: Event)
    requires LeadsTo(cfg, id, start, events, slot, phase)
    ensures
      var (slot', phase') := Advance(cfg, id, slot, phase, e);
      LeadsTo(cfg, id, start, events + [e], slot', phase')
  {
    assert (events + [e])[..|events|] == events;
  }

  /** What can be reached from the start is a closed set that holds it. */
  lemma ReachableIsClosed(cfg: Config, id: ImageId, start: Slot)
    ensures Closed(cfg, id, ReachableFrom(cfg, id, start))
    ensures ReachableFrom(cfg, id, start)(start, Locked)
  {
    assert LeadsTo(cfg, id, start, [], start, Locked);
    forall slot, phase, e | Reaches(cfg, id, start, slot, phase)
      ensures
        var (slot', phase') := Advance(cfg, id, slot, phase, e);
        Reaches(cfg, id, start, slot', phase')
    {
      var events :| LeadsTo(cfg, id, start, events, slot, phase);
      StepsSnoc(cfg, id, start, events, slot, phase, e);
    }
  }

  lemma OnwardTo(
    cfg: Config, id: ImageId, points: Points, slot: Slot, phase: Phase, e: Event, slot': Slot, phase': Phase)
    requires Closed(cfg, id, points) && points(slot, phase) && Advance(cfg, id, slot, phase, e) == (slot', phase')
    ensures points(slot', phase')
  {
  }

  lemma {:induction false} StepsKeepInv(cfg: Config, id: ImageId, slot: Slot, events: seq<Event>)
    requires cfg.sha.IsHex() && SlotInv(cfg, id, slot)
    ensures
      var (s, p) := Steps(cfg, id, slot, Locked, events);
      SlotInv(cfg, id, s) && PhaseInv(cfg, id, s, p)
  {
    if events != [] {
      StepsKeepInv(cfg, id, slot, events[..|events| - 1]);
      var (s, p) := Steps(cfg, id, slot, Locked, events[..|events| - 1]);
      AdvanceKeepsInv(cfg, id, s, p, events[|events| - 1]);
    }
  }

  lemma ReachedIsConsistent(cfg: Config, id: ImageId, start: Slot, slot: Slot, phase: Phase)
    requires cfg.sha.IsHex() && SlotInv(cfg, id, start) && Reaches(cfg, id, start, slot, phase)
    ensures SlotInv(cfg, id, slot) && PhaseInv(cfg, id, slot, phase)
  {
    var events :| LeadsTo(cfg, id, start, events, slot, phase);
    StepsKeepInv(cfg, id, start, events);
  }

  /** Preparing, the answer, the status write and opening the file, as one move. */
  lemma OpensAt(cfg: Config, id: ImageId, points: Points, start: Slot, answer: Answer, offset: nat, hash: int)
    requires Closed(cfg, id, points) && points(start, Locked)
    requires SlotInv(cfg, id, start) && (answer.Full? || (answer.Partial? && 0 < TmpLen(start) < |cfg.body(id)|))
    requires offset == StartOf(start, answer) <= |cfg.body(id)|
    requires hash == Absorb(cfg.sha, cfg.sha.init, cfg.body(id)[..offset])
    ensures
      var kept := if answer.Full? && TmpLen(start) > 0 then start.(tmp := None) else start;
      var marked := SetStatus(kept, Processing, 0, "");
      points(if offset > 0 then marked else marked.(tmp := Some([])), Copying(offset, hash, cfg.body(id)[offset..], 0))
  {
    var body := cfg.body(id);
    assert body[..0] == [] && body[0..] == body;
    if start.tmp.Some? {
      assert body[..|start.tmp.value|] == start.tmp.value;
    }
    var kept := if answer.Full? && TmpLen(start) > 0 then start.(tmp := None) else start;
    var marked := SetStatus(kept, Processing, 0, "");
    var h0 := if start.tmp.Some? then Absorb(cfg.sha, cfg.sha.init, start.tmp.value) else cfg.sha.init;
    var payload := body[offset..];
    OnwardTo(cfg, id, points, start, Locked, Prepare, start, Requesting(TmpLen(start), h0));
    OnwardTo(cfg, id, points, start, Requesting(TmpLen(start), h0), Reply(answer), kept,
        Answered(offset, hash, payload));
    OnwardTo(cfg, id, points, kept, Answered(offset, hash, payload), Mark, marked, Marked(offset, hash, payload));
    OnwardTo(cfg, id, points, marked, Marked(offset, hash, payload), Open,
             if offset > 0 then marked else marked.(tmp := Some([])), Copying(offset, hash, payload, 0));
  }

  lemma RefusalReached(cfg: Config, id: ImageId, points: Points, start: Slot, answer: Answer)
    requires Closed(cfg, id, points) && points(start, Locked) && Refused(answer)
    ensures points(SetStatus(start, Error, 0, ""), Leaving)
  {
    var h0 := if start.tmp.Some? then Absorb(cfg.sha, cfg.sha.init, start.tmp.value) else cfg.sha.init;
    OnwardTo(cfg, id, points, start, Locked, Prepare, start, Requesting(TmpLen(start), h0));
    OnwardTo(cfg, id, points, start, Requesting(TmpLen(start), h0), Reply(answer), SetStatus(start, Error, 0, ""),
        Leaving);
  }

  lemma ChunkReached(
    cfg: Config, id: ImageId, points: Points, slot: Slot, offset: nat, hash: int, payload: Bytes, written: nat, n: nat)
    requires Closed(cfg, id, points) && points(slot, Copying(offset, hash, payload, written))
    requires slot.tmp.Some? && written + n <= |payload|
    ensures
      var data := payload[written..written + n];
      points(slot.(tmp := Some(slot.tmp.value + data)),
          Copying(offset, Absorb(cfg.sha, hash, data), payload, written + n))
  {
    var data := payload[written..written + n];
    OnwardTo(cfg, id, points, slot, Copying(offset, hash, payload, written), Chunk(n),
             slot.(tmp := Some(slot.tmp.value + data)),
             Copying(offset, Absorb(cfg.sha, hash, data), payload, written + n));
  }

  lemma CutReached(
    cfg: Config, id: ImageId, points: Points, slot: Slot, offset: nat, hash: int, payload: Bytes, written: nat)
    requires Closed(cfg, id, points) && points(slot, Copying(offset, hash, payload, written))
    ensures points(SetStatus(slot, Downloading, 0, ""), Leaving)
    ensures written == |payload| ==> points(slot, Copied(offset + written, cfg.sha.finish(hash)))
  {
    OnwardTo(cfg, id, points, slot, Copying(offset, hash, payload, written), Cut, SetStatus(slot, Downloading, 0, ""),
        Leaving);
    if written == |payload| {
      OnwardTo(cfg, id, points, slot, Copying(offset, hash, payload, written), Eof, slot,
          Copied(offset + written, cfg.sha.finish(hash)));
    }
  }

  lemma RenameReached(cfg: Config, id: ImageId, points: Points, slot: Slot, total: nat, checksum: string)
    requires Closed(cfg, id, points) && points(slot, Copied(total, checksum))
    requires slot.tmp.Some? && !NeedsConvert(slot.tmp.value, cfg.qcow2Url(id))
    ensures points(slot.(final := slot.tmp, tmp := None), Placed(total, checksum))
  {
    var cleared := slot.(final := None);
    OnwardTo(cfg, id, points, slot, Copied(total, checksum), ClearFinal, cleared, Cleared(total, checksum));
    OnwardTo(cfg, id, points, cleared, Cleared(total, checksum), Rename, slot.(final := slot.tmp, tmp := None),
        Placed(total, checksum));
  }

  lemma ConversionReached(
    cfg: Config, id: ImageId, points: Points, slot: Slot, total: nat, checksum: string, data: Bytes)
    requires Closed(cfg, id, points) && points(slot, Copied(total, checksum))
    requires slot.tmp.Some? && NeedsConvert(slot.tmp.value, cfg.qcow2Url(id)) && cfg.isConversion(slot.tmp.value, data)
    ensures points(slot.(final := Some(data), tmp := None), Placed(|data|, Digest(cfg.sha, data)))
  {
    var cleared, converted := slot.(final := None), slot.(final := Some(data));
    OnwardTo(cfg, id, points, slot, Copied(total, checksum), ClearFinal, cleared, Cleared(total, checksum));
    OnwardTo(cfg, id, points, cleared, Cleared(total, checksum), ConvertDone(data), converted, Converted);
    OnwardTo(cfg, id, points, converted, Converted, DropTmp, converted.(tmp := None),
        Placed(|data|, Digest(cfg.sha, data)));
  }

  lemma ConversionFailureReached(cfg: Config, id: ImageId, points: Points, slot: Slot, total: nat, checksum: string)
    requires Closed(cfg, id, points) && points(slot, Copied(total, checksum))
    ensures points(SetStatus(slot.(final := None), Error, 0, ""), Leaving)
  {
    var cleared := slot.(final := None);
    OnwardTo(cfg, id, points, slot, Copied(total, checksum), ClearFinal, cleared, Cleared(total, checksum));
    OnwardTo(cfg, id, points, cleared, Cleared(total, checksum), ConvertFails, SetStatus(cleared, Error, 0, ""),
        Leaving);
  }

  lemma PublicationReached(cfg: Config, id: ImageId, points: Points, slot: Slot, size: nat, sum: string)
    requires Closed(cfg, id, points) && points(slot, Placed(size, sum))
    ensures points(slot.(row := if slot.row.Some? then Some(Row(Ready, size, sum)) else None), Leaving)
  {
    var published := SetStatus(slot, Ready, size, sum);
    OnwardTo(cfg, id, points, slot, Placed(size, sum), Publish, published, Published(size, sum));
    OnwardTo(cfg, id, points, published, Published(size, sum), Confirm,
             slot.(row := if slot.row.Some? then Some(Row(Ready, size, sum)) else None), Leaving);
  }

  class ImageFiles {
    var row: Option<Row>
    var tmp: Option<Bytes>
    var final: Option<Bytes>

    ghost function View(): Slot
      reads this
    {
      Slot(row, tmp, final)
    }

    constructor ()
      ensures View() == Slot(None, None, None)
    {
      row, tmp, final := None, None, None;
    }

    /** UpdateStatus: one UPDATE statement out of four. A zero size or an empty checksum is not written,
        so the row shows what was given exactly when nothing older stands in its place. */
    method UpdateStatus(status: Status, size: nat, checksum: string)
      modifies this`row
      ensures View() == SetStatus(old(View()), status, size, checksum)
      ensures row.Some? <==> old(row).Some?
      ensures row.Some? ==>
                (row.value == Row(status, size, checksum) <==>
                 (size > 0 || old(row).value.size == 0) && (checksum != "" || old(row).value.checksum == ""))
    {
      if row.None? {
        return;
      }
      if size > 0 && checksum != "" {
        row := Some(Row(status, size, checksum));
        return;
      }
      if size > 0 {
        row := Some(row.value.(status := status, size := size));
        return;
      }
      if checksum != "" {
        row := Some(row.value.(status := status, checksum := checksum));
        return;
      }
      row := Some(row.value.(status := status));
    }

    /** One write of the copy loop, to file and hasher. */
    method Write(
      cfg: Config, id: ImageId, offset: nat, hash0: int, payload: Bytes, written: nat, n: nat, ghost points: Points)
        returns (hash: int)
      requires Copies(cfg, id, View(), offset, hash0, payload, written) && written + n <= |payload|
      requires Closed(cfg, id, points) && points(View(), Copying(offset, hash0, payload, written))
      modifies this`tmp
      ensures Copies(cfg, id, View(), offset, hash, payload, written + n)
      ensures points(View(), Copying(offset, hash, payload, written + n))
    {
      ChunkReached(cfg, id, points, View(), offset, hash0, payload, written, n);
      ChunkKeepsStep(cfg, id, View(), offset, hash0, payload, written, n);
      var data := payload[written..written + n];
      tmp := Some(tmp.value + data);
      hash := HashBytes(cfg.sha, hash0, data);
    }

    /** Copies up to `limit` bytes of the payload. */
    method Copy(
      cfg: Config, id: ImageId, offset: nat, hash0: int, payload: Bytes, limit: nat, chunk: nat, ghost points: Points)
        returns (hash: int)
      requires Copies(cfg, id, View(), offset, hash0, payload, 0)
      requires Closed(cfg, id, points) && points(View(), Copying(offset, hash0, payload, 0))
      requires limit <= |payload| && chunk > 0
      modifies this`tmp
      ensures Copies(cfg, id, View(), offset, hash, payload, limit)
      ensures points(View(), Copying(offset, hash, payload, limit))
    {
      hash := hash0;
      var written := 0;
      while written < limit
        invariant written <= limit
        invariant Copies(cfg, id, View(), offset, hash, payload, written)
        invariant points(View(), Copying(offset, hash, payload, written))
      {
        var n := if written + chunk <= limit then chunk else limit - written;
        hash := Write(cfg, id, offset, hash, payload, written, n, points);
        written := written + n;
      }
    }

    /** Moves the complete partial file into place, converting it when it is not qcow2. */
    method Place(cfg: Config, id: ImageId, total: nat, checksum: string, converted: Option<Bytes>, ghost points: Points)
        returns (ok: bool, size: nat, sum: string)
      requires Complete(cfg, id, View(), total, checksum)
      requires Closed(cfg, id, points) && points(View(), Copied(total, checksum))
      requires converted.Some? ==> cfg.isConversion(cfg.body(id), converted.value)
      modifies this`tmp, this`final
      ensures ok <==> TakenAsItIs(cfg.body(id), cfg.qcow2Url(id)) || converted.Some?
      ensures ok ==> Describes(cfg, id, View(), size, sum) && tmp.None? && RightFile(cfg, id, final.value)
      ensures ok && !TakenAsItIs(cfg.body(id), cfg.qcow2Url(id)) ==> final == converted
      ensures !ok ==> tmp == old(tmp) && final.None?
      ensures ok ==> points(View(), Placed(size, sum))
    {
      ghost var copied := View();
      ConvertsUnlessMagic(cfg.body(id), cfg.qcow2Url(id));
      size, sum := total, checksum;
      final := None;
      if NeedsConvert(tmp.value, cfg.qcow2Url(id)) {
        if converted.None? {
          return false, size, sum;
        }
        final := converted;
        tmp := None;
        size := |final.value|;
        var state := HashBytes(cfg.sha, cfg.sha.init, final.value);
        sum := cfg.sha.finish(state);
        ConversionReached(cfg, id, points, copied, total, checksum, converted.value);
        assert View() == copied.(final := converted, tmp := None);
      } else {
        final := tmp;
        tmp := None;
        RenameReached(cfg, id, points, copied, total, checksum);
        assert View() == copied.(final := copied.tmp, tmp := None);
      }
      ok := true;
    }

    /** Picks up the partial file, or starts over when the whole body is sent, and opens it. */
    method Begin(cfg: Config, id: ImageId, answer: Answer, ghost points: Points) returns (offset: nat, hash: int)
      requires SlotInv(cfg, id, View()) && (answer.Full? || answer.Partial?)
      requires Closed(cfg, id, points) && points(View(), Locked)
      requires answer.Partial? ==> 0 < TmpLen(View()) < |cfg.body(id)|
      modifies this`row, this`tmp
      ensures offset == StartOf(old(View()), answer) <= |cfg.body(id)|
      ensures Copies(cfg, id, View(), offset, hash, cfg.body(id)[offset..], 0)
      ensures NotReady(View()) && (row.Some? <==> old(row.Some?))
      ensures points(View(), Copying(offset, hash, cfg.body(id)[offset..], 0))
    {
      ghost var body := cfg.body(id);
      offset, hash := 0, cfg.sha.init;
      if tmp.Some? && |tmp.value| > 0 {
        offset := |tmp.value|;
        hash := HashBytes(cfg.sha, hash, tmp.value);
        assert body[..offset] == tmp.value;
      }
      assert body[..0] == [];
      if offset > 0 && answer.Full? {
        tmp := None;
        offset, hash := 0, cfg.sha.init;
      }
      UpdateStatus(Processing, 0, "");
      if offset == 0 {
        tmp := Some([]);
      }
      OpensAt(cfg, id, points, old(View()), answer, offset, hash);
    }

    /** Marks the row ready, first by status update and then by a full update. */
    method Publish(cfg: Config, id: ImageId, size: nat, sum: string, ghost points: Points)
      requires Closed(cfg, id, points) && points(View(), Placed(size, sum))
      modifies this`row
      ensures row == if old(row).Some? then Some(Row(Ready, size, sum)) else None
      ensures points(View(), Leaving)
    {
      PublicationReached(cfg, id, points, View(), size, sum);
      UpdateStatus(Ready, size, sum);
      if row.Some? {
        row := Some(Row(Ready, size, sum));
      }
    }

    /** After the last byte: conversion or rename, then the row. */
    method Finish(
      cfg: Config, id: ImageId, total: nat, checksum: string, converted: Option<Bytes>, ghost points: Points)
        returns (outcome: Outcome)
      requires Closed(cfg, id, points) && Complete(cfg, id, View(), total, checksum)
          && points(View(), Copied(total, checksum))
      requires converted.Some? ==> cfg.isConversion(cfg.body(id), converted.value)
      modifies this
      ensures points(View(), Leaving)
      ensures row.Some? <==> old(row.Some?)
      ensures outcome == if TakenAsItIs(cfg.body(id), cfg.qcow2Url(id)) || converted.Some? then Done else Failed
      ensures outcome == Failed ==> (row.Some? ==> row.value.status == Error) && tmp == old(tmp) && final.None?
      ensures outcome == Done ==> IsDone(cfg, id, View())
    {
      ghost var received := View();
      ConversionFailureReached(cfg, id, points, received, total, checksum);
      var ok, size, sum := Place(cfg, id, total, checksum, converted, points);
      if !ok {
        assert View() == received.(final := None);
        UpdateStatus(Error, 0, "");
        return Failed;
      }
      Publish(cfg, id, size, sum, points);
      outcome := Done;
    }

    /** One attempt; it ends in every closed set of points it started in. */
    method Attempt(
      cfg: Config, id: ImageId, net: Network, converted: Option<Bytes>, ghost points: Points) returns (outcome: Outcome)
      requires SlotInv(cfg, id, View()) && net.chunk > 0
      requires Closed(cfg, id, points) && points(View(), Locked)
      requires net.answer.Partial? ==> 0 < TmpLen(View()) < |cfg.body(id)|
      requires converted.Some? ==> cfg.isConversion(cfg.body(id), converted.value)
      modifies this
      ensures points(View(), Leaving)
      ensures AttemptResult(cfg, id, net, converted.Some?, old(View()), View(), outcome)
    {
      if Refused(net.answer) {
        RefusalReached(cfg, id, points, View(), net.answer);
        UpdateStatus(Error, 0, "");
        return Failed;
      }
      var body := cfg.body(id);
      var offset, hash := Begin(cfg, id, net.answer, points);
      var payload := body[offset..];
      var cut := CutsOff(net, |payload|);
      var limit := if cut then net.cutAfter.value else |payload|;
      hash := Copy(cfg, id, offset, hash, payload, limit, net.chunk, points);
      CutReached(cfg, id, points, View(), offset, hash, payload, limit);
      if cut {
        UpdateStatus(Downloading, 0, "");
        outcome := Interrupted;
      } else {
        assert body[..|body|] == body;
        outcome := Finish(cfg, id, offset + limit, cfg.sha.finish(hash), converted, points);
      }
    }

    /** Any attempt is a run of the download goroutine, so it leaves the slot consistent; a cut-off
        leaves a prefix to resume from; a complete one leaves the whole image, whatever was in the
        partial file before. */
    method Download(cfg: Config, id: ImageId, net: Network, converted: Option<Bytes>) returns (outcome: Outcome)
      requires cfg.sha.IsHex() && SlotInv(cfg, id, View()) && net.chunk > 0
      requires net.answer.Partial? ==> 0 < TmpLen(View()) < |cfg.body(id)|
      requires converted.Some? ==> cfg.isConversion(cfg.body(id), converted.value)
      modifies this
      ensures Reaches(cfg, id, old(View()), View(), Leaving)
      ensures SlotInv(cfg, id, View())
      ensures AttemptResult(cfg, id, net, converted.Some?, old(View()), View(), outcome)
    {
      ghost var start := View();
      ReachableIsClosed(cfg, id, start);
      outcome := Attempt(cfg, id, net, converted, ReachableFrom(cfg, id, start));
      ReachedIsConsistent(cfg, id, start, View(), Leaving);
    }
  }
}

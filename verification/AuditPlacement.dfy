/** Where a write puts its record, and when it may rotate: only when the record does not fit behind what the active
    file already holds. */
module AuditPlacement {
  import opened Prelude
  import opened AuditEncoding
  import opened AuditStorage
  import opened AuditHistory
  import opened AuditLog
  import opened AuditRuns
  import AuditHealth
  import opened TokenBucket

  /** What a slot holds; an absent file holds nothing. */
  function Held(b: Option<Bytes>): Bytes { if b.Some? then b.value else [] }

  /** Archives and dropped records are as they were. */
  predicate ArchivesKept(d: Disk, d': Disk) {
    |d'.slots| == |d.slots| > 0 && d'.slots[1..] == d.slots[1..] && d'.dropped == d.dropped
  }

  // ----- A record that fits ------------------------------------------------

  lemma RoomAsItIs(o: Oracle, d: Disk, limits: Limits, size: nat)
    requires |d.slots| > 0 && d.Len(0) + size <= limits.maxFileBytes
    ensures MakeRoom(o, d, limits, size).0 == Tick(d)
  {}

  /** The active file after one commit: the record behind what was there, all of that and no more after a
      rollback, or a part of the record when the rollback failed as well. */
  lemma CommitPlaces(o: Oracle, s: Store, line: Bytes)
    requires Shaped(s) && |line| > 0 && !s.tailInvalid
    ensures var (s', r) := Commit(o, s, s.disk.Len(0), line);
            var was, now := Held(s.disk.slots[0]), Held(s'.disk.slots[0]);
            && ArchivesKept(s.disk, s'.disk)
            && (r.Ok? ==> now == was + line && s'.disk.landed == s.disk.landed + [line] && !s'.tailInvalid)
            && (r.Err? && !s'.tailInvalid ==> now == was && s'.disk.landed == s.disk.landed)
            && (s'.tailInvalid ==> s'.disk.step > 0 && o(s'.disk.step - 1).Fail? && PartAdded(was, line, now))
  {
    var (d0, ready) := OpenActive(o, s.disk);
    if ready.Ok? {
      var was := Held(s.disk.slots[0]);
      WriteRecordShape(o, d0, line);
      var (d, r) := WriteRecord(o, d0, line);
      hide WriteRecord;
      assert d0.slots[0].value == was && d0.slots[1..] == s.disk.slots[1..] && d.slots[1..] == s.disk.slots[1..];
      if r.Err? && r.error == WriteOp {
        var k :| 0 <= k < |line| && d.slots == d0.slots[0 := Some(was + line[..k])];
        assert PartAdded(was, line, was + line[..k]) && (was + line[..k])[..|was|] == was;
      } else {
        assert line[..|line|] == line && (was + line)[..|was|] == was;
        assert PartAdded(was, line, was + line);
      }
    }
  }

  predicate PartAdded(was: Bytes, line: Bytes, now: Bytes) {
    exists k :: 0 <= k <= |line| && now == was + line[..k]
  }

  /** On repaired files a record that fits is written behind what the active file holds, under every fault: no
      archive is touched and no record dropped. A failed write leaves the file as it was, unless its rollback
      failed too, and only then is the tail marked invalid. */
  lemma WriteInPlace(o: Oracle, s: Store, limits: Limits, line: Bytes)
    requires Shaped(s) && Clean(s) && |line| > 0 && s.disk.Len(0) + |line| <= limits.maxFileBytes
    ensures var (s', r) := WriteLine(o, s, limits, line);
            var was, now := Held(s.disk.slots[0]), Held(s'.disk.slots[0]);
            && ArchivesKept(s.disk, s'.disk)
            && (r.Ok? ==> now == was + line && s'.disk.landed == s.disk.landed + [line] && !s'.tailInvalid)
            && (r.Err? && !s'.tailInvalid ==> now == was && s'.disk.landed == s.disk.landed)
            && (s'.tailInvalid ==> s'.disk.step > 0 && o(s'.disk.step - 1).Fail? && PartAdded(was, line, now))
  {
    RoomAsItIs(o, s.disk, limits, |line|);
    if MakeRoom(o, s.disk, limits, |line|).1.Ok? { CommitPlaces(o, s.(disk := Tick(s.disk)), line); }
    hide MakeRoom, Commit;
  }

  /** Inspect, open, write, flush, sync: a write that fits succeeds exactly when all five steps do, and otherwise
      names the first that failed; the tail is invalid exactly when the record had been begun and the rollback,
      the next step, failed as well. */
  lemma WriteNamesItsFault(o: Oracle, s: Store, limits: Limits, line: Bytes)
    requires Shaped(s) && Clean(s) && |line| > 0 && s.disk.Len(0) + |line| <= limits.maxFileBytes
    ensures var (s', r) := WriteLine(o, s, limits, line); var n := s.disk.step;
            && (r == Err(Inspect) <==> o(n).Fail?)
            && (r == Err(OpenOp) <==> o(n).Pass? && o(n + 1).Fail?)
            && (r == Err(WriteOp) <==> o(n).Pass? && o(n + 1).Pass? && o(n + 2).Fail?)
            && (r == Err(FlushOp) <==> o(n).Pass? && o(n + 1).Pass? && o(n + 2).Pass? && o(n + 3).Fail?)
            && (r == Err(SyncOp) <==> o(n).Pass? && o(n + 1).Pass? && o(n + 2).Pass? && o(n + 3).Pass? && o(n + 4).Fail?)
            && (r.Ok? <==> o(n).Pass? && o(n + 1).Pass? && o(n + 2).Pass? && o(n + 3).Pass? && o(n + 4).Pass?)
            && (s'.tailInvalid <==>
                  || (r == Err(WriteOp) && o(n + 3).Fail?) || (r == Err(FlushOp) && o(n + 4).Fail?)
                  || (r == Err(SyncOp) && o(n + 5).Fail?))
  {
    RoomAsItIs(o, s.disk, limits, |line|);
    CommitNamesFault(o, s.(disk := Tick(s.disk)), line);
    var room := MakeRoom(o, s.disk, limits, |line|);
    assert room.1.Err? ==> room.1 == Err(Inspect);
    assert room.1.Ok? <==> o(s.disk.step).Pass?;
    hide MakeRoom, Commit;
  }

  lemma CommitNamesFault(o: Oracle, s: Store, line: Bytes)
    requires Shaped(s) && |line| > 0 && !s.tailInvalid
    ensures var (s', r) := Commit(o, s, s.disk.Len(0), line); var n := s.disk.step;
            && (r == Err(OpenOp) <==> o(n).Fail?)
            && (r == Err(WriteOp) <==> o(n).Pass? && o(n + 1).Fail?)
            && (r == Err(FlushOp) <==> o(n).Pass? && o(n + 1).Pass? && o(n + 2).Fail?)
            && (r == Err(SyncOp) <==> o(n).Pass? && o(n + 1).Pass? && o(n + 2).Pass? && o(n + 3).Fail?)
            && (r.Ok? <==> o(n).Pass? && o(n + 1).Pass? && o(n + 2).Pass? && o(n + 3).Pass?)
            && (s'.tailInvalid <==>
                  || (r == Err(WriteOp) && o(n + 2).Fail?) || (r == Err(FlushOp) && o(n + 3).Fail?)
                  || (r == Err(SyncOp) && o(n + 4).Fail?))
  {
    var d0 := OpenActive(o, s.disk).0;
    assert d0.step == s.disk.step + 1;
  }

  // ----- A record that does not fit ----------------------------------------

  /** Slots 0 up to `top` moved one up, the rest in place. */
  function Shifted(slots: seq<Option<Bytes>>, top: nat): seq<Option<Bytes>>
    requires top < |slots|
  {
    [None] + slots[..top] + slots[top + 1..]
  }

  lemma {:induction false} ShiftPlaces(o: Oracle, d: Disk, top: nat)
    requires top < |d.slots| && d.slots[top].None? && forall i :: 0 <= i < top ==> d.slots[i].Some?
    requires ShiftUp(o, d, top).1.Ok?
    ensures ShiftUp(o, d, top).0.slots == Shifted(d.slots, top)
    decreases top
  {
    if top > 0 {
      var d' := RenameUp(o, d, top - 1).0;
      var moved := d.slots[top := d.slots[top - 1]][top - 1 := None];
      assert d'.slots == moved;
      ShiftPlaces(o, d', top - 1);
      assert Shifted(moved, top - 1) == Shifted(d.slots, top);
    }
  }

  /** A rotation that succeeds moves the active file to the newest archive and each archive below the lowest free
      slot one up; only with no slot free is the oldest archive gone. */
  lemma RotationShifts(o: Oracle, d: Disk)
    requires |d.slots| > 1 && d.slots[0].Some? && Rotate(o, d).1.Ok?
    ensures var slots := Rotate(o, d).0.slots;
            if ArchivesFull(d) then slots == [None] + d.slots[..|d.slots| - 1]
            else exists top :: 1 <= top < |d.slots| && d.slots[top].None? && slots == Shifted(d.slots, top)
                               && forall i :: 1 <= i < top ==> d.slots[i].Some?
  {
    var (d1, free) := FindFree(o, d, 1);
    var last := |d.slots| - 1;
    if free.value.Some? {
      ShiftPlaces(o, d1, free.value.value);
    } else {
      var d2 := RemoveOldest(o, d1).0;
      assert d2.slots == d.slots[last := None];
      ShiftPlaces(o, d2, last);
      assert Shifted(d2.slots, last) == [None] + d.slots[..last];
    }
  }

  /** On repaired files a record that does not fit is written alone into a new active file, and what the active
      file held becomes the newest archive. */
  lemma WriteAfterRotation(o: Oracle, s: Store, limits: Limits, line: Bytes)
    requires Shaped(s) && Clean(s) && |line| > 0 && |s.disk.slots| > 1
    requires s.disk.Len(0) > 0 && s.disk.Len(0) + |line| > limits.maxFileBytes && WriteLine(o, s, limits, line).1.Ok?
    ensures var s' := WriteLine(o, s, limits, line).0;
            s'.disk.slots[0] == Some(line) && s'.disk.slots[1] == s.disk.slots[0]
  {
    var d1 := Tick(s.disk);
    RotationShifts(o, d1);
    var d := MakeRoom(o, s.disk, limits, |line|).0;
    assert d.slots == Rotate(o, d1).0.slots && d.slots[0].None? && d.slots[1] == s.disk.slots[0];
    CommitPlaces(o, s.(disk := d), line);
    hide MakeRoom, Rotate;
    var s' := WriteLine(o, s, limits, line).0;
    assert s'.disk.slots[1] == s'.disk.slots[1..][0] && [] + line == line;
    assert s'.disk.slots[0].Some? by { AuditHealth.CommitReaches(o, s.(disk := d), line); }
  }

  // ----- Runs that fit one file --------------------------------------------

  /** Everything is in the active file, and no more than `n` bytes of it. */
  predicate Compact(d: Disk, n: nat) {
    |d.slots| > 0 && d.dropped == [] && d.Len(0) <= n && forall i :: 1 <= i < |d.slots| ==> d.slots[i].None?
  }

  lemma NormalizeSlotCompact(o: Oracle, s: Store, limits: Limits, slot: nat, n: nat)
    requires Shaped(s) && slot < |s.retention| && Compact(s.disk, n) && n <= limits.maxFileBytes
    ensures Compact(NormalizeSlot(o, s, limits, slot).0.disk, n)
  {
    NormalizeSlotShape(o, s, limits, slot);
  }

  lemma {:induction false} NormalizeCompact(o: Oracle, s: Store, limits: Limits, slot: nat, n: nat)
    requires Shaped(s) && slot <= |s.retention| && Compact(s.disk, n) && n <= limits.maxFileBytes
    ensures Compact(NormalizeFrom(o, s, limits, slot).0.disk, n)
    decreases |s.retention| - slot
  {
    if slot < |s.retention| {
      NormalizeSlotCompact(o, s, limits, slot, n);
      var (s', r) := NormalizeSlot(o, s, limits, slot);
      if r.Ok? { NormalizeCompact(o, s', limits, slot + 1, n); }
    }
  }

  lemma ReadyCompact(o: Oracle, s: Store, limits: Limits, n: nat)
    requires Shaped(s) && Compact(s.disk, n) && n <= limits.maxFileBytes
    ensures Compact(Ready(o, s, limits).0.disk, n)
  {
    if !s.normalized || s.tailInvalid { NormalizeCompact(o, s, limits, 0, n); }
  }

  lemma CommitCompact(o: Oracle, s: Store, line: Bytes, n: nat)
    requires Shaped(s) && !s.tailInvalid && |line| > 0 && Compact(s.disk, n)
    ensures Compact(Commit(o, s, s.disk.Len(0), line).0.disk, n + |line|)
  {
    CommitPlaces(o, s, line);
    var d, d' := s.disk, Commit(o, s, s.disk.Len(0), line).0.disk;
    hide Commit;
    forall i | 1 <= i < |d'.slots| ensures d'.slots[i].None? { assert d'.slots[i] == d'.slots[1..][i - 1] == d.slots[i]; }
  }

  lemma WriteCompact(o: Oracle, s: Store, limits: Limits, line: Bytes, n: nat)
    requires Shaped(s) && |line| > 0 && Compact(s.disk, n) && n + |line| <= limits.maxFileBytes
    ensures Compact(WriteLine(o, s, limits, line).0.disk, n + |line|)
  {
    ReadyCompact(o, s, limits, n);
    var (s1, ready) := Ready(o, s, limits);
    if ready.Ok? {
      RoomAsItIs(o, s1.disk, limits, |line|);
      CommitCompact(o, s1.(disk := Tick(s1.disk)), line, n);
    }
    hide Ready, MakeRoom, Commit;
  }

  /** The bytes of one event's record. */
  function Size(ev: AuditEvent, limits: Limits): nat { |Record(ev, limits)| }

  lemma WriteEventCompact(o: Oracle, s: Store, limits: Limits, ev: AuditEvent, n: nat)
    requires Shaped(s) && Compact(s.disk, n) && n + Size(ev, limits) <= limits.maxFileBytes
    ensures Compact(WriteEvent(o, s, limits, ev).0.disk, n + Size(ev, limits))
  {
    var line := EncodeRecord(ev, limits);
    if line.Ok? { WriteCompact(o, s, limits, line.value, n); }
    hide WriteLine;
  }

  /** Bytes of the retention summaries a pass tries to write, from `slot` on. */
  function TriedNotices(o: Oracle, log: Log, limits: Limits, ts: I64, slot: nat): nat
    requires log.Formed() && slot <= |log.store.retention|
    decreases |log.store.retention| - slot
  {
    if slot == |log.store.retention| then 0
    else
      var n := log.store.retention[slot];
      var (l, r) := FlushNotice(o, log, limits, ts, slot);
      (if n.pending then Size(SummaryEvent(ts, RetentionDetail(slot, n)), limits) else 0)
      + if r.Ok? then TriedNotices(o, l, limits, ts, slot + 1) else 0
  }

  /** Bytes of all records one call tries to write, whether or not the write succeeds. */
  function TriedBy(o: Oracle, log: Log, limits: Limits, c: Call): nat
    requires log.Formed()
  {
    match c
    case AppendCall(ev, now) =>
      var idx := KindIndex(ev.kind);
      if idx.Some? && Take(log.buckets[idx.value], Rate(limits), now).1 then Size(ev, limits) else 0
    case MaintainCall(now, ts) =>
      if Due(log, limits, now) then TriedFlush(o, log.(lastMaintenance := Some(now)), limits, ts) else 0
  }

  function TriedFlush(o: Oracle, log: Log, limits: Limits, ts: I64): nat
    requires log.Formed()
  {
    var (s, ready) := Ready(o, log.store, limits);
    if ready.Err? then 0
    else
      var l0 := log.(store := s);
      var (l1, r1) := FlushNotices(o, l0, limits, ts, 0);
      TriedNotices(o, l0, limits, ts, 0)
      + if r1.Ok? && AnyPending(l1.pending) then Size(SummaryEvent(ts, CountsDetail(l1.pending)), limits) else 0
  }

  function Tried(o: Oracle, log: Log, limits: Limits, calls: seq<Call>): nat
    requires log.Formed()
    decreases |calls|
  {
    if calls == [] then 0
    else
      var n := |calls| - 1;
      Tried(o, log, limits, calls[..n]) + TriedBy(o, Run(o, log, limits, calls[..n]).0, limits, calls[n])
  }

  lemma NoticeCompact(o: Oracle, log: Log, limits: Limits, ts: I64, slot: nat, n: nat)
    requires log.Formed() && slot < |log.store.retention| && Compact(log.store.disk, n)
    requires var e := SummaryEvent(ts, RetentionDetail(slot, log.store.retention[slot]));
             log.store.retention[slot].pending ==> n + Size(e, limits) <= limits.maxFileBytes
    ensures var e := SummaryEvent(ts, RetentionDetail(slot, log.store.retention[slot]));
            Compact(FlushNotice(o, log, limits, ts, slot).0.store.disk,
                    n + if log.store.retention[slot].pending then Size(e, limits) else 0)
  {
    hide RetentionDetail, WriteEvent, Size;
    if log.store.retention[slot].pending {
      WriteEventCompact(o, log.store, limits, SummaryEvent(ts, RetentionDetail(slot, log.store.retention[slot])), n);
    }
  }

  lemma {:induction false} NoticesCompact(o: Oracle, log: Log, limits: Limits, ts: I64, slot: nat, n: nat)
    requires log.Formed() && slot <= |log.store.retention| && Compact(log.store.disk, n)
    requires n + TriedNotices(o, log, limits, ts, slot) <= limits.maxFileBytes
    ensures Compact(FlushNotices(o, log, limits, ts, slot).0.store.disk, n + TriedNotices(o, log, limits, ts, slot))
    decreases |log.store.retention| - slot
  {
    hide FlushNotice, RetentionDetail, Size;
    if slot < |log.store.retention| {
      var e := SummaryEvent(ts, RetentionDetail(slot, log.store.retention[slot]));
      NoticeCompact(o, log, limits, ts, slot, n);
      var (l, r) := FlushNotice(o, log, limits, ts, slot);
      if r.Ok? {
        NoticesCompact(o, l, limits, ts, slot + 1, n + if log.store.retention[slot].pending then Size(e, limits) else 0);
      }
    }
  }

  lemma FlushCompact(o: Oracle, log: Log, limits: Limits, ts: I64, n: nat)
    requires log.Formed() && Compact(log.store.disk, n) && n + TriedFlush(o, log, limits, ts) <= limits.maxFileBytes
    ensures Compact(FlushPending(o, log, limits, ts).0.store.disk, n + TriedFlush(o, log, limits, ts))
  {
    hide Size, CountsDetail, WriteEvent, Ready;
    ReadyCompact(o, log.store, limits, n);
    var (s, ready) := Ready(o, log.store, limits);
    if ready.Ok? {
      var l0 := log.(store := s);
      var m := n + TriedNotices(o, l0, limits, ts, 0);
      NoticesCompact(o, l0, limits, ts, 0, n);
      var (l1, r1) := FlushNotices(o, l0, limits, ts, 0);
      if r1.Ok? && AnyPending(l1.pending) {
        WriteEventCompact(o, l1.store, limits, SummaryEvent(ts, CountsDetail(l1.pending)), m);
      } else if r1.Ok? {
        OpenCompact(o, l1.store.disk, m);
      }
    }
  }

  lemma OpenCompact(o: Oracle, d: Disk, n: nat)
    requires Compact(d, n)
    ensures Compact(OpenActive(o, d).0, n)
  {}

  lemma StepCompact(o: Oracle, log: Log, limits: Limits, c: Call, n: nat)
    requires log.Formed() && Compact(log.store.disk, n) && n + TriedBy(o, log, limits, c) <= limits.maxFileBytes
    ensures Compact(Step(o, log, limits, c).0.store.disk, n + TriedBy(o, log, limits, c))
  {
    hide WriteEvent, Size, Take, FlushPending, TriedFlush;
    match c
    case AppendCall(ev, now) =>
      if TriedBy(o, log, limits, c) == Size(ev, limits) { WriteEventCompact(o, log.store, limits, ev, n); }
    case MaintainCall(now, ts) =>
      if Due(log, limits, now) { FlushCompact(o, log.(lastMaintenance := Some(now)), limits, ts, n); }
  }

  /** In every run from empty files, whatever fails: as long as all records the run tried to write would fit one
      file, no archive exists and no record has been dropped. */
  lemma {:induction false} FittingRunNeverRotates(o: Oracle, limits: Limits, start: Duration, calls: seq<Call>)
    requires Tried(o, FromEmpty(limits, start), limits, calls) <= limits.maxFileBytes
    ensures var d := After(o, limits, start, calls).store.disk;
            Compact(d, Tried(o, FromEmpty(limits, start), limits, calls))
    decreases |calls|
  {
    if calls != [] {
      var n := |calls| - 1;
      FittingRunNeverRotates(o, limits, start, calls[..n]);
      hide Step, TriedBy;
      StepCompact(o, After(o, limits, start, calls[..n]), limits, calls[n], Tried(o, FromEmpty(limits, start), limits, calls[..n]));
    }
  }
}

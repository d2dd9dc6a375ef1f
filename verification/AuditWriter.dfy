/** The audit log as the object that mutates its writer state, its health and the managed files. Each method ends
    in the state, and returns the result, that the value model of the same operation gives. */
module AuditWriter {
  import opened Prelude
  import opened AuditEncoding
  import opened AuditStorage
  import opened AuditLog
  import opened TokenBucket

  const TAIL_SCAN_CHUNK: nat := 4096

  class LogWriter {
    const limits: Limits
    const oracle: Oracle
    var disk: Disk
    var normalized: bool
    var tailInvalid: bool
    var retention: seq<Notice>
    var buckets: seq<Bucket>
    var pending: seq<KindCounts>
    var lastMaintenance: Option<Duration>
    var health: Health
    ghost var confirmed: seq<Confirmation>

    ghost function StoreView(): Store
      reads this
    {
      Store(disk, normalized, tailInvalid, retention)
    }

    ghost function View(): Log
      reads this
    {
      Log(StoreView(), buckets, pending, lastMaintenance, health, confirmed)
    }

    ghost predicate Valid()
      reads this
    {
      View().Formed()
    }

    /** A log over existing files; nothing is opened yet. */
    constructor (limits: Limits, oracle: Oracle, files: Disk, now: Duration)
      requires |files.slots| == |files.cut| == limits.archives + 1
      ensures Valid() && this.limits == limits && this.oracle == oracle
      ensures View() == NewLog(limits, Store(files, false, false, seq(limits.archives + 1, _ => NO_NOTICE)), now)
    {
      this.limits, this.oracle, disk := limits, oracle, files;
      normalized, tailInvalid := false, false;
      retention := seq(limits.archives + 1, _ => NO_NOTICE);
      var full := Bucket(limits.burst * 1000, now);
      buckets := [full, full, full, full, full, full];
      pending := NO_PENDING;
      lastMaintenance, health, confirmed := None, Health(None, 0, None), [];
    }

    // ----- Files -----------------------------------------------------------

    method Cut(slot: nat, keep: nat, reset: bool) returns (r: Result<(), AuditOp>)
      requires Shaped(StoreView()) && slot < |retention| && keep <= disk.Len(slot)
      modifies this`disk, this`retention
      ensures (StoreView(), r) == CutSlot(oracle, old(StoreView()), slot, keep, reset)
    {
      var gone := disk.Len(slot) - keep;
      var (d, cut) := TruncateTo(oracle, disk, slot, keep);
      disk := d;
      if cut.Err? { return cut; }
      disk := disk.(cut := disk.cut[slot := disk.cut[slot] + gone]);
      retention := retention[slot := Noticed(retention[slot], gone, reset)];
      var (d', synced) := Sync(oracle, disk, Truncate);
      disk := d';
      return synced;
    }

    method NormalizeOne(slot: nat) returns (r: Result<(), AuditOp>)
      requires Shaped(StoreView()) && slot < |retention|
      modifies this`disk, this`retention
      ensures (StoreView(), r) == NormalizeSlot(oracle, old(StoreView()), limits, slot)
    {
      var (d, len) := FileLen(oracle, disk, slot);
      disk := d;
      if len.Err? { return Err(len.error); }
      if len.value.None? { return Ok(()); }
      if len.value.value > limits.maxFileBytes {
        r := Cut(slot, 0, true);
      } else if slot == 0 && len.value.value > 0 {
        var unreadable := oracle(disk.step).Fail?;
        disk := Tick(disk);
        if unreadable { return Err(Inspect); }
        var keep := CompletePrefixLen(disk.slots[0].value, TAIL_SCAN_CHUNK);
        r := Ok(());
        if keep < len.value.value { r := Cut(0, keep, false); }
      } else {
        r := Ok(());
      }
    }

    method Normalize() returns (r: Result<(), AuditOp>)
      requires Shaped(StoreView())
      modifies this`disk, this`retention, this`normalized, this`tailInvalid
      ensures (StoreView(), r) == NormalizeFrom(oracle, old(StoreView()), limits, 0)
    {
      hide NormalizeSlot;
      var slot := 0;
      while slot < |retention|
        invariant slot <= |retention| && Shaped(StoreView())
        invariant NormalizeFrom(oracle, StoreView(), limits, slot) == NormalizeFrom(oracle, old(StoreView()), limits, 0)
        decreases |retention| - slot
      {
        r := NormalizeOne(slot);
        if r.Err? { return; }
        slot := slot + 1;
      }
      normalized, tailInvalid := true, false;
      return Ok(());
    }

    method EnsureReady() returns (r: Result<(), AuditOp>)
      requires Shaped(StoreView())
      modifies this`disk, this`retention, this`normalized, this`tailInvalid
      ensures (StoreView(), r) == Ready(oracle, old(StoreView()), limits)
    {
      r := Ok(());
      if !normalized || tailInvalid { r := Normalize(); }
    }

    method LowestFree() returns (r: Result<Option<nat>, AuditOp>)
      requires |disk.slots| > 0
      modifies this`disk
      ensures (disk, r) == FindFree(oracle, old(disk), 1)
    {
      var slot := 1;
      while slot < |disk.slots|
        invariant 1 <= slot <= |disk.slots|
        invariant FindFree(oracle, disk, slot) == FindFree(oracle, old(disk), 1)
        decreases |disk.slots| - slot
      {
        var (d, len) := FileLen(oracle, disk, slot);
        disk := d;
        if len.Err? { return Err(len.error); }
        if len.value.None? { return Ok(Some(slot)); }
        slot := slot + 1;
      }
      return Ok(None);
    }

    method Shift(top: nat) returns (r: Result<(), AuditOp>)
      requires top < |disk.slots|
      modifies this`disk
      ensures (disk, r) == ShiftUp(oracle, old(disk), top)
    {
      var slot := top;
      while slot > 0
        invariant 0 <= slot < |disk.slots|
        invariant ShiftUp(oracle, disk, slot) == ShiftUp(oracle, old(disk), top)
      {
        slot := slot - 1;
        var (d, moved) := RenameUp(oracle, disk, slot);
        disk := d;
        if moved.Err? { return moved; }
      }
      return Ok(());
    }

    method RotateFiles() returns (r: Result<(), AuditOp>)
      requires |disk.slots| > 0
      modifies this`disk
      ensures (disk, r) == Rotate(oracle, old(disk))
    {
      if |disk.slots| == 1 {
        var gone := SlotLines(disk.slots[0]);
        var (d, cut) := TruncateTo(oracle, disk, 0, 0);
        disk := d;
        if cut.Err? { return cut; }
        disk := disk.(dropped := disk.dropped + gone);
        var (d', synced) := Sync(oracle, disk, Truncate);
        disk := d';
        return synced;
      }
      var free := LowestFree();
      if free.Err? { return Err(free.error); }
      var top := |disk.slots| - 1;
      if free.value.Some? {
        top := free.value.value;
      } else {
        var (d, removed) := RemoveOldest(oracle, disk);
        disk := d;
        if removed.Err? { return removed; }
      }
      r := Shift(top);
    }

    /** Rotate if a record of `size` bytes would overflow the active file; its length before the write. */
    method Reserve(size: nat) returns (r: Result<nat, AuditOp>)
      requires |disk.slots| > 0
      modifies this`disk
      ensures (disk, r) == MakeRoom(oracle, old(disk), limits, size)
    {
      var (d, len) := FileLen(oracle, disk, 0);
      disk := d;
      if len.Err? { return Err(len.error); }
      var pre := if len.value.Some? then len.value.value else 0;
      if pre > 0 && pre + size > limits.maxFileBytes {
        var rotated := RotateFiles();
        if rotated.Err? { return Err(rotated.error); }
        var (d', len') := FileLen(oracle, disk, 0);
        disk := d';
        if len'.Err? { return Err(len'.error); }
        pre := if len'.value.Some? then len'.value.value else 0;
        if pre > 0 { return Err(RotateOp); }
      }
      return Ok(pre);
    }

    method CommitLine(pre: nat, line: Bytes) returns (r: Result<(), AuditOp>)
      requires Shaped(StoreView()) && |line| > 0 && pre == disk.Len(0)
      modifies this`disk, this`tailInvalid
      ensures (StoreView(), r) == Commit(oracle, old(StoreView()), pre, line)
    {
      var (d0, ready) := OpenActive(oracle, disk);
      disk := d0;
      if ready.Err? { return ready; }
      var (d, written) := WriteRecord(oracle, disk, line);
      disk, r := d, written;
      if written.Ok? {
        disk := disk.(landed := disk.landed + [line]);
      } else {
        var stuck := oracle(disk.step).Fail?;
        disk := Tick(disk);
        if stuck {
          tailInvalid := true;
          if written.error != WriteOp { disk := disk.(landed := disk.landed + [line]); }
        } else {
          disk := disk.Put(0, Some(disk.slots[0].value[..pre]));
        }
      }
    }

    /** The write transaction. */
    method Write(line: Bytes) returns (r: Result<(), AuditOp>)
      requires Shaped(StoreView()) && |line| > 0
      modifies this`disk, this`retention, this`normalized, this`tailInvalid
      ensures (StoreView(), r) == WriteLine(oracle, old(StoreView()), limits, line)
    {
      hide Commit, MakeRoom, Ready;
      r := EnsureReady();
      if r.Err? { return; }
      var pre := Reserve(|line|);
      if pre.Err? { return Err(pre.error); }
      r := CommitLine(pre.value, line);
    }

    method EncodeAndWrite(ev: AuditEvent) returns (r: Result<Bytes, AuditOp>)
      requires Shaped(StoreView())
      modifies this`disk, this`retention, this`normalized, this`tailInvalid
      ensures (StoreView(), r) == WriteEvent(oracle, old(StoreView()), limits, ev)
    {
      var line := EncodeRecordLoop(ev, limits);
      if line.Err? { return Err(Encode); }
      var w := Write(line.value);
      return if w.Ok? then Ok(line.value) else Err(w.error);
    }

    // ----- Appends ---------------------------------------------------------

    method TakeToken(idx: nat, now: Duration) returns (ok: bool)
      requires Valid() && idx < 6
      modifies this`buckets
      ensures var (b, admitted) := Take(old(buckets)[idx], Rate(limits), now);
              ok == admitted && buckets == old(buckets)[idx := b]
    {
      var full: U64, rate := limits.burst * 1000, limits.refillPerSec;
      var b := buckets[idx];
      var elapsed: nat := if now <= b.lastRefill then 0 else now - b.lastRefill;
      var earned := Min(U128_MAX, elapsed * rate) / MILLI;
      assert earned == Earned(b, rate, now);
      var milli := Min(SatAddU64(Min(U64_MAX, earned), b.milliTokens), full);
      var mark: Duration;
      if milli == full || rate == 0 {
        mark := Max(b.lastRefill, now);
      } else {
        // Advance only by the time actually converted into tokens.
        ghost var converted := Converted(b, rate, now);
        var used := Min(U64_MAX, earned * MILLI / rate);
        assert used == Min(U64_MAX, converted);
        mark := b.lastRefill + used;
      }
      ok := milli >= 1000;
      if ok { milli := milli - 1000; }
      buckets := buckets[idx := Bucket(milli, mark)];
    }

    method Fail(idx: nat, ts: I64, op: AuditOp, now: Duration)
      requires Valid() && idx < 6
      modifies this`pending, this`health
      ensures View() == FailAppend(old(View()), idx, ts, op, now)
    {
      pending := pending[idx := AddFailed(pending[idx], ts)];
      health := NoteFailure(health, op, now, 1);
    }

    method Append(ev: AuditEvent, now: Duration) returns (out: Outcome)
      requires Valid()
      modifies this
      ensures Valid() && (View(), out) == AppendEvent(oracle, old(View()), limits, ev, now)
    {
      hide WriteEvent;
      var kind := KindIndex(ev.kind);
      if kind.None? { return Failed(Validate); }
      var idx := kind.value;
      var ok := TakeToken(idx, now);
      if !ok {
        if health.failedSince.Some? {
          Fail(idx, ev.ts, Unavailable, now);
          return Failed(Unavailable);
        }
        pending := pending[idx := AddCoalesced(pending[idx], ev.ts)];
        return Coalesced;
      }
      var w := EncodeAndWrite(ev);
      if w.Ok? { return Recorded; }
      Fail(idx, ev.ts, w.error, now);
      return Failed(w.error);
    }

    // ----- Maintenance -----------------------------------------------------

    method ReportCut(slot: nat, ts: I64) returns (r: Result<(), AuditOp>, wrote: bool)
      requires Valid() && slot < |retention|
      modifies this
      ensures |confirmed| == |old(confirmed)| + if wrote then 1 else 0
      ensures Valid() && (View(), r) == FlushNotice(oracle, old(View()), limits, ts, slot)
    {
      hide WriteEvent, RetentionDetail;
      var notice := retention[slot];
      if !notice.pending { return Ok(()), false; }
      var w := EncodeAndWrite(SummaryEvent(ts, RetentionDetail(slot, notice)));
      if w.Err? { return Err(w.error), false; }
      retention := retention[slot := NO_NOTICE];
      confirmed := confirmed + [CutReported(slot, notice, ts, w.value)];
      return Ok(()), true;
    }

    method ReportCuts(ts: I64) returns (r: Result<(), AuditOp>, wrote: bool)
      requires Valid()
      modifies this
      ensures if wrote then |confirmed| > |old(confirmed)| else |confirmed| == |old(confirmed)|
      ensures Valid() && (View(), r) == FlushNotices(oracle, old(View()), limits, ts, 0)
    {
      hide FlushNotice;
      var slot := 0;
      wrote := false;
      while slot < |retention|
        invariant if wrote then |confirmed| > |old(confirmed)| else |confirmed| == |old(confirmed)|
        invariant Valid() && slot <= |retention|
        invariant FlushNotices(oracle, View(), limits, ts, slot) == FlushNotices(oracle, old(View()), limits, ts, 0)
        decreases |retention| - slot
      {
        var reported;
        r, reported := ReportCut(slot, ts);
        wrote := wrote || reported;
        if r.Err? { return; }
        slot := slot + 1;
      }
      r := Ok(());
    }

    method ReportCounts(ts: I64) returns (r: Result<(), AuditOp>, wrote: bool)
      requires Valid()
      modifies this
      ensures |confirmed| == |old(confirmed)| + if wrote then 1 else 0
      ensures Valid() && (View(), r) == FlushCounts(oracle, old(View()), limits, ts)
    {
      hide WriteEvent, CountsDetail;
      if !AnyPending(pending) { return Ok(()), false; }
      var w := EncodeAndWrite(SummaryEvent(ts, CountsDetail(pending)));
      if w.Err? { return Err(w.error), false; }
      confirmed := confirmed + [CountsReported(pending, ts, w.value)];
      pending := NO_PENDING;
      return Ok(()), true;
    }

    /** Report everything pending; with nothing to report, probe the active file. */
    method Report(ts: I64) returns (r: Result<(), AuditOp>)
      requires Valid()
      modifies this
      ensures Valid() && (View(), r) == ReportAll(oracle, old(View()), limits, ts)
    {
      hide FlushCounts, FlushNotices;
      var wroteCuts, wroteCounts;
      r, wroteCuts := ReportCuts(ts);
      if r.Err? { return; }
      r, wroteCounts := ReportCounts(ts);
      if r.Err? { return; }
      if !wroteCuts && !wroteCounts {
        var (d, reachable) := OpenActive(oracle, disk);
        disk, r := d, reachable;
      }
    }

    method Flush(ts: I64) returns (r: Result<(), AuditOp>)
      requires Valid()
      modifies this
      ensures Valid() && (View(), r) == FlushPending(oracle, old(View()), limits, ts)
    {
      r := EnsureReady();
      if r.Ok? { r := Report(ts); }
    }

    method Recover(now: Duration)
      modifies this`health
      ensures health == MaybeRecover(old(health), limits, now)
    {
      if health.failedSince.Some? && Since(now, health.failedSince.value) >= limits.maintenanceInterval {
        health := health.(failedSince := None);
      }
    }

    method Maintain(now: Duration, ts: I64) returns (out: Outcome)
      requires Valid()
      modifies this
      ensures Valid() && (View(), out) == MaintainLog(oracle, old(View()), limits, now, ts)
    {
      hide FlushPending;
      if health.failedSince.None? && !AnyPending(pending) && !AnyNotice(retention) && !tailInvalid { return Maintained; }
      if lastMaintenance.Some?
         && Since(now, lastMaintenance.value) < Since(limits.maintenanceInterval, MAINTENANCE_SLACK) {
        return Maintained;
      }
      lastMaintenance := Some(now);
      var r := Flush(ts);
      if r.Ok? {
        Recover(now);
        return Maintained;
      }
      health := NoteFailure(health, r.error, now, 0);
      return Failed(r.error);
    }
  }
}

/** What the audit log does once storage works again: every write and every due maintenance pass succeeds, and the
    failure episode ends. */
module AuditProgress {
  import opened Prelude
  import opened AuditEncoding
  import opened AuditStorage
  import opened AuditHistory
  import opened AuditLog
  import opened AuditRuns
  import opened AuditHealth
  import opened TokenBucket

  /** No storage step from the `n`-th on fails. */
  ghost predicate CalmFrom(o: Oracle, n: nat) { forall k: nat :: k >= n ==> o(k) == Pass }

  /** Every event fits a record. */
  ghost predicate Encodes(limits: Limits) { forall ev :: EncodeRecord(ev, limits).Ok? }

  lemma ProductionEncodes()
    ensures Encodes(PRODUCTION)
  {
    forall ev ensures EncodeRecord(ev, PRODUCTION).Ok? { FirstPassFits(ev); }
  }

  // ----- Repair ------------------------------------------------------------

  lemma CalmCut(o: Oracle, s: Store, slot: nat, keep: nat, reset: bool)
    requires Shaped(s) && slot < |s.retention| && s.disk.slots[slot].Some? && keep <= s.disk.Len(slot) && CalmFrom(o, s.disk.step)
    ensures var (s', r) := CutSlot(o, s, slot, keep, reset); r.Ok? && s.disk.step <= s'.disk.step
  {
    assert o(s.disk.step) == Pass && o(s.disk.step + 1) == Pass;
  }

  lemma CalmNormalizeSlot(o: Oracle, s: Store, limits: Limits, slot: nat)
    requires Shaped(s) && slot < |s.retention| && CalmFrom(o, s.disk.step)
    ensures var (s', r) := NormalizeSlot(o, s, limits, slot); r.Ok? && s.disk.step <= s'.disk.step
  {
    assert o(s.disk.step) == Pass && o(s.disk.step + 1) == Pass;
    var s1 := s.(disk := Tick(s.disk));
    if s.disk.slots[slot].Some? {
      CalmCut(o, s1, slot, 0, true);
      if slot == 0 {
        CalmCut(o, s1.(disk := Tick(s1.disk)), 0, CompleteLen(s.disk.slots[0].value), false);
      }
    }
  }

  lemma {:induction false} CalmNormalize(o: Oracle, s: Store, limits: Limits, slot: nat)
    requires Shaped(s) && slot <= |s.retention| && CalmFrom(o, s.disk.step)
    ensures var (s', r) := NormalizeFrom(o, s, limits, slot); r.Ok? && s.disk.step <= s'.disk.step
    decreases |s.retention| - slot
  {
    if slot < |s.retention| {
      CalmNormalizeSlot(o, s, limits, slot);
      CalmNormalize(o, NormalizeSlot(o, s, limits, slot).0, limits, slot + 1);
    }
  }

  lemma CalmReady(o: Oracle, s: Store, limits: Limits)
    requires Shaped(s) && CalmFrom(o, s.disk.step)
    ensures var (s', r) := Ready(o, s, limits); r.Ok? && s.disk.step <= s'.disk.step
  {
    if !s.normalized || s.tailInvalid { CalmNormalize(o, s, limits, 0); }
  }

  // ----- Rotation ----------------------------------------------------------

  lemma {:induction false} CalmFindFree(o: Oracle, d: Disk, slot: nat)
    requires slot <= |d.slots| && CalmFrom(o, d.step)
    ensures FindFree(o, d, slot).1.Ok?
    decreases |d.slots| - slot
  {
    if slot < |d.slots| { CalmFindFree(o, Tick(d), slot + 1); }
  }

  lemma {:induction false} CalmShift(o: Oracle, d: Disk, top: nat)
    requires top < |d.slots| && CalmFrom(o, d.step)
    ensures var (d', r) := ShiftUp(o, d, top); r.Ok? && (top > 0 ==> d'.slots[0].None?)
    decreases top
  {
    if top > 0 {
      assert o(d.step) == Pass;
      CalmShift(o, RenameUp(o, d, top - 1).0, top - 1);
    }
  }

  /** Rotation without faults succeeds and leaves the active slot empty, whatever the archives. */
  lemma CalmRotate(o: Oracle, d: Disk)
    requires |d.slots| > 0 && d.slots[0].Some? && CalmFrom(o, d.step)
    ensures var (d', r) := Rotate(o, d); r.Ok? && d'.Len(0) == 0 && d.step <= d'.step
  {
    if |d.slots| == 1 {
      assert o(d.step) == Pass && o(d.step + 1) == Pass;
    } else {
      CalmFindFree(o, d, 1);
      FindFreeGrows(o, d, 1);
      var (d1, free) := FindFree(o, d, 1);
      if free.value.Some? {
        CalmShift(o, d1, free.value.value);
        ShiftMoves(o, d1, free.value.value);
      } else {
        CalmRemove(o, d1);
        var d2 := RemoveOldest(o, d1).0;
        CalmShift(o, d2, |d.slots| - 1);
        ShiftMoves(o, d2, |d.slots| - 1);
      }
    }
  }

  lemma CalmRemove(o: Oracle, d: Disk)
    requires |d.slots| > 0 && CalmFrom(o, d.step)
    ensures var (d', r) := RemoveOldest(o, d); r.Ok? && d'.step == d.step + 1
  {
    assert o(d.step) == Pass;
  }

  // ----- Writing -----------------------------------------------------------

  lemma CalmMakeRoom(o: Oracle, d: Disk, limits: Limits, size: nat)
    requires |d.slots| > 0 && CalmFrom(o, d.step)
    ensures var (d', r) := MakeRoom(o, d, limits, size); r.Ok? && d.step <= d'.step
  {
    assert o(d.step) == Pass;
    if d.Len(0) > 0 {
      CalmRotate(o, Tick(d));
      assert o(Rotate(o, Tick(d)).0.step) == Pass;
    }
  }

  lemma CalmCommit(o: Oracle, s: Store, line: Bytes)
    requires Shaped(s) && |line| > 0 && CalmFrom(o, s.disk.step)
    ensures var (s', r) := Commit(o, s, s.disk.Len(0), line); r.Ok? && s.disk.step <= s'.disk.step
  {
    var n := s.disk.step;
    assert o(n) == Pass && o(n + 1) == Pass && o(n + 2) == Pass && o(n + 3) == Pass;
  }

  lemma CalmWrite(o: Oracle, s: Store, limits: Limits, line: Bytes)
    requires Shaped(s) && |line| > 0 && CalmFrom(o, s.disk.step)
    ensures var (s', r) := WriteLine(o, s, limits, line); r.Ok? && s.disk.step <= s'.disk.step
  {
    CalmReady(o, s, limits);
    var s1 := Ready(o, s, limits).0;
    CalmMakeRoom(o, s1.disk, limits, |line|);
    CalmCommit(o, s1.(disk := MakeRoom(o, s1.disk, limits, |line|).0), line);
  }

  lemma CalmWriteEvent(o: Oracle, s: Store, limits: Limits, ev: AuditEvent)
    requires Shaped(s) && CalmFrom(o, s.disk.step) && Encodes(limits)
    ensures var (s', w) := WriteEvent(o, s, limits, ev); w.Ok? && s.disk.step <= s'.disk.step
  {
    CalmWrite(o, s, limits, EncodeRecord(ev, limits).value);
  }

  // ----- Calls -------------------------------------------------------------

  lemma CalmNotice(o: Oracle, log: Log, limits: Limits, ts: I64, slot: nat)
    requires log.Formed() && slot < |log.store.retention| && CalmFrom(o, log.store.disk.step) && Encodes(limits)
    ensures var (l, r) := FlushNotice(o, log, limits, ts, slot); r.Ok? && log.store.disk.step <= l.store.disk.step
  {
    hide WriteEvent, RetentionDetail, CountsDetail;
    CalmWriteEvent(o, log.store, limits, SummaryEvent(ts, RetentionDetail(slot, log.store.retention[slot])));
  }

  lemma {:induction false} CalmNotices(o: Oracle, log: Log, limits: Limits, ts: I64, slot: nat)
    requires log.Formed() && slot <= |log.store.retention| && CalmFrom(o, log.store.disk.step) && Encodes(limits)
    ensures var (l, r) := FlushNotices(o, log, limits, ts, slot); r.Ok? && log.store.disk.step <= l.store.disk.step
    decreases |log.store.retention| - slot
  {
    hide FlushNotice;
    if slot < |log.store.retention| {
      CalmNotice(o, log, limits, ts, slot);
      CalmNotices(o, FlushNotice(o, log, limits, ts, slot).0, limits, ts, slot + 1);
    }
  }

  lemma CalmCounts(o: Oracle, log: Log, limits: Limits, ts: I64)
    requires log.Formed() && CalmFrom(o, log.store.disk.step) && Encodes(limits)
    ensures var (l, r) := FlushCounts(o, log, limits, ts); r.Ok? && log.store.disk.step <= l.store.disk.step
  {
    hide WriteEvent, RetentionDetail, CountsDetail;
    CalmWriteEvent(o, log.store, limits, SummaryEvent(ts, CountsDetail(log.pending)));
  }

  lemma CalmFlush(o: Oracle, log: Log, limits: Limits, ts: I64)
    requires log.Formed() && CalmFrom(o, log.store.disk.step) && Encodes(limits)
    ensures FlushPending(o, log, limits, ts).1.Ok?
  {
    hide FlushCounts, Ready;
    CalmReady(o, log.store, limits);
    var l0 := log.(store := Ready(o, log.store, limits).0);
    CalmNotices(o, l0, limits, ts, 0);
    var l1 := FlushNotices(o, l0, limits, ts, 0).0;
    CalmCounts(o, l1, limits, ts);
    assert o(FlushCounts(o, l1, limits, ts).0.store.disk.step) == Pass;
  }

  /** Once no storage step fails any more, a due maintenance call succeeds from every state of log and files: the
      files are repaired, the active file is open again, every count and notice is reported, and a failure
      episode ends exactly when it has lasted an interval. */
  lemma CalmPassSucceeds(o: Oracle, log: Log, limits: Limits, now: Duration, ts: I64)
    requires log.Formed() && CalmFrom(o, log.store.disk.step) && Encodes(limits) && Due(log, limits, now)
    ensures var (l, out) := MaintainLog(o, log, limits, now, ts);
            && out == Maintained && Clean(l.store) && Reachable(l)
            && !AnyPending(l.pending) && !AnyNotice(l.store.retention)
            && (l.Unavailable() <==> log.Unavailable() && Since(now, log.health.failedSince.value) < limits.maintenanceInterval)
  {
    var l := log.(lastMaintenance := Some(now));
    CalmFlush(o, l, limits, ts);
    FlushRepairs(o, l, limits, ts);
    FlushReaches(o, l, limits, ts);
    FlushKeepsHealth(o, l, limits, ts);
  }

  /** And an append then fails only for its caller's mistake or for being over its allowance in an open episode. */
  lemma CalmAppendSucceeds(o: Oracle, log: Log, limits: Limits, ev: AuditEvent, now: Duration)
    requires log.Formed() && CalmFrom(o, log.store.disk.step) && Encodes(limits)
    ensures var (l, out) := AppendEvent(o, log, limits, ev, now);
            && (out.Failed? ==> out.op == Validate || (out.op == Unavailable && log.Unavailable()))
            && (out == Failed(Validate) <==> ev.kind == Summary)
  {
    hide WriteEvent, Take;
    CalmWriteEvent(o, log.store, limits, ev);
  }
}

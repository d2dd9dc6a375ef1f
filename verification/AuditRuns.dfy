/** Safety of the audit files over every run of appends and maintenance calls, with a fault allowed at every
    storage step. */
module AuditRuns {
  import opened Prelude
  import opened AuditEncoding
  import opened AuditStorage
  import opened AuditHistory
  import opened AuditLog
  import opened TokenBucket

  /** A record always fits a file. */
  predicate RecordsFit(limits: Limits) { limits.maxRecordBytes <= limits.maxFileBytes }

  /** What one event's record is. */
  function Record(ev: AuditEvent, limits: Limits): Bytes {
    var line := EncodeRecord(ev, limits);
    if line.Ok? then line.value else []
  }

  predicate Clean(s: Store) { s.normalized && !s.tailInvalid }

  // ----- One write ---------------------------------------------------------

  lemma RotateCutsNothing(o: Oracle, d: Disk)
    requires |d.slots| > 0
    ensures Rotate(o, d).0.cut == d.cut
  {
    if |d.slots| > 1 {
      var (d1, free) := FindFree(o, d, 1);
      if free.Ok? && free.value.Some? {
        ShiftMoves(o, d1, free.value.value);
      } else if free.Ok? {
        ShiftMoves(o, RemoveOldest(o, d1).0, |d.slots| - 1);
      }
    }
  }

  lemma CommitShape(o: Oracle, s: Store, line: Bytes)
    requires Shaped(s) && |line| > 0
    ensures var (s', r) := Commit(o, s, s.disk.Len(0), line);
            && s'.retention == s.retention && s'.disk.cut == s.disk.cut && s'.normalized == s.normalized
            && (r.Ok? ==> s'.tailInvalid == s.tailInvalid)
  {
    var (d0, ready) := OpenActive(o, s.disk);
    if ready.Ok? { WriteRecordShape(o, d0, line); }
  }

  /** After a clean start a write raises no notice and cuts nothing; a confirmed write ends clean. */
  lemma WriteStaysClean(o: Oracle, s: Store, limits: Limits, line: Bytes)
    requires Shaped(s) && |line| > 0
    ensures var (s', r) := WriteLine(o, s, limits, line);
            && (r.Ok? ==> Clean(s'))
            && (Clean(s) ==> s'.retention == s.retention && s'.disk.cut == s.disk.cut)
  {
    hide Rotate, Commit;
    var (s1, ready) := Ready(o, s, limits);
    if ready.Ok? {
      RotateCutsNothing(o, Tick(s1.disk));
      var (d, pre) := MakeRoom(o, s1.disk, limits, |line|);
      if pre.Ok? { CommitShape(o, s1.(disk := d), line); }
    }
  }

  lemma WriteEventStaysClean(o: Oracle, s: Store, limits: Limits, ev: AuditEvent)
    requires Shaped(s)
    ensures var (s', r) := WriteEvent(o, s, limits, ev);
            && (r.Ok? ==> Clean(s') && EncodeRecord(ev, limits) == Ok(r.value))
            && (Clean(s) ==> s'.retention == s.retention && s'.disk.cut == s.disk.cut)
  {
    hide WriteLine, EncodeRecord;
    var line := EncodeRecord(ev, limits);
    if line.Ok? { WriteStaysClean(o, s, limits, line.value); }
  }

  predicate EndsWith(s: seq<Bytes>, line: Bytes) { |s| > 0 && s[|s| - 1] == line }

  lemma WriteEventSound(o: Oracle, s: Store, limits: Limits, ev: AuditEvent)
    requires Sound(s, limits) && RecordsFit(limits)
    ensures var (s', r) := WriteEvent(o, s, limits, ev);
            && Sound(s', limits) && Grows(s.disk, s'.disk)
            && (r.Ok? ==> EndsWith(s'.disk.landed, r.value) && |s.disk.landed| < |s'.disk.landed|)
  {
    hide WriteLine, EncodeRecord;
    var line := EncodeRecord(ev, limits);
    if line.Ok? { WriteSound(o, s, limits, line.value); }
  }

  // ----- One call ----------------------------------------------------------

  function SummaryDetail(c: Confirmation): Bytes {
    if c.CutReported? then RetentionDetail(c.slot, c.notice)
    else if |c.counts| == 6 then CountsDetail(c.counts) else []
  }

  /** The record a confirmed summary stands for. */
  predicate Spells(c: Confirmation, limits: Limits) {
    EncodeRecord(SummaryEvent(c.ts, SummaryDetail(c)), limits) == Ok(c.line)
  }

  /** Every confirmed summary names a landed record. */
  ghost predicate Reported(log: Log) {
    forall i :: 0 <= i < |log.confirmed| ==> log.confirmed[i].line in log.store.disk.landed
  }

  /** The files are sound, the summaries are landed records. */
  ghost predicate Good(log: Log, limits: Limits) { log.Formed() && Sound(log.store, limits) && Reported(log) }

  lemma ReportedGrows(log: Log, log': Log)
    requires Reported(log) && Grows(log.store.disk, log'.store.disk)
    requires log.confirmed <= log'.confirmed && |log'.confirmed| <= |log.confirmed| + 1
    requires |log'.confirmed| > |log.confirmed| ==> log'.confirmed[|log.confirmed|].line in log'.store.disk.landed
    ensures Reported(log')
  {}

  lemma FlushNoticeGood(o: Oracle, log: Log, limits: Limits, ts: I64, slot: nat)
    requires Good(log, limits) && RecordsFit(limits) && slot < |log.store.retention|
    ensures var (l, r) := FlushNotice(o, log, limits, ts, slot);
            Good(l, limits) && Grows(log.store.disk, l.store.disk) && (r.Ok? && Clean(log.store) ==> Clean(l.store))
  {
    hide WriteEvent, RetentionDetail, CountsDetail;
    var n := log.store.retention[slot];
    var ev := SummaryEvent(ts, RetentionDetail(slot, n));
    WriteEventSound(o, log.store, limits, ev);
    WriteEventStaysClean(o, log.store, limits, ev);
    ReportedGrows(log, FlushNotice(o, log, limits, ts, slot).0);
  }

  lemma {:induction false} FlushNoticesGood(o: Oracle, log: Log, limits: Limits, ts: I64, slot: nat)
    requires Good(log, limits) && RecordsFit(limits) && slot <= |log.store.retention|
    ensures var (l, r) := FlushNotices(o, log, limits, ts, slot);
            Good(l, limits) && Grows(log.store.disk, l.store.disk) && (r.Ok? && Clean(log.store) ==> Clean(l.store))
    decreases |log.store.retention| - slot
  {
    hide FlushNotice;
    if slot < |log.store.retention| {
      FlushNoticeGood(o, log, limits, ts, slot);
      var (l, r) := FlushNotice(o, log, limits, ts, slot);
      if r.Ok? { FlushNoticesGood(o, l, limits, ts, slot + 1); }
    }
  }

  lemma FlushCountsGood(o: Oracle, log: Log, limits: Limits, ts: I64)
    requires Good(log, limits) && RecordsFit(limits)
    ensures var (l, r) := FlushCounts(o, log, limits, ts);
            Good(l, limits) && Grows(log.store.disk, l.store.disk) && (r.Ok? && Clean(log.store) ==> Clean(l.store))
  {
    hide WriteEvent, RetentionDetail, CountsDetail;
    var ev := SummaryEvent(ts, CountsDetail(log.pending));
    WriteEventSound(o, log.store, limits, ev);
    WriteEventStaysClean(o, log.store, limits, ev);
    ReportedGrows(log, FlushCounts(o, log, limits, ts).0);
  }

  lemma FlushPendingGood(o: Oracle, log: Log, limits: Limits, ts: I64)
    requires Good(log, limits) && RecordsFit(limits)
    ensures var (l, r) := FlushPending(o, log, limits, ts);
            Good(l, limits) && Grows(log.store.disk, l.store.disk) && (r.Ok? ==> Clean(l.store))
  {
    hide FlushCounts, Ready;
    ReadySound(o, log.store, limits);
    var (s, ready) := Ready(o, log.store, limits);
    if ready.Ok? {
      var l0 := log.(store := s);
      ReportedGrows(log, l0);
      FlushNoticesGood(o, l0, limits, ts, 0);
      var (l1, r1) := FlushNotices(o, l0, limits, ts, 0);
      if r1.Ok? {
        FlushCountsGood(o, l1, limits, ts);
        var (l2, r2) := FlushCounts(o, l1, limits, ts);
        if r2.Ok? { OpenSound(o, l2.store.disk, limits.maxFileBytes); }
      }
    }
  }

  lemma AppendGood(o: Oracle, log: Log, limits: Limits, ev: AuditEvent, now: Duration)
    requires Good(log, limits) && RecordsFit(limits)
    ensures var (l, out) := AppendEvent(o, log, limits, ev, now);
            && Good(l, limits) && Grows(log.store.disk, l.store.disk)
            && (out == Recorded ==> EndsWith(l.store.disk.landed, Record(ev, limits))
                                    && |log.store.disk.landed| < |l.store.disk.landed|)
  {
    hide WriteEvent, Sound, Take;
    WriteEventSound(o, log.store, limits, ev);
    WriteEventStaysClean(o, log.store, limits, ev);
    ReportedGrows(log, AppendEvent(o, log, limits, ev, now).0);
  }

  lemma StepGood(o: Oracle, log: Log, limits: Limits, c: Call)
    requires Good(log, limits) && RecordsFit(limits)
    ensures var (l, out) := Step(o, log, limits, c);
            Good(l, limits) && Grows(log.store.disk, l.store.disk)
  {
    match c
    case AppendCall(ev, now) => AppendGood(o, log, limits, ev, now);
    case MaintainCall(now, ts) =>
      assert Good(log.(lastMaintenance := Some(now)), limits);
      FlushPendingGood(o, log.(lastMaintenance := Some(now)), limits, ts);
  }

  // ----- Every run ---------------------------------------------------------

  function FromEmpty(limits: Limits, start: Duration): (log: Log)
    ensures log.Formed()
  {
    NewLog(limits, EmptyStore(limits.archives), start)
  }

  function After(o: Oracle, limits: Limits, start: Duration, calls: seq<Call>): (log: Log)
    ensures log.Formed()
  {
    Run(o, FromEmpty(limits, start), limits, calls).0
  }

  lemma {:induction false} RunGood(o: Oracle, limits: Limits, start: Duration, calls: seq<Call>)
    requires RecordsFit(limits)
    ensures Good(After(o, limits, start, calls), limits)
    decreases |calls|
  {
    if calls == [] {
      EmptySound(limits);
    } else {
      var most := calls[..|calls| - 1];
      RunGood(o, limits, start, most);
      StepGood(o, After(o, limits, start, most), limits, calls[|calls| - 1]);
    }
  }

  /** Reading the files from the oldest archive down to the active one gives the landed records, in order, less
      those dropped with an oldest archive. No rename overwrites a file and no archive is removed while a slot
      is free. Every file is within the cap; archives, and the active file unless its tail is marked invalid,
      hold whole records only. */
  lemma HistoryIsKept(o: Oracle, limits: Limits, start: Duration, calls: seq<Call>)
    requires RecordsFit(limits)
    ensures var s := After(o, limits, start, calls).store; var d := s.disk;
            && |d.dropped| <= |d.landed| && ReadFrom(d.slots, 0) == d.landed[|d.dropped|..]
            && !d.clobbered && !d.removedEarly
            && (forall i :: 0 <= i < |d.slots| && d.slots[i].Some? ==> |d.slots[i].value| <= limits.maxFileBytes)
            && (forall i :: 1 <= i < |d.slots| && d.slots[i].Some? ==> Complete(d.slots[i].value))
            && (!s.tailInvalid && d.slots[0].Some? ==> Complete(d.slots[0].value))
  {
    RunGood(o, limits, start, calls);
    var s := After(o, limits, start, calls).store;
    assert forall i :: 0 <= i < |s.disk.slots| ==> Fits(s.disk.slots[i], limits.maxFileBytes);
    assert forall i :: 1 <= i < |s.disk.slots| ==> Whole(s.disk.slots[i]);
    assert !s.tailInvalid ==> Whole(s.disk.slots[0]);
  }

  lemma {:induction false} RunGrows(o: Oracle, limits: Limits, start: Duration, calls: seq<Call>, k: nat)
    requires RecordsFit(limits) && k <= |calls|
    ensures Grows(After(o, limits, start, calls[..k]).store.disk, After(o, limits, start, calls).store.disk)
    decreases |calls|
  {
    if k == |calls| {
      assert calls[..k] == calls;
    } else {
      var most := calls[..|calls| - 1];
      assert most[..k] == calls[..k];
      RunGrows(o, limits, start, most, k);
      RunGood(o, limits, start, most);
      StepGood(o, After(o, limits, start, most), limits, calls[|calls| - 1]);
    }
  }

  lemma {:induction false} OutcomePrefix(o: Oracle, log: Log, limits: Limits, calls: seq<Call>, k: nat)
    requires log.Formed() && k < |calls|
    ensures Run(o, log, limits, calls).1[k] == Step(o, Run(o, log, limits, calls[..k]).0, limits, calls[k]).1
    ensures Run(o, log, limits, calls[..k + 1]).0 == Step(o, Run(o, log, limits, calls[..k]).0, limits, calls[k]).0
    decreases |calls|
  {
    hide Step;
    if k == |calls| - 1 {
      assert calls[..k + 1] == calls;
    } else {
      var most := calls[..|calls| - 1];
      assert most[..k] == calls[..k] && most[..k + 1] == calls[..k + 1];
      OutcomePrefix(o, log, limits, most, k);
    }
  }

  ghost predicate WasRecorded(o: Oracle, limits: Limits, start: Duration, calls: seq<Call>, k: nat) {
    k < |calls| && calls[k].AppendCall? && Run(o, FromEmpty(limits, start), limits, calls).1[k] == Recorded
  }

  /** The position, among all landed records, of the last one landed by call `k`. */
  ghost function Position(o: Oracle, limits: Limits, start: Duration, calls: seq<Call>, k: nat): int
    requires k < |calls|
  {
    |After(o, limits, start, calls[..k + 1]).store.disk.landed| - 1
  }

  lemma RecordedLands(o: Oracle, limits: Limits, start: Duration, calls: seq<Call>, k: nat)
    requires RecordsFit(limits) && WasRecorded(o, limits, start, calls, k)
    ensures var d := After(o, limits, start, calls[..k + 1]).store.disk;
            && EndsWith(d.landed, Record(calls[k].ev, limits))
            && |After(o, limits, start, calls[..k]).store.disk.landed| < |d.landed|
  {
    hide Record, Sound;
    OutcomePrefix(o, FromEmpty(limits, start), limits, calls, k);
    RunGood(o, limits, start, calls[..k]);
    AppendGood(o, After(o, limits, start, calls[..k]), limits, calls[k].ev, calls[k].now);
  }

  lemma ReadInPlace(was: seq<Bytes>, landed: seq<Bytes>, dropped: nat, read: seq<Bytes>, line: Bytes)
    requires EndsWith(was, line) && was <= landed && dropped <= |landed| && read == landed[dropped..]
    ensures var i := |was| - 1;
            i < |landed| && landed[i] == line && (i >= dropped ==> i - dropped < |read| && read[i - dropped] == line)
  {}

  /** A record reported as recorded is still read back, in its place, after any later calls and faults, unless
      it was dropped with an oldest archive. */
  lemma RecordedStays(o: Oracle, limits: Limits, start: Duration, calls: seq<Call>, k: nat)
    requires RecordsFit(limits) && WasRecorded(o, limits, start, calls, k)
    ensures var d := After(o, limits, start, calls).store.disk;
            var i := Position(o, limits, start, calls, k);
            && |After(o, limits, start, calls[..k]).store.disk.landed| <= i < |d.landed|
            && d.landed[i] == Record(calls[k].ev, limits)
            && (i >= |d.dropped| ==> i - |d.dropped| < |ReadFrom(d.slots, 0)|
                                     && ReadFrom(d.slots, 0)[i - |d.dropped|] == Record(calls[k].ev, limits))
  {
    hide Record, Run, ReadFrom;
    RecordedLands(o, limits, start, calls, k);
    RunGrows(o, limits, start, calls, k + 1);
    HistoryIsKept(o, limits, start, calls);
    var d, was := After(o, limits, start, calls).store.disk, After(o, limits, start, calls[..k + 1]).store.disk;
    ReadInPlace(was.landed, d.landed, |d.dropped|, ReadFrom(d.slots, 0), Record(calls[k].ev, limits));
  }

  /** Recorded events are read back in the order of their calls. */
  lemma RecordedInOrder(o: Oracle, limits: Limits, start: Duration, calls: seq<Call>, j: nat, k: nat)
    requires RecordsFit(limits) && j < k && WasRecorded(o, limits, start, calls, k)
    ensures Position(o, limits, start, calls, j) < Position(o, limits, start, calls, k)
  {
    hide Record, Run;
    assert calls[..k][..j + 1] == calls[..j + 1];
    RunGrows(o, limits, start, calls[..k], j + 1);
    assert Position(o, limits, start, calls, j) < |After(o, limits, start, calls[..k]).store.disk.landed|;
    RecordedLands(o, limits, start, calls, k);
  }

  /** The `i`-th confirmed summary of a longer list spells out its report if that of the shorter one did. */
  predicate StillSpells(log: Log, l: Log, limits: Limits, i: nat) {
    && |log.confirmed| <= |l.confirmed|
    && (i < |l.confirmed| && (i < |log.confirmed| ==> Spells(log.confirmed[i], limits)) ==> Spells(l.confirmed[i], limits))
  }

  lemma FlushNoticeSpells(o: Oracle, log: Log, limits: Limits, ts: I64, slot: nat, i: nat)
    requires log.Formed() && slot < |log.store.retention|
    ensures StillSpells(log, FlushNotice(o, log, limits, ts, slot).0, limits, i)
  {
    hide WriteEvent, RetentionDetail, EncodeRecord;
    var n := log.store.retention[slot];
    WriteEventStaysClean(o, log.store, limits, SummaryEvent(ts, RetentionDetail(slot, n)));
  }

  lemma {:induction false} FlushNoticesSpells(o: Oracle, log: Log, limits: Limits, ts: I64, slot: nat, i: nat)
    requires log.Formed() && slot <= |log.store.retention|
    ensures StillSpells(log, FlushNotices(o, log, limits, ts, slot).0, limits, i)
    decreases |log.store.retention| - slot
  {
    hide FlushNotice, Spells;
    if slot < |log.store.retention| {
      FlushNoticeSpells(o, log, limits, ts, slot, i);
      var (l, r) := FlushNotice(o, log, limits, ts, slot);
      if r.Ok? { FlushNoticesSpells(o, l, limits, ts, slot + 1, i); }
    }
  }

  lemma FlushCountsSpells(o: Oracle, log: Log, limits: Limits, ts: I64, i: nat)
    requires log.Formed()
    ensures StillSpells(log, FlushCounts(o, log, limits, ts).0, limits, i)
  {
    hide WriteEvent, CountsDetail, EncodeRecord;
    WriteEventStaysClean(o, log.store, limits, SummaryEvent(ts, CountsDetail(log.pending)));
  }

  lemma FlushPendingSpells(o: Oracle, log: Log, limits: Limits, ts: I64, i: nat)
    requires log.Formed()
    ensures StillSpells(log, FlushPending(o, log, limits, ts).0, limits, i)
  {
    hide Spells, FlushCounts, Ready;
    var (s, ready) := Ready(o, log.store, limits);
    if ready.Ok? {
      var l0 := log.(store := s);
      FlushNoticesSpells(o, l0, limits, ts, 0, i);
      var (l1, r1) := FlushNotices(o, l0, limits, ts, 0);
      if r1.Ok? { FlushCountsSpells(o, l1, limits, ts, i); }
    }
  }

  lemma AppendConfirmsNothing(o: Oracle, log: Log, limits: Limits, ev: AuditEvent, now: Duration)
    requires log.Formed()
    ensures AppendEvent(o, log, limits, ev, now).0.confirmed == log.confirmed
  {}

  lemma StepSpells(o: Oracle, log: Log, limits: Limits, c: Call, i: nat)
    requires log.Formed()
    ensures StillSpells(log, Step(o, log, limits, c).0, limits, i)
  {
    hide Spells, FlushPending, AppendEvent;
    match c
    case AppendCall(ev, now) => AppendConfirmsNothing(o, log, limits, ev, now);
    case MaintainCall(now, ts) => FlushPendingSpells(o, log.(lastMaintenance := Some(now)), limits, ts, i);
  }

  lemma {:induction false} RunSpells(o: Oracle, limits: Limits, start: Duration, calls: seq<Call>, i: nat)
    requires i < |After(o, limits, start, calls).confirmed|
    ensures Spells(After(o, limits, start, calls).confirmed[i], limits)
    decreases |calls|
  {
    hide Spells, Step;
    var most := calls[..|calls| - 1];
    var l := After(o, limits, start, most);
    if i < |l.confirmed| { RunSpells(o, limits, start, most, i); }
    StepSpells(o, l, limits, calls[|calls| - 1], i);
  }

  /** Every confirmed summary landed as a record that spells out what it reports; under the production limits
      that record carries the whole text of its counts. */
  lemma SummariesLand(o: Oracle, limits: Limits, start: Duration, calls: seq<Call>, i: nat)
    requires RecordsFit(limits) && i < |After(o, limits, start, calls).confirmed|
    ensures var l := After(o, limits, start, calls); var c := l.confirmed[i];
            && c.line in l.store.disk.landed && Spells(c, limits)
            && (limits == PRODUCTION && c.CountsReported? && |c.counts| == 6 ==>
                  c.line == JsonLine(SummaryEvent(c.ts, CountsDetail(c.counts)), None, CountsDetail(c.counts)))
  {
    RunGood(o, limits, start, calls);
    RunSpells(o, limits, start, calls, i);
    var c := After(o, limits, start, calls).confirmed[i];
    if c.CountsReported? && |c.counts| == 6 { SummaryIsWhole(c.counts, c.ts); }
  }

  lemma SummaryIsWhole(counts: seq<KindCounts>, ts: I64)
    requires |counts| == 6
    ensures var ev := SummaryEvent(ts, CountsDetail(counts));
            EncodeRecord(ev, PRODUCTION) == Ok(JsonLine(ev, None, CountsDetail(counts)))
  {
    CountsDetailFits(counts);
    FirstPassFits(SummaryEvent(ts, CountsDetail(counts)));
  }

  // ----- The byte cap from any files ---------------------------------------

  predicate Capped(log: Log, limits: Limits) { log.Formed() && Bounded(log.store, limits) }

  lemma WriteEventFits(o: Oracle, s: Store, limits: Limits, ev: AuditEvent)
    requires Bounded(s, limits) && RecordsFit(limits)
    ensures var s' := WriteEvent(o, s, limits, ev).0; Bounded(s', limits) && (s.normalized ==> s'.normalized)
  {
    var line := EncodeRecord(ev, limits);
    if line.Ok? { WriteFits(o, s, limits, line.value); }
  }

  lemma FlushNoticeFits(o: Oracle, log: Log, limits: Limits, ts: I64, slot: nat)
    requires Capped(log, limits) && RecordsFit(limits) && slot < |log.store.retention|
    ensures var l := FlushNotice(o, log, limits, ts, slot).0;
            Capped(l, limits) && (log.store.normalized ==> l.store.normalized)
  {
    hide WriteEvent, RetentionDetail, CountsDetail;
    WriteEventFits(o, log.store, limits, SummaryEvent(ts, RetentionDetail(slot, log.store.retention[slot])));
  }

  lemma {:induction false} FlushNoticesFits(o: Oracle, log: Log, limits: Limits, ts: I64, slot: nat)
    requires Capped(log, limits) && RecordsFit(limits) && slot <= |log.store.retention|
    ensures var l := FlushNotices(o, log, limits, ts, slot).0;
            Capped(l, limits) && (log.store.normalized ==> l.store.normalized)
    decreases |log.store.retention| - slot
  {
    hide FlushNotice;
    if slot < |log.store.retention| {
      FlushNoticeFits(o, log, limits, ts, slot);
      var (l, r) := FlushNotice(o, log, limits, ts, slot);
      if r.Ok? { FlushNoticesFits(o, l, limits, ts, slot + 1); }
    }
  }

  lemma FlushPendingFits(o: Oracle, log: Log, limits: Limits, ts: I64)
    requires Capped(log, limits) && RecordsFit(limits)
    ensures var l := FlushPending(o, log, limits, ts).0;
            Capped(l, limits) && (log.store.normalized ==> l.store.normalized)
  {
    ReadyFits(o, log.store, limits);
    var (s, ready) := Ready(o, log.store, limits);
    if ready.Ok? {
      FlushNoticesFits(o, log.(store := s), limits, ts, 0);
      var (l1, r1) := FlushNotices(o, log.(store := s), limits, ts, 0);
      if r1.Ok? { FlushRestFits(o, l1, limits, ts); }
    }
  }

  lemma FlushRestFits(o: Oracle, log: Log, limits: Limits, ts: I64)
    requires Capped(log, limits) && RecordsFit(limits)
    ensures var l := FlushCounts(o, log, limits, ts).0;
            && Capped(l, limits) && (log.store.normalized ==> l.store.normalized)
            && Capped(Probe(o, l).0, limits)
  {
    hide WriteEvent, RetentionDetail, CountsDetail, Probe;
    WriteEventFits(o, log.store, limits, SummaryEvent(ts, CountsDetail(log.pending)));
    ProbeFits(o, FlushCounts(o, log, limits, ts).0, limits);
  }

  lemma ProbeFits(o: Oracle, log: Log, limits: Limits)
    requires Capped(log, limits)
    ensures Capped(Probe(o, log).0, limits)
  {
    assert log.store.normalized ==> Fits(log.store.disk.slots[0], limits.maxFileBytes);
  }

  /** Once the files have been normalized, whatever they held before, every managed file stays within the cap:
      after failed writes, failed rollbacks and interrupted rotations alike. */
  lemma {:induction false} CapHolds(o: Oracle, log: Log, limits: Limits, calls: seq<Call>)
    requires Capped(log, limits) && RecordsFit(limits)
    ensures var l := Run(o, log, limits, calls).0;
            Capped(l, limits) && (log.store.normalized ==> l.store.normalized)
    decreases |calls|
  {
    hide FlushPending, WriteEvent, Take;
    if calls != [] {
      var most := calls[..|calls| - 1];
      CapHolds(o, log, limits, most);
      var l := Run(o, log, limits, most).0;
      match calls[|calls| - 1] {
        case AppendCall(ev, now) => WriteEventFits(o, l.store, limits, ev);
        case MaintainCall(now, ts) => FlushPendingFits(o, l.(lastMaintenance := Some(now)), limits, ts);
      }
    }
  }
}

/** Conservation over every run: no coalesced event, failed event or cut byte goes unaccounted, whatever fails. */
module AuditAccounting {
  import opened Prelude
  import opened AuditEncoding
  import opened AuditStorage
  import opened AuditLog
  import opened AuditRuns
  import opened TokenBucket

  // ----- What the callers saw ----------------------------------------------

  predicate Concerns(c: Call, kind: Kind) { c.AppendCall? && c.ev.kind == kind }

  /** Appends of one kind that were coalesced. */
  function CoalescedOf(calls: seq<Call>, outs: seq<Outcome>, kind: Kind): nat
    requires |calls| == |outs|
  {
    if calls == [] then 0
    else
      var n := |calls| - 1;
      CoalescedOf(calls[..n], outs[..n], kind) + if Concerns(calls[n], kind) && outs[n] == Coalesced then 1 else 0
  }

  /** Appends of one kind that returned an error. */
  function FailedOf(calls: seq<Call>, outs: seq<Outcome>, kind: Kind): nat
    requires |calls| == |outs|
  {
    if calls == [] then 0
    else
      var n := |calls| - 1;
      FailedOf(calls[..n], outs[..n], kind) + if Concerns(calls[n], kind) && outs[n].Failed? then 1 else 0
  }

  // ----- What the summaries reported ---------------------------------------

  function Counted(c: Confirmation, i: nat): KindCounts {
    if c.CountsReported? && i < |c.counts| then c.counts[i] else NO_COUNTS
  }

  /** Totals over the confirmed summaries and the pending counts of one kind. */
  datatype Totals = Totals(coalesced: nat, failed: nat, flagged: bool)

  function Plus(t: Totals, c: KindCounts): Totals {
    Totals(t.coalesced + c.coalesced, t.failed + c.failed, t.flagged || c.saturated)
  }

  function ReportedTotals(confirmed: seq<Confirmation>, i: nat): Totals {
    if confirmed == [] then Totals(0, 0, false)
    else Plus(ReportedTotals(confirmed[..|confirmed| - 1], i), Counted(confirmed[|confirmed| - 1], i))
  }

  function AllTotals(log: Log, i: nat): Totals
    requires log.Formed() && i < 6
  {
    Plus(ReportedTotals(log.confirmed, i), log.pending[i])
  }

  lemma ReportedSnoc(confirmed: seq<Confirmation>, c: Confirmation, i: nat)
    ensures ReportedTotals(confirmed + [c], i) == Plus(ReportedTotals(confirmed, i), Counted(c, i))
  {
    assert (confirmed + [c])[..|confirmed|] == confirmed;
  }

  // ----- Maintenance moves counts and loses none ----------------------------

  /** A step that reports nothing, a cut, or all pending counts at once. */
  predicate Reports(log: Log, l: Log) {
    var n := |log.confirmed|;
    if l.confirmed == log.confirmed then l.pending == log.pending
    else
      && |l.confirmed| == n + 1 && l.confirmed[..n] == log.confirmed
      && if l.confirmed[n].CutReported? then l.pending == log.pending
         else l.confirmed[n].counts == log.pending && l.pending == NO_PENDING
  }

  lemma ReportKeepsTotals(log: Log, l: Log, i: nat)
    requires log.Formed() && l.Formed() && i < 6 && Reports(log, l)
    ensures AllTotals(l, i) == AllTotals(log, i)
  {
    if l.confirmed != log.confirmed {
      var n := |log.confirmed|;
      assert l.confirmed == log.confirmed + [l.confirmed[n]];
      ReportedSnoc(log.confirmed, l.confirmed[n], i);
    }
  }

  lemma NoticeReports(o: Oracle, log: Log, limits: Limits, ts: I64, slot: nat)
    requires log.Formed() && slot < |log.store.retention|
    ensures var l := FlushNotice(o, log, limits, ts, slot).0; Reports(log, l) && l.pending == log.pending
  {
    hide WriteEvent, RetentionDetail, CountsDetail;
  }
  lemma CountsReport(o: Oracle, log: Log, limits: Limits, ts: I64)
    requires log.Formed()
    ensures Reports(log, FlushCounts(o, log, limits, ts).0)
  {
    hide WriteEvent, RetentionDetail, CountsDetail;
  }
  lemma NoticeKeepsTotals(o: Oracle, log: Log, limits: Limits, ts: I64, slot: nat, i: nat)
    requires log.Formed() && slot < |log.store.retention| && i < 6
    ensures AllTotals(FlushNotice(o, log, limits, ts, slot).0, i) == AllTotals(log, i)
  {
    hide FlushNotice;
    NoticeReports(o, log, limits, ts, slot);
    ReportKeepsTotals(log, FlushNotice(o, log, limits, ts, slot).0, i);
  }

  lemma {:induction false} NoticesKeepTotals(o: Oracle, log: Log, limits: Limits, ts: I64, slot: nat, i: nat)
    requires log.Formed() && slot <= |log.store.retention| && i < 6
    ensures AllTotals(FlushNotices(o, log, limits, ts, slot).0, i) == AllTotals(log, i)
    decreases |log.store.retention| - slot
  {
    hide FlushNotice;
    if slot < |log.store.retention| {
      var (l, r) := FlushNotice(o, log, limits, ts, slot);
      NoticeKeepsTotals(o, log, limits, ts, slot, i);
      if r.Ok? { NoticesKeepTotals(o, l, limits, ts, slot + 1, i); }
    }
  }

  lemma CountsKeepTotals(o: Oracle, log: Log, limits: Limits, ts: I64, i: nat)
    requires log.Formed() && i < 6
    ensures AllTotals(FlushCounts(o, log, limits, ts).0, i) == AllTotals(log, i)
  {
    hide FlushCounts;
    CountsReport(o, log, limits, ts);
    ReportKeepsTotals(log, FlushCounts(o, log, limits, ts).0, i);
  }

  lemma FlushKeepsTotals(o: Oracle, log: Log, limits: Limits, ts: I64, i: nat)
    requires log.Formed() && i < 6
    ensures AllTotals(FlushPending(o, log, limits, ts).0, i) == AllTotals(log, i)
  {
    var (s, ready) := Ready(o, log.store, limits);
    if ready.Ok? {
      NoticesKeepTotals(o, log.(store := s), limits, ts, 0, i);
      var (l1, r1) := FlushNotices(o, log.(store := s), limits, ts, 0);
      CountsKeepTotals(o, l1, limits, ts, i);
    }
  }

  // ----- Counts are conserved ----------------------------------------------

  /** Reported and pending counts are exactly what callers saw, unless a counter saturated; and a saturation is
      flagged exactly when some event went uncounted. */
  predicate Balanced(t: Totals, coalesced: nat, failed: nat) {
    && t.coalesced <= coalesced && t.failed <= failed
    && (t.flagged <==> t.coalesced + t.failed < coalesced + failed)
  }

  /** An append changes only its own kind's counts, by the one event that was coalesced or failed. */
  lemma AppendShape(o: Oracle, log: Log, limits: Limits, ev: AuditEvent, now: Duration, i: nat)
    requires log.Formed() && i < 6
    ensures var (l, out) := AppendEvent(o, log, limits, ev, now);
            && l.confirmed == log.confirmed
            && (ev.kind != EVENT_KINDS[i] || out == Recorded ==> l.pending[i] == log.pending[i])
            && (ev.kind == EVENT_KINDS[i] && out == Coalesced ==> l.pending[i] == AddCoalesced(log.pending[i], ev.ts))
            && (ev.kind == EVENT_KINDS[i] && out.Failed? ==> l.pending[i] == AddFailed(log.pending[i], ev.ts))
            && out != Maintained
  {
    hide WriteEvent, Take;
    IndexOfKind(ev.kind, i);
  }

  lemma AppendBalances(o: Oracle, log: Log, limits: Limits, ev: AuditEvent, now: Duration, i: nat, C: nat, F: nat)
    requires log.Formed() && i < 6 && Balanced(AllTotals(log, i), C, F)
    ensures var (l, out) := AppendEvent(o, log, limits, ev, now);
            var mine := ev.kind == EVENT_KINDS[i];
            Balanced(AllTotals(l, i), C + (if mine && out == Coalesced then 1 else 0),
                     F + (if mine && out.Failed? then 1 else 0))
  {
    AppendShape(o, log, limits, ev, now, i);
  }

  /** Every coalesced and every failed append of a kind is in a confirmed summary or still pending. */
  lemma {:induction false} CountsAreConserved(o: Oracle, limits: Limits, store: Store, start: Duration, calls: seq<Call>, i: nat)
    requires Shaped(store) && i < 6
    ensures var (l, outs) := Run(o, NewLog(limits, store, start), limits, calls);
            Balanced(AllTotals(l, i), CoalescedOf(calls, outs, EVENT_KINDS[i]), FailedOf(calls, outs, EVENT_KINDS[i]))
    decreases |calls|
  {
    if calls != [] {
      var n := |calls| - 1;
      CountsAreConserved(o, limits, store, start, calls[..n], i);
      var (l, outs) := Run(o, NewLog(limits, store, start), limits, calls[..n]);
      var (l', out) := Step(o, l, limits, calls[n]);
      assert (outs + [out])[..n] == outs;
      match calls[n] {
        case AppendCall(ev, now) =>
          AppendBalances(o, l, limits, ev, now, i, CoalescedOf(calls[..n], outs, EVENT_KINDS[i]),
                         FailedOf(calls[..n], outs, EVENT_KINDS[i]));
        case MaintainCall(now, ts) => FlushKeepsTotals(o, l.(lastMaintenance := Some(now)), limits, ts, i);
      }
    }
  }

  // ----- Timestamps bound the pending events --------------------------------

  function Summaries(confirmed: seq<Confirmation>): nat {
    if confirmed == [] then 0
    else Summaries(confirmed[..|confirmed| - 1]) + if confirmed[|confirmed| - 1].CountsReported? then 1 else 0
  }

  /** Timestamps of the coalesced and failed events of one kind since the last confirmed count summary. */
  function Unreported(o: Oracle, log: Log, limits: Limits, calls: seq<Call>, i: nat): seq<I64>
    requires log.Formed() && i < 6
    decreases |calls|
  {
    if calls == [] then []
    else
      var n := |calls| - 1;
      var l := Run(o, log, limits, calls[..n]).0;
      var (l', out) := Step(o, l, limits, calls[n]);
      StillUnreported(Unreported(o, log, limits, calls[..n], i), l, calls[n], l', out, i)
  }

  /** The same after one more call, which took the log from `l` to `l'`. */
  function StillUnreported(earlier: seq<I64>, l: Log, c: Call, l': Log, out: Outcome, i: nat): seq<I64>
    requires i < 6
  {
    if c.AppendCall? then
      if c.ev.kind == EVENT_KINDS[i] && out != Recorded then earlier + [c.ev.ts] else earlier
    else if Summaries(l'.confirmed) != Summaries(l.confirmed) then [] else earlier
  }

  function Earliest(times: seq<I64>): I64
    requires times != []
  {
    var n := |times| - 1;
    if n == 0 then times[0] else Min(Earliest(times[..n]), times[n])
  }

  function LatestOf(times: seq<I64>): I64
    requires times != []
  {
    var n := |times| - 1;
    if n == 0 then times[0] else Max(LatestOf(times[..n]), times[n])
  }

  /** The counts describe exactly these events: how many, the earliest and the latest. */
  predicate Describes(c: KindCounts, times: seq<I64>) {
    && (c.Pending() <==> times != [])
    && (times != [] ==> c.firstTs == Earliest(times) && c.lastTs == LatestOf(times))
    && (if c.saturated then c.coalesced + c.failed < |times| else c.coalesced + c.failed == |times|)
  }

  lemma DescribesOneMore(c: KindCounts, times: seq<I64>, ts: I64)
    requires Describes(c, times)
    ensures Describes(AddCoalesced(c, ts), times + [ts]) && Describes(AddFailed(c, ts), times + [ts])
  {
    assert (times + [ts])[..|times|] == times;
  }

  lemma ReportCounts(log: Log, l: Log)
    requires Reports(log, l)
    ensures if Summaries(l.confirmed) == Summaries(log.confirmed) then l.pending == log.pending else l.pending == NO_PENDING
    ensures Summaries(l.confirmed) >= Summaries(log.confirmed)
  {}

  lemma {:induction false} NoticesLeaveCounts(o: Oracle, log: Log, limits: Limits, ts: I64, slot: nat)
    requires log.Formed() && slot <= |log.store.retention|
    ensures var l := FlushNotices(o, log, limits, ts, slot).0;
            l.pending == log.pending && Summaries(l.confirmed) == Summaries(log.confirmed)
    decreases |log.store.retention| - slot
  {
    hide FlushNotice;
    if slot < |log.store.retention| {
      var (l, r) := FlushNotice(o, log, limits, ts, slot);
      NoticeIsNoSummary(o, log, limits, ts, slot);
      if r.Ok? { NoticesLeaveCounts(o, l, limits, ts, slot + 1); }
    }
  }

  lemma NoticeIsNoSummary(o: Oracle, log: Log, limits: Limits, ts: I64, slot: nat)
    requires log.Formed() && slot < |log.store.retention|
    ensures var l := FlushNotice(o, log, limits, ts, slot).0;
            l.pending == log.pending && Summaries(l.confirmed) == Summaries(log.confirmed)
  {
    hide WriteEvent, RetentionDetail, CountsDetail;
    var l := FlushNotice(o, log, limits, ts, slot).0;
    if l.confirmed != log.confirmed { assert l.confirmed[..|log.confirmed|] == log.confirmed; }
  }

  lemma FlushClearsOrKeeps(o: Oracle, log: Log, limits: Limits, ts: I64)
    requires log.Formed()
    ensures var l := FlushPending(o, log, limits, ts).0;
            if Summaries(l.confirmed) == Summaries(log.confirmed) then l.pending == log.pending else l.pending == NO_PENDING
  {
    var (s, ready) := Ready(o, log.store, limits);
    if ready.Ok? {
      NoticesLeaveCounts(o, log.(store := s), limits, ts, 0);
      var (l1, r1) := FlushNotices(o, log.(store := s), limits, ts, 0);
      CountsReport(o, l1, limits, ts);
      ReportCounts(l1, FlushCounts(o, l1, limits, ts).0);
    }
  }

  lemma AppendDescribes(o: Oracle, log: Log, limits: Limits, ev: AuditEvent, now: Duration, i: nat, times: seq<I64>)
    requires log.Formed() && i < 6 && Describes(log.pending[i], times)
    ensures var (l, out) := AppendEvent(o, log, limits, ev, now);
            Describes(l.pending[i], StillUnreported(times, log, AppendCall(ev, now), l, out, i))
  {
    AppendShape(o, log, limits, ev, now, i);
    DescribesOneMore(log.pending[i], times, ev.ts);
  }

  lemma MaintainClearsOrKeeps(o: Oracle, log: Log, limits: Limits, now: Duration, ts: I64)
    requires log.Formed()
    ensures var l := MaintainLog(o, log, limits, now, ts).0;
            if Summaries(l.confirmed) == Summaries(log.confirmed) then l.pending == log.pending else l.pending == NO_PENDING
  {
    FlushClearsOrKeeps(o, log.(lastMaintenance := Some(now)), limits, ts);
  }

  lemma MaintainDescribes(o: Oracle, log: Log, limits: Limits, now: Duration, ts: I64, i: nat, times: seq<I64>)
    requires log.Formed() && i < 6 && Describes(log.pending[i], times)
    ensures var (l, out) := MaintainLog(o, log, limits, now, ts);
            Describes(l.pending[i], StillUnreported(times, log, MaintainCall(now, ts), l, out, i))
  {
    MaintainClearsOrKeeps(o, log, limits, now, ts);
    var (l, out) := MaintainLog(o, log, limits, now, ts);
    ClearedOrKept(log, MaintainCall(now, ts), l, out, i, times);
  }

  lemma ClearedOrKept(log: Log, c: Call, l: Log, out: Outcome, i: nat, times: seq<I64>)
    requires log.Formed() && l.Formed() && c.MaintainCall? && i < 6 && Describes(log.pending[i], times)
    requires if Summaries(l.confirmed) == Summaries(log.confirmed) then l.pending == log.pending else l.pending == NO_PENDING
    ensures Describes(l.pending[i], StillUnreported(times, log, c, l, out, i))
  {
    assert NO_PENDING[i] == NO_COUNTS;
  }

  /** In every run the pending counts of a kind describe exactly its unreported events. */
  lemma {:induction false} PendingDescribesUnreported(
      o: Oracle, limits: Limits, store: Store, start: Duration, calls: seq<Call>, i: nat)
    requires Shaped(store) && i < 6
    ensures var log := NewLog(limits, store, start);
            Describes(Run(o, log, limits, calls).0.pending[i], Unreported(o, log, limits, calls, i))
    decreases |calls|
  {
    if calls != [] {
      var n := |calls| - 1;
      var log := NewLog(limits, store, start);
      PendingDescribesUnreported(o, limits, store, start, calls[..n], i);
      var l, times := Run(o, log, limits, calls[..n]).0, Unreported(o, log, limits, calls[..n], i);
      match calls[n] {
        case AppendCall(ev, now) => AppendDescribes(o, l, limits, ev, now, i, times);
        case MaintainCall(now, ts) => MaintainDescribes(o, l, limits, now, ts, i, times);
      }
    }
  }

  // ----- Cut bytes are conserved --------------------------------------------

  /** What a file has lost to cuts together with what it still holds. */
  function EverHeld(d: Disk, slot: nat): nat
    requires slot < |d.slots| == |d.cut|
  {
    d.cut[slot] + d.Len(slot)
  }

  lemma CutCounts(o: Oracle, s: Store, slot: nat, keep: nat, reset: bool, i: nat)
    requires Shaped(s) && slot < |s.retention| && keep <= s.disk.Len(slot) && i < |s.retention|
    ensures EverHeld(CutSlot(o, s, slot, keep, reset).0.disk, i) == EverHeld(s.disk, i)
  {}

  /** The bytes counted as cut from a file are exactly those it no longer holds, however far a normalization got. */
  lemma {:induction false} CutIsWhatIsGone(o: Oracle, s: Store, limits: Limits, slot: nat, i: nat)
    requires Shaped(s) && slot <= |s.retention| && i < |s.retention|
    ensures EverHeld(NormalizeFrom(o, s, limits, slot).0.disk, i) == EverHeld(s.disk, i)
    decreases |s.retention| - slot
  {
    if slot < |s.retention| {
      SlotCutCounts(o, s, limits, slot, i);
      var (s', r) := NormalizeSlot(o, s, limits, slot);
      hide NormalizeSlot, EverHeld;
      if r.Ok? { CutIsWhatIsGone(o, s', limits, slot + 1, i); }
    }
  }

  lemma SlotCutCounts(o: Oracle, s: Store, limits: Limits, slot: nat, i: nat)
    requires Shaped(s) && slot < |s.retention| && i < |s.retention|
    ensures EverHeld(NormalizeSlot(o, s, limits, slot).0.disk, i) == EverHeld(s.disk, i)
  {
    var s1 := s.(disk := Tick(s.disk));
    var s2 := s1.(disk := Tick(s1.disk));
    var keep := if s.disk.slots[0].Some? then CompleteLen(s.disk.slots[0].value) else 0;
    CutCounts(o, s1, slot, 0, true, i);
    CutCounts(o, s2, 0, keep, false, i);
    NormalizeSlotCases(o, s, limits, slot, s1, s2, keep);
    hide NormalizeSlot, CutSlot, CompleteLen;
  }

  /** Bytes of one file's cuts reported by confirmed summaries. */
  function ReportedCut(confirmed: seq<Confirmation>, slot: nat): nat {
    if confirmed == [] then 0
    else
      var n := |confirmed| - 1;
      ReportedCut(confirmed[..n], slot)
      + if confirmed[n].CutReported? && confirmed[n].slot == slot then confirmed[n].notice.discardedBytes else 0
  }

  /** Bytes cut from a file are noticed or among the `base` already reported, up to 64-bit saturation. */
  predicate CutBalance(s: Store, slot: nat, base: nat)
    requires Shaped(s) && slot < |s.retention|
  {
    var n := s.retention[slot];
    && base + n.discardedBytes <= s.disk.cut[slot]
    && (s.disk.cut[slot] <= U64_MAX ==> base + n.discardedBytes == s.disk.cut[slot])
    && (!n.pending ==> n.discardedBytes == 0)
  }

  lemma CutBalances(o: Oracle, s: Store, slot: nat, keep: nat, reset: bool, i: nat, base: nat)
    requires Shaped(s) && slot < |s.retention| && keep <= s.disk.Len(slot) && i < |s.retention| && CutBalance(s, i, base)
    ensures CutBalance(CutSlot(o, s, slot, keep, reset).0, i, base)
  {}

  lemma NormalizeSlotBalances(o: Oracle, s: Store, limits: Limits, slot: nat, i: nat, base: nat)
    requires Shaped(s) && slot < |s.retention| && i < |s.retention| && CutBalance(s, i, base)
    ensures CutBalance(NormalizeSlot(o, s, limits, slot).0, i, base)
  {
    var s1 := s.(disk := Tick(s.disk));
    var s2 := s1.(disk := Tick(s1.disk));
    var keep := if s.disk.slots[0].Some? then CompleteLen(s.disk.slots[0].value) else 0;
    CutBalances(o, s1, slot, 0, true, i, base);
    CutBalances(o, s2, 0, keep, false, i, base);
    NormalizeSlotCases(o, s, limits, slot, s1, s2, keep);
  }

  /** The notice says what happened: an oversized file was emptied and is called reset; a trimmed one is not. */
  lemma NoticeSaysWhy(o: Oracle, s: Store, limits: Limits, slot: nat)
    requires Shaped(s) && slot < |s.retention| && s.disk.slots[slot].Some? && NormalizeSlot(o, s, limits, slot).1.Ok?
    ensures var s' := NormalizeSlot(o, s, limits, slot).0;
            if s.disk.Len(slot) > limits.maxFileBytes then
              s'.disk.slots[slot] == Some([]) && s'.retention[slot].reset && s'.retention[slot].pending
            else s'.retention[slot].reset == s.retention[slot].reset
  {
    var s1 := s.(disk := Tick(s.disk));
    var s2 := s1.(disk := Tick(s1.disk));
    var keep := if s.disk.slots[0].Some? then CompleteLen(s.disk.slots[0].value) else 0;
    NormalizeSlotCases(o, s, limits, slot, s1, s2, keep);
    if s.disk.Len(slot) > limits.maxFileBytes { assert s.disk.slots[slot].value[..0] == []; }
  }

  lemma NormalizeSlotCases(o: Oracle, s: Store, limits: Limits, slot: nat, s1: Store, s2: Store, keep: nat)
    requires Shaped(s) && slot < |s.retention|
    requires s1 == s.(disk := Tick(s.disk)) && s2 == s1.(disk := Tick(s1.disk))
    requires keep == if s.disk.slots[0].Some? then CompleteLen(s.disk.slots[0].value) else 0
    ensures NormalizeSlot(o, s, limits, slot).0
            in {s1, s2, CutSlot(o, s1, slot, 0, true).0, CutSlot(o, s2, 0, keep, false).0}
  {}

  lemma {:induction false} NormalizeBalances(o: Oracle, s: Store, limits: Limits, slot: nat, i: nat, base: nat)
    requires Shaped(s) && slot <= |s.retention| && i < |s.retention| && CutBalance(s, i, base)
    ensures CutBalance(NormalizeFrom(o, s, limits, slot).0, i, base)
    decreases |s.retention| - slot
  {
    if slot < |s.retention| {
      NormalizeSlotBalances(o, s, limits, slot, i, base);
      var (s', r) := NormalizeSlot(o, s, limits, slot);
      if r.Ok? { NormalizeBalances(o, s', limits, slot + 1, i, base); }
    }
  }

  lemma ReadyBalances(o: Oracle, s: Store, limits: Limits, i: nat, base: nat)
    requires Shaped(s) && i < |s.retention| && CutBalance(s, i, base)
    ensures CutBalance(Ready(o, s, limits).0, i, base)
  {
    if !s.normalized || s.tailInvalid { NormalizeBalances(o, s, limits, 0, i, base); }
  }

  /** What a write does beyond its initial repair leaves notices and cuts alone. */
  lemma WriteIsReadyThenClean(o: Oracle, s: Store, limits: Limits, line: Bytes)
    requires Shaped(s) && |line| > 0
    ensures var s1 := Ready(o, s, limits).0; var s' := WriteLine(o, s, limits, line).0;
            s'.retention == s1.retention && s'.disk.cut == s1.disk.cut
  {
    var (s1, ready) := Ready(o, s, limits);
    if ready.Ok? {
      RotateCutsNothing(o, Tick(s1.disk));
      var (d, pre) := MakeRoom(o, s1.disk, limits, |line|);
      if pre.Ok? { CommitShape(o, s1.(disk := d), line); }
    }
  }

  lemma WriteEventBalances(o: Oracle, s: Store, limits: Limits, ev: AuditEvent, i: nat, base: nat)
    requires Shaped(s) && i < |s.retention| && CutBalance(s, i, base)
    ensures CutBalance(WriteEvent(o, s, limits, ev).0, i, base)
  {
    var line := EncodeRecord(ev, limits);
    if line.Ok? {
      ReadyBalances(o, s, limits, i, base);
      WriteIsReadyThenClean(o, s, limits, line.value);
    }
  }

  predicate CutsAccounted(log: Log, i: nat)
    requires log.Formed() && i < |log.store.retention|
  {
    CutBalance(log.store, i, ReportedCut(log.confirmed, i))
  }

  /** A notice is cleared by exactly the summary that reports it: on clean files the write in between raises none. */
  lemma NoticeAccounted(o: Oracle, log: Log, limits: Limits, ts: I64, slot: nat, i: nat)
    requires log.Formed() && slot < |log.store.retention| && i < |log.store.retention|
    requires Clean(log.store) && CutsAccounted(log, i)
    ensures var (l, r) := FlushNotice(o, log, limits, ts, slot);
            && CutsAccounted(l, i) && (r.Ok? ==> Clean(l.store) && !l.store.retention[slot].pending)
            && (i != slot ==> l.store.retention[i] == log.store.retention[i])
  {
    hide WriteEvent, RetentionDetail, CountsDetail;
    var n := log.store.retention[slot];
    WriteEventStaysClean(o, log.store, limits, SummaryEvent(ts, RetentionDetail(slot, n)));
    var l := FlushNotice(o, log, limits, ts, slot).0;
    if l.confirmed != log.confirmed { assert l.confirmed[..|log.confirmed|] == log.confirmed; }
  }

  lemma {:induction false} NoticesAccounted(o: Oracle, log: Log, limits: Limits, ts: I64, slot: nat, i: nat)
    requires log.Formed() && slot <= |log.store.retention| && i < |log.store.retention|
    requires Clean(log.store) && CutsAccounted(log, i) && (i < slot ==> !log.store.retention[i].pending)
    ensures var (l, r) := FlushNotices(o, log, limits, ts, slot);
            CutsAccounted(l, i) && (r.Ok? ==> Clean(l.store) && !l.store.retention[i].pending)
    decreases |log.store.retention| - slot
  {
    hide FlushNotice;
    if slot < |log.store.retention| {
      NoticeAccounted(o, log, limits, ts, slot, i);
      var (l, r) := FlushNotice(o, log, limits, ts, slot);
      if r.Ok? { NoticesAccounted(o, l, limits, ts, slot + 1, i); }
    }
  }

  lemma CountsAccounted(o: Oracle, log: Log, limits: Limits, ts: I64, i: nat)
    requires log.Formed() && i < |log.store.retention| && Clean(log.store) && CutsAccounted(log, i)
    ensures var (l, r) := FlushCounts(o, log, limits, ts);
            CutsAccounted(l, i) && (r.Ok? ==> Clean(l.store) && l.store.retention == log.store.retention)
  {
    hide WriteEvent, RetentionDetail, CountsDetail;
    WriteEventStaysClean(o, log.store, limits, SummaryEvent(ts, CountsDetail(log.pending)));
    var l := FlushCounts(o, log, limits, ts).0;
    if l.confirmed != log.confirmed { assert l.confirmed[..|log.confirmed|] == log.confirmed; }
  }

  lemma FlushAccounted(o: Oracle, log: Log, limits: Limits, ts: I64, i: nat)
    requires log.Formed() && i < |log.store.retention| && CutsAccounted(log, i)
    ensures var (l, r) := FlushPending(o, log, limits, ts);
            CutsAccounted(l, i) && (r.Ok? ==> Clean(l.store) && !l.store.retention[i].pending)
  {
    hide FlushCounts, Ready;
    ReadyBalances(o, log.store, limits, i, ReportedCut(log.confirmed, i));
    var (s, ready) := Ready(o, log.store, limits);
    if ready.Ok? {
      var l0 := log.(store := s);
      NoticesAccounted(o, l0, limits, ts, 0, i);
      var (l1, r1) := FlushNotices(o, l0, limits, ts, 0);
      if r1.Ok? { CountsAccounted(o, l1, limits, ts, i); }
    }
  }

  /** In every run, the bytes normalization cut from a file are those of confirmed retention summaries plus the
      pending notice, as long as they number less than 2^64. */
  lemma {:induction false} CutsAreConserved(o: Oracle, log: Log, limits: Limits, calls: seq<Call>, i: nat)
    requires log.Formed() && i < |log.store.retention| && CutsAccounted(log, i)
    ensures CutsAccounted(Run(o, log, limits, calls).0, i)
    decreases |calls|
  {
    if calls != [] {
      var n := |calls| - 1;
      CutsAreConserved(o, log, limits, calls[..n], i);
      var l := Run(o, log, limits, calls[..n]).0;
      match calls[n] {
        case AppendCall(ev, now) => WriteEventBalances(o, l.store, limits, ev, i, ReportedCut(l.confirmed, i));
        case MaintainCall(now, ts) => FlushAccounted(o, l.(lastMaintenance := Some(now)), limits, ts, i);
      }
    }
  }
}

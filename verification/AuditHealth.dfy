/** Health and allowance of the audit log over every run: failure episodes, recovery, and what the six token
    buckets admit. */
module AuditHealth {
  import opened Prelude
  import opened AuditEncoding
  import opened AuditStorage
  import opened AuditLog
  import opened AuditRuns
  import opened TokenBucket

  // ----- Failure counters --------------------------------------------------

  /** A failure of recording, as opposed to a refused caller mistake. */
  predicate Failure(out: Outcome) { out.Failed? && out.op != Validate }

  function FailedAppends(calls: seq<Call>, outs: seq<Outcome>): nat
    requires |calls| == |outs|
  {
    if calls == [] then 0
    else
      var n := |calls| - 1;
      FailedAppends(calls[..n], outs[..n]) + if calls[n].AppendCall? && Failure(outs[n]) then 1 else 0
  }

  function LastError(outs: seq<Outcome>): Option<AuditOp> {
    if outs == [] then None
    else if Failure(outs[|outs| - 1]) then Some(outs[|outs| - 1].op)
    else LastError(outs[..|outs| - 1])
  }

  /** A call marks the health exactly when it reports a failure; only appends count events. */
  lemma StepHealth(o: Oracle, log: Log, limits: Limits, c: Call)
    requires log.Formed()
    ensures var (l, out) := Step(o, log, limits, c);
            var events := if c.AppendCall? then 1 else 0;
            if Failure(out) then l.health == NoteFailure(log.health, out.op, c.now, events)
            else l.health == log.health || (c.MaintainCall? && l.health == MaybeRecover(log.health, limits, c.now))
  {
    match c
    case AppendCall(ev, now) =>
    case MaintainCall(now, ts) => FlushKeepsHealth(o, log.(lastMaintenance := Some(now)), limits, ts);
  }

  lemma {:induction false} NoticesKeepHealth(o: Oracle, log: Log, limits: Limits, ts: I64, slot: nat)
    requires log.Formed() && slot <= |log.store.retention|
    ensures FlushNotices(o, log, limits, ts, slot).0.health == log.health
    decreases |log.store.retention| - slot
  {
    hide WriteEvent, RetentionDetail, CountsDetail;
    if slot < |log.store.retention| {
      var (l, r) := FlushNotice(o, log, limits, ts, slot);
      if r.Ok? { NoticesKeepHealth(o, l, limits, ts, slot + 1); }
    }
  }

  lemma FlushKeepsHealth(o: Oracle, log: Log, limits: Limits, ts: I64)
    requires log.Formed()
    ensures FlushPending(o, log, limits, ts).0.health == log.health
  {
    hide WriteEvent, RetentionDetail, CountsDetail, Ready;
    var (s, ready) := Ready(o, log.store, limits);
    NoticesKeepHealth(o, log.(store := s), limits, ts, 0);
  }

  /** In every run the failure counter is the number of appends that returned a failure, and the last failure is
      the step named by the latest error. */
  lemma {:induction false} HealthCountsFailures(o: Oracle, limits: Limits, store: Store, start: Duration, calls: seq<Call>)
    requires Shaped(store)
    ensures var (l, outs) := Run(o, NewLog(limits, store, start), limits, calls);
            l.health.failedEvents == Min(U64_MAX, FailedAppends(calls, outs)) && l.health.lastFailure == LastError(outs)
    decreases |calls|
  {
    if calls != [] {
      var n := |calls| - 1;
      HealthCountsFailures(o, limits, store, start, calls[..n]);
      var (l, outs) := Run(o, NewLog(limits, store, start), limits, calls[..n]);
      var (l', out) := Step(o, l, limits, calls[n]);
      assert (outs + [out])[..n] == outs;
      StepHealth(o, l, limits, calls[n]);
    }
  }

  // ----- Failure episodes --------------------------------------------------

  /** A failure episode stays visible while the clock is short of one interval after its start. */
  lemma {:induction false} EpisodeStaysVisible(o: Oracle, log: Log, limits: Limits, calls: seq<Call>, t: Duration)
    requires log.Formed() && log.health.failedSince == Some(t)
    requires forall i :: 0 <= i < |calls| ==> Since(calls[i].now, t) < limits.maintenanceInterval
    ensures Run(o, log, limits, calls).0.health.failedSince == Some(t)
    decreases |calls|
  {
    if calls != [] {
      var n := |calls| - 1;
      EpisodeStaysVisible(o, log, limits, calls[..n], t);
      StepHealth(o, Run(o, log, limits, calls[..n]).0, limits, calls[n]);
    }
  }

  lemma NoticeCleared(o: Oracle, log: Log, limits: Limits, ts: I64, slot: nat)
    requires log.Formed() && slot < |log.store.retention| && Clean(log.store)
    ensures var (l, r) := FlushNotice(o, log, limits, ts, slot);
            r.Ok? ==> Clean(l.store) && !l.store.retention[slot].pending
                      && l.store.retention == log.store.retention[slot := l.store.retention[slot]]
  {
    hide WriteEvent, RetentionDetail, CountsDetail;
    WriteEventStaysClean(o, log.store, limits, SummaryEvent(ts, RetentionDetail(slot, log.store.retention[slot])));
  }

  lemma {:induction false} NoticesCleared(o: Oracle, log: Log, limits: Limits, ts: I64, slot: nat)
    requires log.Formed() && slot <= |log.store.retention| && Clean(log.store)
    requires forall i :: 0 <= i < slot ==> !log.store.retention[i].pending
    ensures var (l, r) := FlushNotices(o, log, limits, ts, slot);
            r.Ok? ==> Clean(l.store) && !AnyNotice(l.store.retention)
    decreases |log.store.retention| - slot
  {
    hide FlushNotice;
    if slot < |log.store.retention| {
      NoticeCleared(o, log, limits, ts, slot);
      var (l, r) := FlushNotice(o, log, limits, ts, slot);
      if r.Ok? { NoticesCleared(o, l, limits, ts, slot + 1); }
    }
  }

  lemma CountsCleared(o: Oracle, log: Log, limits: Limits, ts: I64)
    requires log.Formed() && Clean(log.store)
    ensures var (l, r) := FlushCounts(o, log, limits, ts);
            r.Ok? ==> Clean(l.store) && !AnyPending(l.pending) && l.store.retention == log.store.retention
  {
    hide WriteEvent, RetentionDetail, CountsDetail;
    WriteEventStaysClean(o, log.store, limits, SummaryEvent(ts, CountsDetail(log.pending)));
  }

  /** A maintenance pass that succeeds leaves repaired files and nothing pending. */
  lemma FlushRepairs(o: Oracle, log: Log, limits: Limits, ts: I64)
    requires log.Formed()
    ensures var (l, r) := FlushPending(o, log, limits, ts);
            r.Ok? ==> Clean(l.store) && !AnyPending(l.pending) && !AnyNotice(l.store.retention)
  {
    var (s, ready) := Ready(o, log.store, limits);
    if ready.Ok? {
      NoticesCleared(o, log.(store := s), limits, ts, 0);
      var (l1, r1) := FlushNotices(o, log.(store := s), limits, ts, 0);
      if r1.Ok? { CountsCleared(o, l1, limits, ts); }
    }
  }

  /** A failure episode ends only by a maintenance call that left the files repaired and nothing pending, at
      least one interval after the episode began. */
  lemma RecoveryMeansRepaired(o: Oracle, log: Log, limits: Limits, c: Call)
    requires log.Formed() && log.Unavailable() && !Step(o, log, limits, c).0.Unavailable()
    ensures var (l, out) := Step(o, log, limits, c);
            && c.MaintainCall? && out == Maintained
            && Clean(l.store) && !AnyPending(l.pending) && !AnyNotice(l.store.retention)
            && Since(c.now, log.health.failedSince.value) >= limits.maintenanceInterval
  {
    StepHealth(o, log, limits, c);
    if c.MaintainCall? {
      FlushRepairs(o, log.(lastMaintenance := Some(c.now)), limits, c.ts);
    }
  }

  /** And it ends by every such call: a pass that was due, succeeded and came late enough. */
  lemma EpisodeEndsExactlyWhen(o: Oracle, log: Log, limits: Limits, c: Call)
    requires log.Formed() && log.Unavailable()
    ensures var (l, out) := Step(o, log, limits, c);
            !l.Unavailable() <==> && c.MaintainCall? && out == Maintained && Due(log, limits, c.now)
                                  && Since(c.now, log.health.failedSince.value) >= limits.maintenanceInterval
  {
    StepHealth(o, log, limits, c);
    if c.MaintainCall? { FlushKeepsHealth(o, log.(lastMaintenance := Some(c.now)), limits, c.ts); }
  }

  // ----- The active file is reachable again ---------------------------------

  predicate Reachable(log: Log)
    requires log.Formed()
  {
    log.store.disk.slots[0].Some?
  }

  lemma WriteReaches(o: Oracle, s: Store, limits: Limits, ev: AuditEvent)
    requires Shaped(s)
    ensures var (s', w) := WriteEvent(o, s, limits, ev); w.Ok? ==> s'.disk.slots[0].Some?
  {
    var line := EncodeRecord(ev, limits);
    if line.Ok? {
      var (s1, ready) := Ready(o, s, limits);
      if ready.Ok? {
        var (d, pre) := MakeRoom(o, s1.disk, limits, |line.value|);
        if pre.Ok? { CommitReaches(o, s1.(disk := d), line.value); }
      }
    }
  }

  lemma CommitReaches(o: Oracle, s: Store, line: Bytes)
    requires Shaped(s) && |line| > 0
    ensures var (s', r) := Commit(o, s, s.disk.Len(0), line); r.Ok? ==> s'.disk.slots[0].Some?
  {}

  lemma NoticeReaches(o: Oracle, log: Log, limits: Limits, ts: I64, slot: nat)
    requires log.Formed() && slot < |log.store.retention|
    ensures var (l, r) := FlushNotice(o, log, limits, ts, slot);
            r.Ok? ==> |l.confirmed| >= |log.confirmed| && (|l.confirmed| > |log.confirmed| || Reachable(log) ==> Reachable(l))
  {
    hide WriteEvent, RetentionDetail, CountsDetail;
    WriteReaches(o, log.store, limits, SummaryEvent(ts, RetentionDetail(slot, log.store.retention[slot])));
  }

  lemma {:induction false} NoticesReach(o: Oracle, log: Log, limits: Limits, ts: I64, slot: nat)
    requires log.Formed() && slot <= |log.store.retention|
    ensures var (l, r) := FlushNotices(o, log, limits, ts, slot);
            r.Ok? ==> |l.confirmed| >= |log.confirmed| && (|l.confirmed| > |log.confirmed| || Reachable(log) ==> Reachable(l))
    decreases |log.store.retention| - slot
  {
    hide FlushNotice;
    if slot < |log.store.retention| {
      NoticeReaches(o, log, limits, ts, slot);
      var (l, r) := FlushNotice(o, log, limits, ts, slot);
      if r.Ok? { NoticesReach(o, l, limits, ts, slot + 1); }
    }
  }

  lemma CountsReach(o: Oracle, log: Log, limits: Limits, ts: I64)
    requires log.Formed()
    ensures var (l, r) := FlushCounts(o, log, limits, ts);
            r.Ok? ==> |l.confirmed| >= |log.confirmed| && (|l.confirmed| > |log.confirmed| || Reachable(log) ==> Reachable(l))
  {
    hide WriteEvent, RetentionDetail, CountsDetail;
    WriteReaches(o, log.store, limits, SummaryEvent(ts, CountsDetail(log.pending)));
  }

  /** A successful pass has opened the active file, also when it had nothing to report. */
  lemma FlushReaches(o: Oracle, log: Log, limits: Limits, ts: I64)
    requires log.Formed()
    ensures var (l, r) := FlushPending(o, log, limits, ts); r.Ok? ==> Reachable(l)
  {
    var (s, ready) := Ready(o, log.store, limits);
    if ready.Ok? {
      NoticesReach(o, log.(store := s), limits, ts, 0);
      var (l1, r1) := FlushNotices(o, log.(store := s), limits, ts, 0);
      if r1.Ok? { CountsReach(o, l1, limits, ts); }
    }
  }

  // ----- Spacing of passes -------------------------------------------------

  lemma {:induction false} NoticesKeepMark(o: Oracle, log: Log, limits: Limits, ts: I64, slot: nat)
    requires log.Formed() && slot <= |log.store.retention|
    ensures FlushNotices(o, log, limits, ts, slot).0.lastMaintenance == log.lastMaintenance
    decreases |log.store.retention| - slot
  {
    hide WriteEvent, RetentionDetail, CountsDetail;
    if slot < |log.store.retention| {
      var (l, r) := FlushNotice(o, log, limits, ts, slot);
      if r.Ok? { NoticesKeepMark(o, l, limits, ts, slot + 1); }
    }
  }

  /** Whether a maintenance call does work is visible in its mark, and a call without work changes nothing. */
  lemma PassIsMarked(o: Oracle, log: Log, limits: Limits, now: Duration, ts: I64)
    requires log.Formed()
    ensures var l := MaintainLog(o, log, limits, now, ts).0;
            if Due(log, limits, now) then l.lastMaintenance == Some(now) else l == log
  {
    hide WriteEvent, RetentionDetail, CountsDetail, Ready;
    var (s, ready) := Ready(o, log.store, limits);
    NoticesKeepMark(o, log.(lastMaintenance := Some(now), store := s), limits, ts, 0);
  }

  /** Some count, notice or invalid tail is waiting, or a failure episode is open. */
  ghost predicate Waiting(log: Log) {
    || (exists i :: 0 <= i < |log.pending| && (log.pending[i].coalesced > 0 || log.pending[i].failed > 0))
    || (exists i :: 0 <= i < |log.store.retention| && log.store.retention[i].pending)
    || log.store.tailInvalid || log.health.failedSince.Some?
  }

  /** One interval after the last pass, give or take a quarter of a second, or no pass yet. */
  predicate Late(last: Option<Duration>, interval: nat, now: Duration) {
    last.None? || interval <= 250_000_000 || now - last.value >= interval - 250_000_000
  }

  /** A maintenance call runs a pass exactly when something is waiting and the last pass is an interval ago; any
      other call changes nothing. */
  lemma PassRunsExactlyWhen(o: Oracle, log: Log, limits: Limits, now: Duration, ts: I64)
    requires log.Formed()
    ensures var l := MaintainLog(o, log, limits, now, ts).0;
            if Waiting(log) && Late(log.lastMaintenance, limits.maintenanceInterval, now)
            then l.lastMaintenance == Some(now) else l == log
  {
    PassIsMarked(o, log, limits, now, ts);
    hide MaintainLog;
    assert AnyPending(log.pending) <==>
           exists i :: 0 <= i < |log.pending| && (log.pending[i].coalesced > 0 || log.pending[i].failed > 0) by {
      assert forall i :: 0 <= i < |log.pending| ==>
        (log.pending[i].Pending() <==> log.pending[i].coalesced > 0 || log.pending[i].failed > 0);
    }
    assert Due(log, limits, now) <==> Waiting(log) && Late(log.lastMaintenance, limits.maintenanceInterval, now);
  }

  /** After a pass at `t`, no call at a clock sample short of the interval less the slack starts another. */
  lemma {:induction false} PassesAreSpaced(o: Oracle, log: Log, limits: Limits, calls: seq<Call>, t: Duration)
    requires log.Formed() && log.lastMaintenance == Some(t)
    requires forall i :: 0 <= i < |calls| ==>
               Since(calls[i].now, t) < Since(limits.maintenanceInterval, MAINTENANCE_SLACK)
    ensures var l := Run(o, log, limits, calls).0; l.lastMaintenance == Some(t) && l.confirmed == log.confirmed
    decreases |calls|
  {
    if calls != [] {
      var n := |calls| - 1;
      PassesAreSpaced(o, log, limits, calls[..n], t);
      var l := Run(o, log, limits, calls[..n]).0;
      match calls[n] {
        case AppendCall(ev, now) => AppendKeepsMark(o, l, limits, ev, now);
        case MaintainCall(now, ts) => PassIsMarked(o, l, limits, now, ts);
      }
    }
  }

  lemma AppendKeepsMark(o: Oracle, log: Log, limits: Limits, ev: AuditEvent, now: Duration)
    requires log.Formed()
    ensures var l := AppendEvent(o, log, limits, ev, now).0;
            l.lastMaintenance == log.lastMaintenance && l.confirmed == log.confirmed
  {}

  // ----- Allowance ---------------------------------------------------------

  /** Clock samples of the appends of one kind. */
  function TimesOf(calls: seq<Call>, kind: Kind): seq<Duration> {
    if calls == [] then []
    else
      var c := calls[|calls| - 1];
      TimesOf(calls[..|calls| - 1], kind) + if c.AppendCall? && c.ev.kind == kind then [c.now] else []
  }

  /** For each append of one kind, whether it was let through to storage. */
  function LetThrough(calls: seq<Call>, outs: seq<Outcome>, kind: Kind): seq<bool>
    requires |calls| == |outs|
  {
    if calls == [] then []
    else
      var n := |calls| - 1;
      LetThrough(calls[..n], outs[..n], kind)
      + if calls[n].AppendCall? && calls[n].ev.kind == kind
        then [outs[n] != Coalesced && outs[n] != Failed(Unavailable)] else []
  }

  function BucketAfter(b: Bucket, a: Allowance, times: seq<Duration>): Bucket
    decreases times
  {
    if times == [] then b else BucketAfter(Take(b, a, times[0]).0, a, times[1..])
  }

  lemma {:induction false} AnswersLast(b: Bucket, a: Allowance, times: seq<Duration>, t: Duration)
    ensures Answers(b, a, times + [t]) == Answers(b, a, times) + [Take(BucketAfter(b, a, times), a, t).1]
    ensures BucketAfter(b, a, times + [t]) == Take(BucketAfter(b, a, times), a, t).0
    decreases times
  {
    if times == [] {
      assert times + [t] == [t] && [t][1..] == [];
    } else {
      assert (times + [t])[1..] == times[1..] + [t];
      AnswersLast(Take(b, a, times[0]).0, a, times[1..], t);
    }
  }

  lemma AppendTakes(o: Oracle, log: Log, limits: Limits, ev: AuditEvent, now: Duration, i: nat)
    requires log.Formed() && i < 6
    ensures var (l, out) := AppendEvent(o, log, limits, ev, now);
            if ev.kind == EVENT_KINDS[i] then
              var (b, ok) := Take(log.buckets[i], Rate(limits), now);
              l.buckets[i] == b && ok == (out != Coalesced && out != Failed(Unavailable))
            else l.buckets[i] == log.buckets[i]
  {
    hide WriteEvent;
    IndexOfKind(ev.kind, i);
  }

  lemma {:induction false} NoticesKeepBuckets(o: Oracle, log: Log, limits: Limits, ts: I64, slot: nat)
    requires log.Formed() && slot <= |log.store.retention|
    ensures FlushNotices(o, log, limits, ts, slot).0.buckets == log.buckets
    decreases |log.store.retention| - slot
  {
    hide WriteEvent, RetentionDetail, CountsDetail;
    if slot < |log.store.retention| {
      var (l, r) := FlushNotice(o, log, limits, ts, slot);
      if r.Ok? { NoticesKeepBuckets(o, l, limits, ts, slot + 1); }
    }
  }

  lemma MaintainKeepsBuckets(o: Oracle, log: Log, limits: Limits, now: Duration, ts: I64)
    requires log.Formed()
    ensures MaintainLog(o, log, limits, now, ts).0.buckets == log.buckets
  {
    FlushKeepsBuckets(o, log.(lastMaintenance := Some(now)), limits, ts);
  }

  lemma FlushKeepsBuckets(o: Oracle, log: Log, limits: Limits, ts: I64)
    requires log.Formed()
    ensures FlushPending(o, log, limits, ts).0.buckets == log.buckets
  {
    hide WriteEvent, RetentionDetail, CountsDetail, Ready;
    var (s, ready) := Ready(o, log.store, limits);
    NoticesKeepBuckets(o, log.(store := s), limits, ts, 0);
  }

  lemma StepTakes(o: Oracle, log: Log, limits: Limits, c: Call, i: nat)
    requires log.Formed() && i < 6
    ensures var (l, out) := Step(o, log, limits, c);
            if c.AppendCall? && c.ev.kind == EVENT_KINDS[i] then
              var (b, ok) := Take(log.buckets[i], Rate(limits), c.now);
              l.buckets[i] == b && ok == (out != Coalesced && out != Failed(Unavailable))
            else l.buckets[i] == log.buckets[i]
  {
    match c
    case AppendCall(ev, now) => AppendTakes(o, log, limits, ev, now, i);
    case MaintainCall(now, ts) => MaintainKeepsBuckets(o, log, limits, now, ts);
  }

  predicate Limited(b: Bucket, through: seq<bool>, full: Bucket, a: Allowance, times: seq<Duration>) {
    through == Answers(full, a, times) && b == BucketAfter(full, a, times)
  }

  lemma LimitedLast(b: Bucket, through: seq<bool>, full: Bucket, a: Allowance, times: seq<Duration>, t: Duration)
    requires Limited(b, through, full, a, times)
    ensures var (b', ok) := Take(b, a, t); Limited(b', through + [ok], full, a, times + [t])
  {
    AnswersLast(full, a, times, t);
  }

  /** An event over its allowance is coalesced while storage works and fails while an episode is open. */
  lemma DenialSaysWhy(o: Oracle, log: Log, limits: Limits, ev: AuditEvent, now: Duration)
    requires log.Formed()
    ensures var out := AppendEvent(o, log, limits, ev, now).1;
            && (out == Coalesced ==> !log.Unavailable()) && (out == Failed(Unavailable) ==> log.Unavailable())
            && (out == Failed(Validate) <==> ev.kind == Summary)
  {
    hide WriteEvent, Take;
  }

  /** Each kind's appends are let through exactly as its own bucket decides: other kinds, failures, maintenance
      and summaries neither cost nor earn it tokens. */
  lemma {:induction false} KindsAreLimitedApart(
      o: Oracle, limits: Limits, store: Store, start: Duration, calls: seq<Call>, i: nat)
    requires Shaped(store) && i < 6
    ensures var (l, outs) := Run(o, NewLog(limits, store, start), limits, calls);
            var times := TimesOf(calls, EVENT_KINDS[i]);
            Limited(l.buckets[i], LetThrough(calls, outs, EVENT_KINDS[i]),
                    Bucket(limits.burst * 1000, start), Allowance(limits.burst, limits.refillPerSec), times)
    decreases |calls|
  {
    if calls != [] {
      var n := |calls| - 1;
      var kind, full := EVENT_KINDS[i], Bucket(Rate(limits).Full(), start);
      KindsAreLimitedApart(o, limits, store, start, calls[..n], i);
      var (l, outs) := Run(o, NewLog(limits, store, start), limits, calls[..n]);
      var (l', out) := Step(o, l, limits, calls[n]);
      assert (outs + [out])[..n] == outs;
      StepTakes(o, l, limits, calls[n], i);
      var through, times := LetThrough(calls[..n], outs, kind), TimesOf(calls[..n], kind);
      assert through + [] == through && times + [] == times;
      LimitedLast(l.buckets[i], through, full, Rate(limits), times, calls[n].now);
    }
  }

  /** So between any two appends of one kind the log lets through at most a burst plus the refill of the time
      its clock advanced. */
  lemma LogWindowBound(o: Oracle, limits: Limits, store: Store, start: Duration, calls: seq<Call>, i: nat, lo: nat, hi: nat)
    requires Shaped(store) && i < 6 && ExactRate(limits.refillPerSec)
    requires lo <= hi < |TimesOf(calls, EVENT_KINDS[i])|
    ensures var outs := Run(o, NewLog(limits, store, start), limits, calls).1;
            var times := TimesOf(calls, EVENT_KINDS[i]);
            var through := LetThrough(calls, outs, EVENT_KINDS[i]);
            && |through| == |times|
            && Admitted(through[lo..hi + 1]) * 1_000_000_000
               <= limits.burst * 1_000_000_000
                  + limits.refillPerSec * (Latest(start, times[..hi + 1]) - Latest(start, times[..lo + 1]))
  {
    KindsAreLimitedApart(o, limits, store, start, calls, i);
    WindowBound(start, Rate(limits), TimesOf(calls, EVENT_KINDS[i]), lo, hi);
  }
}

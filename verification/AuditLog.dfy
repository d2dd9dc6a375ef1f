/** The audit log itself: rate-limited appends, pending omission counts, periodic maintenance that writes them
    out as summaries, and the health of the current failure episode. */
module AuditLog {
  import opened Prelude
  import opened AuditEncoding
  import opened AuditStorage
  import opened TokenBucket

  datatype Health = Health(failedSince: Option<Duration>, failedEvents: U64, lastFailure: Option<AuditOp>)

  /** A summary whose record was confirmed, and what it reported. */
  datatype Confirmation =
    | CutReported(slot: nat, notice: Notice, ts: I64, line: Bytes)
    | CountsReported(counts: seq<KindCounts>, ts: I64, line: Bytes)

  /** The writer state, the health and (as history) the confirmed summaries. */
  datatype Log = Log(
    store: Store, buckets: seq<Bucket>, pending: seq<KindCounts>, lastMaintenance: Option<Duration>,
    health: Health, confirmed: seq<Confirmation>)
  {
    predicate Formed() { Shaped(store) && |buckets| == 6 && |pending| == 6 }

    predicate Unavailable() { health.failedSince.Some? }
  }

  datatype Outcome = Recorded | Coalesced | Maintained | Failed(op: AuditOp)

  const MAINTENANCE_SLACK: nat := 250_000_000

  /** `Duration::saturating_sub`. */
  function Since(now: nat, then_: nat): nat { if now <= then_ then 0 else now - then_ }

  function NewLog(limits: Limits, store: Store, now: Duration): Log {
    var full := Bucket(Rate(limits).Full(), now);
    Log(store, [full, full, full, full, full, full],
        NO_PENDING, None, Health(None, 0, None), [])
  }

  function Rate(limits: Limits): Allowance { Allowance(limits.burst, limits.refillPerSec) }

  // ----- Counters ----------------------------------------------------------

  function NoteTs(c: KindCounts, ts: I64): KindCounts {
    if c.Pending() then c.(firstTs := Min(c.firstTs, ts), lastTs := Max(c.lastTs, ts))
    else c.(firstTs := ts, lastTs := ts)
  }

  function AddCoalesced(c: KindCounts, ts: I64): KindCounts {
    NoteTs(c, ts).(saturated := c.saturated || c.coalesced == U64_MAX, coalesced := SatAddU64(c.coalesced, 1))
  }

  function AddFailed(c: KindCounts, ts: I64): KindCounts {
    NoteTs(c, ts).(saturated := c.saturated || c.failed == U64_MAX, failed := SatAddU64(c.failed, 1))
  }

  function NoteFailure(h: Health, op: AuditOp, now: Duration, events: U64): Health {
    Health(if h.failedSince.None? then Some(now) else h.failedSince, SatAddU64(h.failedEvents, events), Some(op))
  }

  // ----- Append ------------------------------------------------------------

  /** The error path of an append: one more failed event of its kind, and the health marked. */
  function FailAppend(log: Log, idx: nat, ts: I64, op: AuditOp, now: Duration): Log
    requires log.Formed() && idx < 6
  {
    log.(pending := log.pending[idx := AddFailed(log.pending[idx], ts)], health := NoteFailure(log.health, op, now, 1))
  }

  /** Encode an event and write its record: the line written, or the step that failed. */
  function WriteEvent(o: Oracle, s: Store, limits: Limits, ev: AuditEvent): (r: (Store, Result<Bytes, AuditOp>))
    requires Shaped(s)
    ensures r.0.Like(s)
    ensures r.1.Err? ==> r.1.error != Validate && r.1.error != Unavailable
  {
    var line := EncodeRecord(ev, limits);
    if line.Err? then (s, Err(Encode))
    else
      var (s', w) := WriteLine(o, s, limits, line.value);
      (s', if w.Ok? then Ok(line.value) else Err(w.error))
  }

  function AppendEvent(o: Oracle, log: Log, limits: Limits, ev: AuditEvent, now: Duration): (r: (Log, Outcome))
    requires log.Formed()
    ensures r.0.Formed() && r.0.store.Like(log.store)
  {
    var idx := KindIndex(ev.kind);
    if idx.None? then (log, Failed(Validate))
    else
      var i := idx.value;
      var (b, ok) := Take(log.buckets[i], Rate(limits), now);
      var l := log.(buckets := log.buckets[i := b]);
      if ok then AppendAdmitted(o, l, limits, ev, i, now) else AppendDenied(l, ev.ts, i, now)
  }

  /** An event over its allowance: coalesced, or failed while storage is unavailable. */
  function AppendDenied(log: Log, ts: I64, i: nat, now: Duration): (r: (Log, Outcome))
    requires log.Formed() && i < 6
    ensures r.0.Formed() && r.0.store == log.store && r.0.confirmed == log.confirmed && r.0.buckets == log.buckets
    ensures r.1 == Coalesced || r.1 == Failed(Unavailable)
  {
    if log.Unavailable() then (FailAppend(log, i, ts, Unavailable, now), Failed(Unavailable))
    else (log.(pending := log.pending[i := AddCoalesced(log.pending[i], ts)]), Coalesced)
  }

  function AppendAdmitted(o: Oracle, log: Log, limits: Limits, ev: AuditEvent, i: nat, now: Duration): (r: (Log, Outcome))
    requires log.Formed() && i < 6
    ensures r.0.Formed() && r.0.store.Like(log.store) && r.0.confirmed == log.confirmed && r.0.buckets == log.buckets
    ensures r.1 != Coalesced && r.1 != Failed(Unavailable) && r.1 != Failed(Validate) && r.1 != Maintained
  {
    var (s, w) := WriteEvent(o, log.store, limits, ev);
    var l := log.(store := s);
    if w.Ok? then (l, Recorded) else (FailAppend(l, i, ev.ts, w.error, now), Failed(w.error))
  }

  // ----- Maintenance -------------------------------------------------------

  type LogStep = (Log, Result<(), AuditOp>)

  /** Report slot `slot`'s notice if one is pending; it is cleared only by a confirmed record. */
  function FlushNotice(o: Oracle, log: Log, limits: Limits, ts: I64, slot: nat): (r: LogStep)
    requires log.Formed() && slot < |log.store.retention|
    ensures r.0.Formed() && r.0.store.Like(log.store)
    ensures r.1.Err? ==> r.1.error != Validate && r.1.error != Unavailable
  {
    var n := log.store.retention[slot];
    if !n.pending then (log, Ok(()))
    else
      var (s, w) := WriteEvent(o, log.store, limits, SummaryEvent(ts, RetentionDetail(slot, n)));
      if w.Err? then (log.(store := s), Err(w.error))
      else (log.(store := s.(retention := s.retention[slot := NO_NOTICE]),
                 confirmed := log.confirmed + [CutReported(slot, n, ts, w.value)]), Ok(()))
  }

  function FlushNotices(o: Oracle, log: Log, limits: Limits, ts: I64, slot: nat): (r: LogStep)
    requires log.Formed() && slot <= |log.store.retention|
    ensures r.0.Formed() && r.0.store.Like(log.store)
    ensures r.1.Err? ==> r.1.error != Validate && r.1.error != Unavailable
    decreases |log.store.retention| - slot
  {
    if slot == |log.store.retention| then (log, Ok(()))
    else
      var (l, r) := FlushNotice(o, log, limits, ts, slot);
      if r.Err? then (l, r) else FlushNotices(o, l, limits, ts, slot + 1)
  }

  predicate AnyPending(pending: seq<KindCounts>) { exists i :: 0 <= i < |pending| && pending[i].Pending() }

  predicate AnyNotice(retention: seq<Notice>) { exists i :: 0 <= i < |retention| && retention[i].pending }

  const NO_PENDING: seq<KindCounts> := [NO_COUNTS, NO_COUNTS, NO_COUNTS, NO_COUNTS, NO_COUNTS, NO_COUNTS]

  /** Report all pending counts in one summary. */
  function FlushCounts(o: Oracle, log: Log, limits: Limits, ts: I64): (r: LogStep)
    requires log.Formed()
    ensures r.0.Formed() && r.0.store.Like(log.store)
    ensures r.1.Err? ==> r.1.error != Validate && r.1.error != Unavailable
  {
    if !AnyPending(log.pending) then (log, Ok(()))
    else
      var (s, w) := WriteEvent(o, log.store, limits, SummaryEvent(ts, CountsDetail(log.pending)));
      if w.Err? then (log.(store := s), Err(w.error))
      else (log.(store := s, pending := NO_PENDING,
                 confirmed := log.confirmed + [CountsReported(log.pending, ts, w.value)]), Ok(()))
  }

  /** With nothing to record, prove that the active file is reachable again. */
  function Probe(o: Oracle, log: Log): (r: LogStep)
    requires log.Formed()
    ensures r.0.Formed() && r.0.store.Like(log.store)
    ensures r.1.Err? ==> r.1.error != Validate && r.1.error != Unavailable
  {
    var (d, r) := OpenActive(o, log.store.disk);
    (log.(store := log.store.(disk := d)), r)
  }

  /** Report every notice, then the counts. */
  function ReportAll(o: Oracle, log: Log, limits: Limits, ts: I64): (r: LogStep)
    requires log.Formed()
    ensures r.0.Formed() && r.0.store.Like(log.store)
    ensures r.1.Err? ==> r.1.error != Validate && r.1.error != Unavailable
  {
    var (l1, r1) := FlushNotices(o, log, limits, ts, 0);
    if r1.Err? then (l1, r1)
    else
      var (l2, r2) := FlushCounts(o, l1, limits, ts);
      if r2.Err? || |l2.confirmed| != |log.confirmed| then (l2, r2) else Probe(o, l2)
  }

  function FlushPending(o: Oracle, log: Log, limits: Limits, ts: I64): (r: LogStep)
    requires log.Formed()
    ensures r.0.Formed() && r.0.store.Like(log.store)
    ensures r.1.Err? ==> r.1.error != Validate && r.1.error != Unavailable
  {
    var (s, ready) := Ready(o, log.store, limits);
    if ready.Err? then (log.(store := s), ready) else ReportAll(o, log.(store := s), limits, ts)
  }

  /** Close the failure episode once it has lasted an interval. */
  function MaybeRecover(h: Health, limits: Limits, now: Duration): Health {
    if h.failedSince.Some? && Since(now, h.failedSince.value) >= limits.maintenanceInterval
    then h.(failedSince := None) else h
  }

  /** Whether a maintenance call at `now` does any work. */
  predicate Due(log: Log, limits: Limits, now: Duration) {
    && (log.Unavailable() || AnyPending(log.pending) || AnyNotice(log.store.retention) || log.store.tailInvalid)
    && (log.lastMaintenance.Some? ==>
          Since(now, log.lastMaintenance.value) >= Since(limits.maintenanceInterval, MAINTENANCE_SLACK))
  }

  function MaintainLog(o: Oracle, log: Log, limits: Limits, now: Duration, ts: I64): (r: (Log, Outcome))
    requires log.Formed()
    ensures r.0.Formed() && r.0.store.Like(log.store)
  {
    if !Due(log, limits, now) then (log, Maintained)
    else
      var (l, r) := FlushPending(o, log.(lastMaintenance := Some(now)), limits, ts);
      if r.Ok? then (l.(health := MaybeRecover(l.health, limits, now)), Maintained)
      else (l.(health := NoteFailure(l.health, r.error, now, 0)), Failed(r.error))
  }

  // ----- Runs --------------------------------------------------------------

  datatype Call = AppendCall(ev: AuditEvent, now: Duration) | MaintainCall(now: Duration, ts: I64)

  function Step(o: Oracle, log: Log, limits: Limits, c: Call): (r: (Log, Outcome))
    requires log.Formed()
    ensures r.0.Formed() && r.0.store.Like(log.store)
  {
    match c
    case AppendCall(ev, now) => AppendEvent(o, log, limits, ev, now)
    case MaintainCall(now, ts) => MaintainLog(o, log, limits, now, ts)
  }

  /** The log after a run of calls, and the outcome of each. */
  function Run(o: Oracle, log: Log, limits: Limits, calls: seq<Call>): (r: (Log, seq<Outcome>))
    requires log.Formed()
    ensures r.0.Formed() && r.0.store.Like(log.store) && |r.1| == |calls|
    decreases |calls|
  {
    if calls == [] then (log, [])
    else
      var (l, outs) := Run(o, log, limits, calls[..|calls| - 1]);
      var (l', out) := Step(o, l, limits, calls[|calls| - 1]);
      (l', outs + [out])
  }
}

/** What a reader finds in the audit files: the recorded events, and the summaries of what was omitted. */
module AuditReports {
  import opened Prelude
  import opened AuditEncoding
  import opened AuditStorage
  import opened AuditHistory
  import opened AuditLog
  import opened AuditRuns
  import opened TokenBucket
  import Reading = AuditReading

  /** In every production run, under every fault, an event reported as recorded is read back from the files, in its
      place, with its own timestamp, kind, operator and detail (cut only at 64 and 1,024 bytes), unless it was
      dropped with an oldest archive. */
  lemma RecordedEventIsReadable(o: Oracle, start: Duration, calls: seq<Call>, k: nat)
    requires WasRecorded(o, PRODUCTION, start, calls, k)
    ensures var d := After(o, PRODUCTION, start, calls).store.disk; var ev := calls[k].ev;
            var i := Position(o, PRODUCTION, start, calls, k) - |d.dropped|;
            i >= 0 ==>
              && i < |ReadFrom(d.slots, 0)|
              && Reading.ReadLine(ReadFrom(d.slots, 0)[i])
                 == Some(Reading.Row(ev.ts, ev.kind,
                                     if ev.operator.Some? then Some(TruncateField(ev.operator.value, 64)) else None,
                                     TruncateField(ev.detail, 1024)))
  {
    hide Reading.ReadLine, TruncateField, EncodeRecord, Run, ReadFrom;
    RecordedStays(o, PRODUCTION, start, calls, k);
    Reading.ProductionReadsBack(calls[k].ev);
  }

  lemma CutTextFits(slot: nat, n: Notice)
    requires slot <= U64_MAX
    ensures |RetentionDetail(slot, n)| <= 1024
  {
    DecimalBound(slot);
    DecimalBound(n.discardedBytes);
    hide Decimal;
  }

  /** In every production run each confirmed summary is a landed record from which its report is read back: the six
      counts kind by kind, or the slot, the reason and the bytes of a cut. */
  lemma SummaryIsReadable(o: Oracle, start: Duration, calls: seq<Call>, i: nat)
    requires i < |After(o, PRODUCTION, start, calls).confirmed|
    ensures var l := After(o, PRODUCTION, start, calls); var c := l.confirmed[i];
            && c.line in l.store.disk.landed
            && (c.CountsReported? && |c.counts| == 6 ==>
                  Reads(c, CountsDetail(c.counts))
                  && Reading.ReadCounts(CountsDetail(c.counts)) == Some(Reading.Told(c.counts, 0)))
            && (c.CutReported? && c.slot <= U64_MAX ==>
                  Reads(c, RetentionDetail(c.slot, c.notice))
                  && Reading.ReadCut(RetentionDetail(c.slot, c.notice))
                     == Some(Reading.Cut(c.slot, c.notice.reset, c.notice.discardedBytes)))
  {
    hide Reading.ReadCounts, Reading.ReadCut, Reading.Told, CountsDetail, RetentionDetail, Run;
    SummariesLand(o, PRODUCTION, start, calls, i);
    var c := After(o, PRODUCTION, start, calls).confirmed[i];
    if c.CountsReported? && |c.counts| == 6 {
      CountsDetailFits(c.counts);
      Reading.CountsReadBack(c.counts);
      WholeTextReads(c, CountsDetail(c.counts));
    } else if c.CutReported? && c.slot <= U64_MAX {
      CutTextFits(c.slot, c.notice);
      Reading.CutReadsBack(c.slot, c.notice);
      WholeTextReads(c, RetentionDetail(c.slot, c.notice));
    }
  }

  /** The summary's record reads back as a summary with this text. */
  predicate Reads(c: Confirmation, text: Bytes) {
    Reading.ReadLine(c.line) == Some(Reading.Row(c.ts, Summary, None, text))
  }

  lemma WholeTextReads(c: Confirmation, text: Bytes)
    requires EncodeRecord(SummaryEvent(c.ts, text), PRODUCTION) == Ok(c.line) && |text| <= 1024
    ensures Reads(c, text)
  {
    hide Reading.ReadLine, EncodeRecord;
    Reading.ProductionReadsBack(SummaryEvent(c.ts, text));
  }
}

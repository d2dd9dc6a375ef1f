/** One audit event as one bounded JSONL record: field truncation on UTF-8 boundaries, JSON escaping,
    the summary texts, and the halving loop that keeps a record within its cap. */
module AuditEncoding {
  import opened Prelude

  type Bytes = seq<Byte>

  const NEWLINE: Byte := 10
  const TRUNCATION_MARKER: string := "...[truncated]"

  datatype Kind = Armed | Disarmed | TxRequested | TxDenied | LocalKill | LocalConsentChanged | Summary

  /** The caller-supplied kinds, in bucket and counter order. */
  const EVENT_KINDS: seq<Kind> := [Armed, Disarmed, TxRequested, TxDenied, LocalKill, LocalConsentChanged]

  function KindIndex(k: Kind): Option<nat> {
    match k
    case Armed => Some(0) case Disarmed => Some(1) case TxRequested => Some(2)
    case TxDenied => Some(3) case LocalKill => Some(4) case LocalConsentChanged => Some(5)
    case Summary => None
  }

  lemma IndexOfKind(k: Kind, i: nat)
    requires i < 6
    ensures KindIndex(k) == Some(i) <==> k == EVENT_KINDS[i]
    ensures KindIndex(k).Some? ==> KindIndex(k).value < 6
  {}

  function KindName(k: Kind): string {
    match k
    case Armed => "Armed" case Disarmed => "Disarmed" case TxRequested => "TxRequested"
    case TxDenied => "TxDenied" case LocalKill => "LocalKill"
    case LocalConsentChanged => "LocalConsentChanged" case Summary => "Summary"
  }

  datatype AuditEvent = AuditEvent(ts: I64, kind: Kind, operator: Option<Bytes>, detail: Bytes)

  datatype Limits = Limits(
    maxFileBytes: nat, archives: nat, maxOperatorBytes: nat, maxDetailBytes: nat, maxRecordBytes: nat,
    burst: U32, refillPerSec: U32, maintenanceInterval: nat)

  const PRODUCTION: Limits := Limits(1_048_576, 3, 64, 1024, 8192, 20, 10, 5_000_000_000)

  function Ascii(s: string): (r: Bytes)
    ensures |r| == |s|
  {
    seq(|s|, i requires 0 <= i < |s| => (s[i] as int) % 256)
  }

  // ----- UTF-8 boundaries --------------------------------------------------

  predicate Continuation(b: Byte) { 0x80 <= b < 0xC0 }

  /** `str::is_char_boundary`. */
  predicate Boundary(s: Bytes, i: nat) { i == 0 || i == |s| || (i < |s| && !Continuation(s[i])) }

  /** The largest boundary at or below `k`. */
  function BoundaryAtMost(s: Bytes, k: nat): (e: nat)
    ensures e <= k && Boundary(s, e)
  {
    if Boundary(s, k) then k else BoundaryAtMost(s, k - 1)
  }

  /** Cap `s` at `cap` bytes, ending in the marker when cut and when the marker fits. */
  function TruncateField(s: Bytes, cap: nat): (r: Bytes)
    ensures |r| <= cap
    ensures |s| <= cap ==> r == s
  {
    var marker := Ascii(TRUNCATION_MARKER);
    if |s| <= cap then s
    else if cap >= |marker| then s[..BoundaryAtMost(s, cap - |marker|)] + marker
    else s[..BoundaryAtMost(s, cap)]
  }

  /** The source's backward search for a boundary. */
  method TruncateFieldLoop(s: Bytes, cap: nat) returns (r: Bytes)
    ensures r == TruncateField(s, cap)
  {
    if |s| <= cap { return s; }
    var marker := Ascii(TRUNCATION_MARKER);
    var keep := cap;
    if cap >= |marker| { keep := cap - |marker|; } else { marker := []; }
    var end := keep;
    while !Boundary(s, end)
      invariant 0 <= end <= keep && BoundaryAtMost(s, keep) == BoundaryAtMost(s, end)
      decreases end
    {
      end := end - 1;
    }
    return s[..end] + marker;
  }

  /** One encoded code point: one to four bytes, only the first not a continuation byte. */
  predicate IsCode(c: Bytes) {
    1 <= |c| <= 4 && !Continuation(c[0]) && forall i :: 1 <= i < |c| ==> Continuation(c[i])
  }

  predicate IsText(t: seq<Bytes>) { forall i :: 0 <= i < |t| ==> IsCode(t[i]) }

  function Flatten(t: seq<Bytes>): Bytes { if t == [] then [] else t[0] + Flatten(t[1..]) }

  /** How many whole code points fit in `k` bytes. */
  function Fitting(t: seq<Bytes>, k: nat): (n: nat)
    ensures n <= |t|
  {
    if t == [] || |t[0]| > k then 0 else 1 + Fitting(t[1..], k - |t[0]|)
  }

  lemma OnlyBoundary(s: Bytes, k: nat, e: nat)
    requires e <= k && Boundary(s, e) && forall i :: e < i <= k ==> !Boundary(s, i)
    ensures BoundaryAtMost(s, k) == e
  {
    if e < k { OnlyBoundary(s, k - 1, e); }
  }

  /** In valid UTF-8 the boundary found is the end of the longest run of whole code points that fits. */
  lemma {:induction false} BoundaryIsLongestFit(t: seq<Bytes>, k: nat)
    requires IsText(t) && k <= |Flatten(t)|
    ensures BoundaryAtMost(Flatten(t), k) == |Flatten(t[..Fitting(t, k)])|
    ensures Flatten(t)[..BoundaryAtMost(Flatten(t), k)] == Flatten(t[..Fitting(t, k)])
  {
    var s := Flatten(t);
    if t == [] {
    } else if |t[0]| > k {
      assert IsCode(t[0]) && t[..0] == [];
      OnlyBoundary(s, k, 0);
    } else {
      var rest, c := t[1..], |t[0]|;
      BoundaryIsLongestFit(rest, k - c);
      BoundaryShift(t, k);
      var n := Fitting(t, k);
      assert t[..n][0] == t[0] && t[..n][1..] == rest[..n - 1];
    }
  }

  /** Boundaries past the first code point are those of the rest. */
  lemma {:induction false} BoundaryShift(t: seq<Bytes>, k: nat)
    requires IsText(t) && t != [] && |t[0]| <= k <= |Flatten(t)|
    ensures BoundaryAtMost(Flatten(t), k) == |t[0]| + BoundaryAtMost(Flatten(t[1..]), k - |t[0]|)
    decreases k
  {
    var s, rest, c := Flatten(t), Flatten(t[1..]), |t[0]|;
    if k == c {
      if c < |s| {
        assert t[1..] != [] && IsCode(t[1]);
        assert s[c] == rest[0] == t[1][0];
      }
    } else {
      if k < |s| { assert s[k] == rest[k - c]; }
      assert Boundary(s, k) <==> Boundary(rest, k - c);
      if !Boundary(s, k) { BoundaryShift(t, k - 1); }
    }
  }

  /** Truncating text keeps whole code points, within the cap, and drops fewer than four bytes that would
      still have fitted. */
  lemma TruncationKeepsText(t: seq<Bytes>, cap: nat)
    requires IsText(t) && |Flatten(t)| > cap
    ensures var marker := if cap >= 14 then Ascii(TRUNCATION_MARKER) else [];
            var keep := cap - |marker|;
            && TruncateField(Flatten(t), cap) == Flatten(t[..Fitting(t, keep)]) + marker
            && keep - 3 <= |Flatten(t[..Fitting(t, keep)])| <= keep
  {
    var marker := if cap >= 14 then Ascii(TRUNCATION_MARKER) else [];
    var keep := cap - |marker|;
    BoundaryIsLongestFit(t, keep);
    FitIsTight(t, keep);
    assert Flatten(t[..Fitting(t, keep)]) + [] == Flatten(t[..Fitting(t, keep)]);
  }

  lemma {:induction false} FitIsTight(t: seq<Bytes>, k: nat)
    requires IsText(t) && k < |Flatten(t)|
    ensures k - 3 <= |Flatten(t[..Fitting(t, k)])| <= k
  {
    if |t[0]| > k {
      assert IsCode(t[0]) && t[..0] == [];
    } else {
      FitIsTight(t[1..], k - |t[0]|);
      var n := Fitting(t, k);
      assert t[..n][0] == t[0] && t[..n][1..] == t[1..][..n - 1];
    }
  }

  // ----- JSON --------------------------------------------------------------

  function HexDigit(n: nat): Byte
    requires n < 16
  {
    if n < 10 then 48 + n else 87 + n
  }

  /** `serde_json`'s escape of one byte of a string. */
  function EscapeByte(b: Byte): (r: Bytes)
    ensures 1 <= |r| <= 6
    ensures forall i :: 0 <= i < |r| ==> r[i] >= 32
  {
    if b == 34 then [92, 34]
    else if b == 92 then [92, 92]
    else if b == 8 then [92, 98]
    else if b == 9 then [92, 116]
    else if b == 10 then [92, 110]
    else if b == 12 then [92, 102]
    else if b == 13 then [92, 114]
    else if b < 32 then [92, 117, 48, 48, HexDigit(b / 16), HexDigit(b % 16)]
    else [b]
  }

  function Escape(s: Bytes): (r: Bytes)
    ensures |r| <= 6 * |s|
    ensures forall i :: 0 <= i < |r| ==> r[i] >= 32
  {
    if s == [] then [] else EscapeByte(s[0]) + Escape(s[1..])
  }

  function Digits(n: nat): (r: Bytes)
    ensures |r| >= 1 && forall i :: 0 <= i < |r| ==> r[i] >= 32
  {
    if n < 10 then [48 + n] else Digits(n / 10) + [48 + n % 10]
  }

  function Decimal(n: int): (r: Bytes)
    ensures forall i :: 0 <= i < |r| ==> r[i] >= 32
  {
    if n < 0 then [45] + Digits(-n) else Digits(n)
  }

  function Pow10(k: nat): (p: nat)
    ensures p >= 1
  {
    if k == 0 then 1 else 10 * Pow10(k - 1)
  }

  lemma {:induction false} DigitsBound(n: nat, k: nat)
    requires k >= 1 && n < Pow10(k)
    ensures |Digits(n)| <= k
    decreases k
  {
    if n >= 10 { DigitsBound(n / 10, k - 1); }
  }

  lemma Pow10At(k: nat)
    requires k == 19 || k == 20
    ensures Pow10(19) == 10_000_000_000_000_000_000
    ensures Pow10(20) == 100_000_000_000_000_000_000
  {
    assert Pow10(4) == 10_000;
    assert Pow10(8) == 100_000_000;
    assert Pow10(12) == 1_000_000_000_000;
    assert Pow10(16) == 10_000_000_000_000_000;
  }

  /** A 64-bit number, signed or not, takes at most twenty characters. */
  lemma DecimalBound(n: int)
    requires I64_MIN <= n <= U64_MAX
    ensures |Decimal(n)| <= 20
  {
    Pow10At(20);
    if n < 0 { DigitsBound(-n, 19); } else { DigitsBound(n, 20); }
  }

  function JsonHead(ev: AuditEvent): Bytes {
    Ascii("{\"ts_unix_ms\":") + Decimal(ev.ts) + Ascii(",\"kind\":\"") + Ascii(KindName(ev.kind)) + Ascii("\"")
  }

  function JsonOperator(operator: Option<Bytes>): Bytes {
    Ascii(",\"operator_callsign\":")
    + if operator.Some? then Ascii("\"") + Escape(operator.value) + Ascii("\"") else Ascii("null")
  }

  function JsonDetail(detail: Bytes): Bytes { Ascii(",\"detail\":\"") + Escape(detail) + Ascii("\"}") }

  function JsonLine(ev: AuditEvent, operator: Option<Bytes>, detail: Bytes): Bytes {
    JsonHead(ev) + JsonOperator(operator) + JsonDetail(detail) + [NEWLINE]
  }

  /** One line: a newline at the end and nowhere else. */
  predicate IsRecord(b: Bytes) {
    |b| > 0 && b[|b| - 1] == NEWLINE && Plain(b[..|b| - 1])
  }

  predicate Plain(b: Bytes) { forall i :: 0 <= i < |b| ==> b[i] != NEWLINE }

  lemma PlainKindName(k: Kind)
    ensures Plain(Ascii(KindName(k)))
  {}

  lemma PlainHead(ev: AuditEvent)
    ensures Plain(JsonHead(ev))
  {
    var a, b := Ascii("{\"ts_unix_ms\":") + Decimal(ev.ts), Ascii(",\"kind\":\"");
    PlainKindName(ev.kind);
    PlainJoin(a, b);
    PlainJoin(a + b, Ascii(KindName(ev.kind)));
    PlainJoin(a + b + Ascii(KindName(ev.kind)), Ascii("\""));
  }

  lemma PlainOperator(operator: Option<Bytes>)
    ensures Plain(JsonOperator(operator))
  {}

  lemma PlainDetail(detail: Bytes)
    ensures Plain(JsonDetail(detail))
  {}

  lemma PlainJoin(a: Bytes, b: Bytes)
    requires Plain(a) && Plain(b)
    ensures Plain(a + b)
  {}

  /** Escaping leaves no raw newline, so every rendered event is exactly one line. */
  lemma LineIsRecord(ev: AuditEvent, operator: Option<Bytes>, detail: Bytes)
    ensures IsRecord(JsonLine(ev, operator, detail))
  {
    PlainHead(ev);
    PlainOperator(operator);
    PlainDetail(detail);
    PlainJoin(JsonHead(ev), JsonOperator(operator));
    PlainJoin(JsonHead(ev) + JsonOperator(operator), JsonDetail(detail));
    var line := JsonLine(ev, operator, detail);
    assert line[..|line| - 1] == JsonHead(ev) + JsonOperator(operator) + JsonDetail(detail);
  }

  lemma LineLength(ev: AuditEvent, operator: Option<Bytes>, detail: Bytes)
    ensures |JsonLine(ev, operator, detail)| <= 100 + 6 * |detail| + if operator.Some? then 6 * |operator.value| else 2
  {
    DecimalBound(ev.ts);
    assert |KindName(ev.kind)| <= 19;
  }

  // ----- The record cap ----------------------------------------------------

  datatype EncodeError = TooLarge

  /** The record with the detail capped at `cap`, or at the first halving of it that fits. */
  function EncodeFrom(ev: AuditEvent, limits: Limits, cap: nat): (r: Result<Bytes, EncodeError>)
    ensures r.Ok? ==> IsRecord(r.value) && |r.value| <= limits.maxRecordBytes
    decreases cap
  {
    var operator := CappedOperator(ev, limits);
    var line := JsonLine(ev, operator, TruncateField(ev.detail, cap));
    LineIsRecord(ev, operator, TruncateField(ev.detail, cap));
    if |line| <= limits.maxRecordBytes then Ok(line)
    else if cap == 0 then Err(TooLarge)
    else EncodeFrom(ev, limits, cap / 2)
  }

  function CappedOperator(ev: AuditEvent, limits: Limits): Option<Bytes> {
    if ev.operator.Some? then Some(TruncateField(ev.operator.value, limits.maxOperatorBytes)) else None
  }

  function EncodeRecord(ev: AuditEvent, limits: Limits): (r: Result<Bytes, EncodeError>)
    ensures r.Ok? ==> IsRecord(r.value) && |r.value| <= limits.maxRecordBytes
  {
    EncodeFrom(ev, limits, limits.maxDetailBytes)
  }

  /** The source's loop: halve the detail cap until the line fits. */
  method EncodeRecordLoop(ev: AuditEvent, limits: Limits) returns (r: Result<Bytes, EncodeError>)
    ensures r == EncodeRecord(ev, limits)
  {
    var operator: Option<Bytes> := None;
    if ev.operator.Some? {
      var op := TruncateFieldLoop(ev.operator.value, limits.maxOperatorBytes);
      operator := Some(op);
    }
    var cap := limits.maxDetailBytes;
    while true
      invariant operator == CappedOperator(ev, limits)
      invariant EncodeRecord(ev, limits) == EncodeFrom(ev, limits, cap)
      decreases cap
    {
      var detail := TruncateFieldLoop(ev.detail, cap);
      var line := JsonLine(ev, operator, detail);
      if |line| <= limits.maxRecordBytes { return Ok(line); }
      if cap == 0 { return Err(TooLarge); }
      cap := cap / 2;
    }
  }

  /** Encoding fails exactly when not even an empty detail fits. */
  lemma {:induction false} EncodeFailsExactlyWhen(ev: AuditEvent, limits: Limits, cap: nat)
    ensures EncodeFrom(ev, limits, cap).Err? <==> |JsonLine(ev, CappedOperator(ev, limits), [])| > limits.maxRecordBytes
    decreases cap
  {
    var operator := CappedOperator(ev, limits);
    var detail := TruncateField(ev.detail, cap);
    EmptyDetailIsShortest(ev, operator, detail);
    if cap == 0 {
      assert detail == [];
    } else {
      EncodeFailsExactlyWhen(ev, limits, cap / 2);
    }
  }

  lemma EmptyDetailIsShortest(ev: AuditEvent, operator: Option<Bytes>, detail: Bytes)
    ensures |JsonLine(ev, operator, [])| <= |JsonLine(ev, operator, detail)|
  {}

  /** Under the production limits every event is encoded on the first pass, whatever its strings escape to:
      the detail is cut only at its own cap. */
  lemma FirstPassFits(ev: AuditEvent)
    ensures EncodeRecord(ev, PRODUCTION)
            == Ok(JsonLine(ev, CappedOperator(ev, PRODUCTION), TruncateField(ev.detail, 1024)))
  {
    LineLength(ev, CappedOperator(ev, PRODUCTION), TruncateField(ev.detail, 1024));
  }

  // ----- Summary texts -----------------------------------------------------

  /** Pending omissions of one kind. */
  datatype KindCounts = KindCounts(coalesced: U64, failed: U64, firstTs: I64, lastTs: I64, saturated: bool) {
    predicate Pending() { coalesced > 0 || failed > 0 }
  }

  const NO_COUNTS: KindCounts := KindCounts(0, 0, 0, 0, false)

  function CountsPart(kind: Kind, c: KindCounts): Bytes {
    Ascii(KindName(kind)) + Ascii(" coalesced=") + Decimal(c.coalesced) + Ascii(" failed=") + Decimal(c.failed)
    + Ascii(" first_ts=") + Decimal(c.firstTs) + Ascii(" last_ts=") + Decimal(c.lastTs)
    + if c.saturated then Ascii(" saturated=true") else []
  }

  /** The parts of the pending kinds from `i` on, each after the first preceded by the separator. */
  function CountsParts(pending: seq<KindCounts>, i: nat, first: bool): Bytes
    requires |pending| == 6
    decreases 6 - i
  {
    if i >= 6 then []
    else if !pending[i].Pending() then CountsParts(pending, i + 1, first)
    else (if first then [] else Ascii("; ")) + CountsPart(EVENT_KINDS[i], pending[i]) + CountsParts(pending, i + 1, false)
  }

  function CountsDetail(pending: seq<KindCounts>): Bytes
    requires |pending| == 6
  {
    Ascii("audit summary: ") + CountsParts(pending, 0, true)
  }

  lemma CountsPartLength(kind: Kind, c: KindCounts)
    ensures |CountsPart(kind, c)| <= |KindName(kind)| + 133
  {
    DecimalBound(c.coalesced);
    DecimalBound(c.failed);
    DecimalBound(c.firstTs);
    DecimalBound(c.lastTs);
  }

  /** Characters the kinds from `i` on can take at most. */
  function CountsRoom(i: nat): nat
    decreases 6 - i
  {
    if i >= 6 then 0 else 2 + |KindName(EVENT_KINDS[i])| + 133 + CountsRoom(i + 1)
  }

  lemma {:induction false} CountsPartsLength(pending: seq<KindCounts>, i: nat, first: bool)
    requires |pending| == 6
    ensures |CountsParts(pending, i, first)| <= CountsRoom(i)
    ensures first && i < 6 ==> |CountsParts(pending, i, first)| + 2 <= CountsRoom(i)
    decreases 6 - i
  {
    if i < 6 {
      CountsPartsLength(pending, i + 1, first);
      CountsPartsLength(pending, i + 1, false);
      CountsPartLength(EVENT_KINDS[i], pending[i]);
    }
  }

  /** A count summary is at most 883 bytes for every value of its counters, so the production detail cap
      never truncates it. */
  lemma CountsDetailFits(pending: seq<KindCounts>)
    requires |pending| == 6
    ensures |CountsDetail(pending)| <= 883
    ensures TruncateField(CountsDetail(pending), PRODUCTION.maxDetailBytes) == CountsDetail(pending)
  {
    CountsPartsLength(pending, 0, true);
    assert CountsRoom(3) == 8 + 9 + 19 + 3 * 135;
    assert CountsRoom(0) == 5 + 8 + 11 + 8 + 9 + 19 + 6 * 135;
  }

  datatype Notice = Notice(discardedBytes: U64, reset: bool, pending: bool)

  const NO_NOTICE: Notice := Notice(0, false, false)

  function RetentionDetail(slot: nat, n: Notice): Bytes {
    Ascii("audit retention: ")
    + Ascii(if n.reset then "reset oversized" else "trimmed incomplete trailing record from")
    + Ascii(" ") + (if slot == 0 then Ascii("active file") else Ascii("archive=") + Decimal(slot))
    + Ascii("; discarded_bytes=") + Decimal(n.discardedBytes)
  }

  function SummaryEvent(ts: I64, detail: Bytes): AuditEvent { AuditEvent(ts, Summary, None, detail) }
}

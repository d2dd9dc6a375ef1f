/** A reader of audit records, defined on its own: what the written lines and summary texts say can be read back. */
module AuditReading {
  import opened Prelude
  import opened AuditEncoding

  // ----- Reading pieces ----------------------------------------------------

  /** `b` begins with the characters of `lit`. */
  predicate Begins(b: Bytes, lit: string) {
    |lit| <= |b| && forall i :: 0 <= i < |lit| ==> b[i] == lit[i] as int
  }

  /** What follows `lit`, if `b` begins with it. */
  function Skip(b: Bytes, lit: string): Option<Bytes> {
    if Begins(b, lit) then Some(b[|lit|..]) else None
  }

  predicate Digit(c: Byte) { 48 <= c < 58 }

  /** The digits at the front, after `n` has been read. */
  function ReadDigits(n: nat, b: Bytes): (nat, Bytes)
    decreases |b|
  {
    if b != [] && Digit(b[0]) then ReadDigits(10 * n + (b[0] - 48), b[1..]) else (n, b)
  }

  /** A decimal number with an optional sign. */
  function ReadInt(b: Bytes): Option<(int, Bytes)> {
    var negative := b != [] && b[0] == 45;
    var digits := if negative then b[1..] else b;
    if digits == [] || !Digit(digits[0]) then None
    else
      var (n, rest) := ReadDigits(0, digits);
      Some((if negative then 0 - (n as int) else n as int, rest))
  }

  function HexValue(c: Byte): Option<nat> {
    if 48 <= c < 58 then Some(c - 48) else if 97 <= c < 103 then Some(c - 87) else None
  }

  /** One escape sequence after its backslash: the byte it stands for and its length. */
  function ReadEscape(b: Bytes): Option<(Byte, nat)> {
    if b == [] then None
    else if b[0] == 34 || b[0] == 92 || b[0] == 47 then Some((b[0], 1))
    else if b[0] == 98 then Some((8, 1))
    else if b[0] == 102 then Some((12, 1))
    else if b[0] == 110 then Some((10, 1))
    else if b[0] == 114 then Some((13, 1))
    else if b[0] == 116 then Some((9, 1))
    else if |b| >= 5 && b[0] == 117 && b[1] == 48 && b[2] == 48 && HexValue(b[3]).Some? && HexValue(b[4]).Some? then
      Some((16 * HexValue(b[3]).value + HexValue(b[4]).value, 5))
    else None
  }

  /** The rest of a JSON string up to its closing quote, and what follows the quote. */
  function ReadString(b: Bytes): Option<(Bytes, Bytes)>
    decreases |b|
  {
    if b == [] || b[0] < 32 then None
    else if b[0] == 34 then Some(([], b[1..]))
    else if b[0] == 92 then
      var e := ReadEscape(b[1..]);
      if e.None? || 1 + e.value.1 > |b| then None
      else
        var r := ReadString(b[1 + e.value.1..]);
        if r.None? then None else Some(([e.value.0] + r.value.0, r.value.1))
    else
      var r := ReadString(b[1..]);
      if r.None? then None else Some(([b[0]] + r.value.0, r.value.1))
  }

  /** What stands before the first quote, and what follows it. */
  function ReadName(b: Bytes): Option<(Bytes, Bytes)> {
    if b == [] then None
    else if b[0] == 34 then Some(([], b[1..]))
    else
      var r := ReadName(b[1..]);
      if r.None? then None else Some(([b[0]] + r.value.0, r.value.1))
  }

  predicate Is(name: Bytes, lit: string) { |name| == |lit| && Begins(name, lit) }

  function KindOf(name: Bytes): Option<Kind> {
    if Is(name, "Armed") then Some(Armed)
    else if Is(name, "Disarmed") then Some(Disarmed)
    else if Is(name, "TxRequested") then Some(TxRequested)
    else if Is(name, "TxDenied") then Some(TxDenied)
    else if Is(name, "LocalKill") then Some(LocalKill)
    else if Is(name, "LocalConsentChanged") then Some(LocalConsentChanged)
    else if Is(name, "Summary") then Some(Summary)
    else None
  }

  function ReadKind(b: Bytes): Option<(Kind, Bytes)> {
    var name := ReadName(b);
    if name.None? || KindOf(name.value.0).None? then None
    else Some((KindOf(name.value.0).value, name.value.1))
  }

  /** A string or `null`. */
  function ReadOptional(b: Bytes): Option<(Option<Bytes>, Bytes)> {
    if Begins(b, "null") then Some((None, b[4..]))
    else if Begins(b, "\"") then
      var r := ReadString(b[1..]);
      if r.None? then None else Some((Some(r.value.0), r.value.1))
    else None
  }

  // ----- Reading a record --------------------------------------------------

  /** One line as an event: the four fields in their order, and nothing after the newline. */
  function ReadHead(b: Bytes): Option<((int, Kind), Bytes)> {
    var b1 := Skip(b, "{\"ts_unix_ms\":");
    if b1.None? then None
    else
      var ts := ReadInt(b1.value);
      if ts.None? then None
      else
        var b2 := Skip(ts.value.1, ",\"kind\":\"");
        if b2.None? then None
        else
          var kind := ReadKind(b2.value);
          if kind.None? then None else Some(((ts.value.0, kind.value.0), kind.value.1))
  }

  /** The operator's key and value. */
  function ReadTailOperator(b: Bytes): Option<(Option<Bytes>, Bytes)> {
    var b1 := Skip(b, ",\"operator_callsign\":");
    if b1.None? then None else ReadOptional(b1.value)
  }

  function ReadTail(b: Bytes): Option<(Option<Bytes>, Bytes)> {
    var operator := ReadTailOperator(b);
    if operator.None? then None
    else
      var b1 := Skip(operator.value.1, ",\"detail\":\"");
      if b1.None? then None
      else
        var detail := ReadString(b1.value);
        if detail.None? || detail.value.1 != [125, NEWLINE] then None
        else Some((operator.value.0, detail.value.0))
  }

  datatype Row = Row(ts: int, kind: Kind, operator: Option<Bytes>, detail: Bytes)

  function ReadLine(b: Bytes): Option<Row> {
    var head := ReadHead(b);
    if head.None? then None
    else
      var tail := ReadTail(head.value.1);
      if tail.None? then None
      else Some(Row(head.value.0.0, head.value.0.1, tail.value.0, tail.value.1))
  }

  // ----- Round trips of the pieces -----------------------------------------

  lemma AsciiBegins(lit: string, rest: Bytes)
    requires forall i :: 0 <= i < |lit| ==> lit[i] as int < 256
    ensures Skip(Ascii(lit) + rest, lit) == Some(rest)
  {
    assert (Ascii(lit) + rest)[|lit|..] == rest;
  }

  lemma {:induction false} DigitsRead(n: nat, rest: Bytes)
    ensures ReadDigits(0, Digits(n) + rest) == ReadDigits(n, rest)
    ensures Digits(n) != [] && Digit(Digits(n)[0])
    decreases n
  {
    if n < 10 {
      assert (Digits(n) + rest)[1..] == rest;
    } else {
      var d := 48 + n % 10;
      DigitsRead(n / 10, [d] + rest);
      assert Digits(n) + rest == Digits(n / 10) + ([d] + rest);
      assert ([d] + rest)[1..] == rest;
    }
  }

  /** A number is read back when no digit follows it. */
  lemma DecimalRead(n: int, rest: Bytes)
    requires rest == [] || !Digit(rest[0])
    ensures ReadInt(Decimal(n) + rest) == Some((n, rest))
  {
    var m := if n < 0 then -n else n;
    DigitsRead(m, rest);
    if n < 0 {
      assert (Decimal(n) + rest)[0] == 45 && (Decimal(n) + rest)[1..] == Digits(m) + rest;
    } else {
      assert (Decimal(n) + rest)[0] == Digits(m)[0];
    }
  }

  lemma EscapeRead(b: Byte, rest: Bytes)
    ensures var e := EscapeByte(b);
            if e[0] == 92 then ReadEscape(e[1..] + rest) == Some((b, |e| - 1)) else e == [b] && b >= 32 && b != 34
  {
    if b < 32 { assert b == 16 * (b / 16) + b % 16 && b / 16 < 2; }
  }

  lemma StringStep(b: Byte, rest: Bytes)
    ensures var r := ReadString(rest);
            r.Some? ==> ReadString(EscapeByte(b) + rest) == Some(([b] + r.value.0, r.value.1))
  {
    var e := EscapeByte(b);
    EscapeRead(b, rest);
    hide EscapeByte, ReadEscape;
    assert (e + rest)[1..] == e[1..] + rest && (e + rest)[|e|..] == rest;
  }

  lemma StringJoin(b: Byte, more: Bytes, tail: Bytes, rest: Bytes)
    requires ReadString(more + [34] + rest) == Some((tail, rest))
    ensures ReadString(EscapeByte(b) + more + [34] + rest) == Some(([b] + tail, rest))
  {
    StringStep(b, more + [34] + rest);
    hide ReadString, EscapeByte;
    assert EscapeByte(b) + more + [34] + rest == EscapeByte(b) + (more + [34] + rest);
  }

  /** An escaped string is read back up to its closing quote, whatever its bytes. */
  lemma {:induction false} StringRead(s: Bytes, rest: Bytes)
    ensures ReadString(Escape(s) + [34] + rest) == Some((s, rest))
  {
    if s == [] {
      assert Escape(s) + [34] + rest == [34] + rest && ([34] + rest)[1..] == rest;
    } else {
      hide ReadString, EscapeByte;
      StringRead(s[1..], rest);
      StringJoin(s[0], Escape(s[1..]), s[1..], rest);
      assert [s[0]] + s[1..] == s;
    }
  }

  predicate Quoteless(b: Bytes) { forall i :: 0 <= i < |b| ==> b[i] != 34 }

  lemma {:induction false} NameRead(name: Bytes, rest: Bytes)
    requires Quoteless(name)
    ensures ReadName(name + [34] + rest) == Some((name, rest))
  {
    if name == [] {
      assert name + [34] + rest == [34] + rest && ([34] + rest)[1..] == rest;
    } else {
      NameRead(name[1..], rest);
      assert (name + [34] + rest)[1..] == name[1..] + [34] + rest && [name[0]] + name[1..] == name;
    }
  }

  lemma KindNamed(k: Kind)
    ensures KindOf(Ascii(KindName(k))) == Some(k)
  {
    var name := Ascii(KindName(k));
    assert k == TxDenied ==> name[0] == 84;
  }

  lemma KindQuoteless(k: Kind)
    ensures Quoteless(Ascii(KindName(k)))
  {}

  lemma KindRead(k: Kind, rest: Bytes)
    ensures ReadKind(Ascii(KindName(k)) + [34] + rest) == Some((k, rest))
  {
    KindNamed(k);
    KindQuoteless(k);
    NameRead(Ascii(KindName(k)), rest);
    hide Ascii, KindOf, KindName;
  }

  // ----- Round trip of a record --------------------------------------------

  lemma HeadRead(ev: AuditEvent, rest: Bytes)
    ensures ReadHead(JsonHead(ev) + rest) == Some(((ev.ts, ev.kind), rest))
  {
    var name := Ascii(KindName(ev.kind)) + [34] + rest;
    var b2 := Ascii(",\"kind\":\"") + name;
    var b1 := Decimal(ev.ts) + b2;
    HeadJoins(ev, rest, name, b2, b1);
    AsciiBegins("{\"ts_unix_ms\":", b1);
    DecimalRead(ev.ts, b2);
    AsciiBegins(",\"kind\":\"", name);
    KindRead(ev.kind, rest);
    hide Ascii, Decimal, KindName, Skip, ReadInt, ReadKind;
  }

  lemma HeadJoins(ev: AuditEvent, rest: Bytes, name: Bytes, b2: Bytes, b1: Bytes)
    requires name == Ascii(KindName(ev.kind)) + [34] + rest
    requires b2 == Ascii(",\"kind\":\"") + name && b1 == Decimal(ev.ts) + b2
    ensures JsonHead(ev) + rest == Ascii("{\"ts_unix_ms\":") + b1 && !Digit(b2[0])
  {
    assert Ascii("\"") == [34];
    assert b2[0] == 44;
    hide Ascii, Decimal, KindName;
    JoinSix(Ascii("{\"ts_unix_ms\":"), Decimal(ev.ts), Ascii(",\"kind\":\""), Ascii(KindName(ev.kind)), [34], rest);
  }

  lemma JoinSix(a: Bytes, d: Bytes, k: Bytes, n: Bytes, q: Bytes, rest: Bytes)
    ensures a + d + k + n + q + rest == a + (d + (k + (n + q + rest)))
  {
    assert a + d + k + n + q + rest == a + d + k + (n + q + rest);
    var w := n + q + rest;
    assert a + d + k + w == a + (d + (k + w));
  }

  lemma OptionalRead(operator: Option<Bytes>, rest: Bytes)
    ensures ReadTailOperator(JsonOperator(operator) + rest) == Some((operator, rest))
  {
    var key := Ascii(",\"operator_callsign\":");
    if operator.Some? {
      var quoted := [34] + (Escape(operator.value) + [34] + rest);
      assert Ascii("\"") == [34];
      assert JsonOperator(operator) + rest == key + quoted;
      AsciiBegins(",\"operator_callsign\":", quoted);
      StringRead(operator.value, rest);
      assert quoted[1..] == Escape(operator.value) + [34] + rest && quoted[0] == 34;
      hide Ascii, Escape, Skip, ReadString;
      assert !Begins(quoted, "null") && Begins(quoted, "\"");
    } else {
      assert JsonOperator(operator) + rest == key + (Ascii("null") + rest);
      AsciiBegins(",\"operator_callsign\":", Ascii("null") + rest);
      AsciiBegins("null", rest);
    }
  }

  lemma DetailJoins(front: Bytes, detail: Bytes, rest: Bytes)
    requires rest == Ascii(",\"detail\":\"") + (Escape(detail) + [34] + [125, NEWLINE])
    ensures front + JsonDetail(detail) + [NEWLINE] == front + rest
  {
    assert Ascii("\"}") == [34, 125];
    hide Ascii, Escape;
    var key, text := Ascii(",\"detail\":\""), Escape(detail);
    assert key + text + [34, 125] + [NEWLINE] == key + (text + [34] + [125, NEWLINE]);
    assert front + (key + text + [34, 125]) + [NEWLINE] == front + (key + text + [34, 125] + [NEWLINE]);
  }

  lemma TailRead(operator: Option<Bytes>, detail: Bytes)
    ensures ReadTail(JsonOperator(operator) + JsonDetail(detail) + [NEWLINE]) == Some((operator, detail))
  {
    hide Ascii, Escape, Skip, ReadTailOperator, ReadString, JsonOperator, JsonDetail;
    var text := Escape(detail) + [34] + [125, NEWLINE];
    var rest := Ascii(",\"detail\":\"") + text;
    DetailJoins(JsonOperator(operator), detail, rest);
    OptionalRead(operator, rest);
    AsciiBegins(",\"detail\":\"", text);
    StringRead(detail, [125, NEWLINE]);
  }

  /** Every rendered event is read back: timestamp, kind, operator and detail, whatever bytes they hold. */
  lemma LineRead(ev: AuditEvent, operator: Option<Bytes>, detail: Bytes)
    ensures ReadLine(JsonLine(ev, operator, detail)) == Some(Row(ev.ts, ev.kind, operator, detail))
  {
    var rest := JsonOperator(operator) + JsonDetail(detail) + [NEWLINE];
    HeadRead(ev, rest);
    TailRead(operator, detail);
    hide ReadHead, ReadTail, JsonHead, JsonOperator, JsonDetail;
    assert JsonLine(ev, operator, detail) == JsonHead(ev) + rest;
  }

  /** `cap` is `from` or a half of it, or a half of that, and so on. */
  predicate Halved(from: nat, cap: nat) {
    cap == from || (from > 0 && Halved(from / 2, cap))
  }

  /** The fields of an event as a record may carry them: the operator cut at its own cap, the detail at `cap`. */
  function Carried(ev: AuditEvent, limits: Limits, cap: nat): Row {
    Row(ev.ts, ev.kind,
        if ev.operator.Some? then Some(TruncateField(ev.operator.value, limits.maxOperatorBytes)) else None,
        TruncateField(ev.detail, cap))
  }

  /** Whether the record fits with the detail cut at `cap`. */
  predicate FitsAt(ev: AuditEvent, limits: Limits, cap: nat) {
    |JsonLine(ev, CappedOperator(ev, limits), TruncateField(ev.detail, cap))| <= limits.maxRecordBytes
  }

  /** The longest cut of the halving chain that fits. */
  ghost predicate LongestFit(ev: AuditEvent, limits: Limits, from: nat, cap: nat) {
    Halved(from, cap) && FitsAt(ev, limits, cap) && forall c: nat :: Halved(from, c) && c > cap ==> !FitsAt(ev, limits, c)
  }

  lemma {:induction false} HalvedBelow(from: nat, cap: nat)
    requires Halved(from, cap)
    ensures cap <= from
    decreases from
  {
    if cap != from { HalvedBelow(from / 2, cap); }
  }

  lemma LongestFitHere(ev: AuditEvent, limits: Limits, from: nat)
    requires FitsAt(ev, limits, from)
    ensures LongestFit(ev, limits, from, from)
  {
    hide FitsAt;
    forall c: nat | Halved(from, c) ensures c <= from { HalvedBelow(from, c); }
  }

  lemma LongestFitLater(ev: AuditEvent, limits: Limits, from: nat, cap: nat)
    requires from > 0 && !FitsAt(ev, limits, from) && LongestFit(ev, limits, from / 2, cap)
    ensures LongestFit(ev, limits, from, cap)
  {
    hide FitsAt;
    forall c: nat | Halved(from, c) && c > cap ensures !FitsAt(ev, limits, c) {
      if c != from { assert Halved(from / 2, c); }
    }
  }

  lemma {:induction false} EncodedRead(ev: AuditEvent, limits: Limits, from: nat) returns (cap: nat)
    requires EncodeFrom(ev, limits, from).Ok?
    ensures LongestFit(ev, limits, from, cap)
    ensures ReadLine(EncodeFrom(ev, limits, from).value) == Some(Carried(ev, limits, cap))
    decreases from
  {
    var operator, detail := CappedOperator(ev, limits), TruncateField(ev.detail, from);
    LineRead(ev, operator, detail);
    assert FitsAt(ev, limits, from) <==> |JsonLine(ev, operator, detail)| <= limits.maxRecordBytes;
    hide ReadLine, JsonLine, TruncateField, FitsAt, LongestFit;
    if FitsAt(ev, limits, from) {
      cap := from;
      LongestFitHere(ev, limits, from);
    } else {
      cap := EncodedRead(ev, limits, from / 2);
      LongestFitLater(ev, limits, from, cap);
    }
  }

  /** The round trip: a record that was encoded reads back as its event, with the operator cut at its cap and the
      detail at the longest halving of its cap with which the record fits. */
  lemma RecordReadsBack(ev: AuditEvent, limits: Limits)
    requires EncodeRecord(ev, limits).Ok?
    ensures exists cap :: LongestFit(ev, limits, limits.maxDetailBytes, cap)
                          && ReadLine(EncodeRecord(ev, limits).value) == Some(Carried(ev, limits, cap))
  {
    var cap := EncodedRead(ev, limits, limits.maxDetailBytes);
    hide LongestFit, ReadLine, Carried, EncodeFrom;
  }

  /** Under the production limits the detail is cut at 1,024 bytes and the operator at 64, nothing else is lost. */
  lemma ProductionReadsBack(ev: AuditEvent)
    ensures EncodeRecord(ev, PRODUCTION).Ok?
    ensures ReadLine(EncodeRecord(ev, PRODUCTION).value)
            == Some(Row(ev.ts, ev.kind,
                        if ev.operator.Some? then Some(TruncateField(ev.operator.value, 64)) else None,
                        TruncateField(ev.detail, 1024)))
  {
    FirstPassFits(ev);
    LineRead(ev, CappedOperator(ev, PRODUCTION), TruncateField(ev.detail, 1024));
    hide ReadLine, JsonLine, TruncateField, EncodeRecord;
  }

  // ----- Reading a summary -------------------------------------------------

  /** The counts of one kind as a summary tells them. */
  datatype Tally = Tally(coalesced: int, failed: int, firstTs: int, lastTs: int, saturated: bool)

  /** A key and the number after it. */
  function ReadField(b: Bytes, key: string): Option<(int, Bytes)> {
    var b1 := Skip(b, key);
    if b1.None? then None else ReadInt(b1.value)
  }

  /** The counts after a kind's name. */
  function ReadTally(b: Bytes): Option<(Tally, Bytes)> {
    var coalesced := ReadField(b, " coalesced=");
    if coalesced.None? then None
    else
      var failed := ReadField(coalesced.value.1, " failed=");
      if failed.None? then None
      else
        var first := ReadField(failed.value.1, " first_ts=");
        if first.None? then None
        else
          var last := ReadField(first.value.1, " last_ts=");
          if last.None? then None
          else
            var flag := Skip(last.value.1, " saturated=true");
            Some((Tally(coalesced.value.0, failed.value.0, first.value.0, last.value.0, flag.Some?),
                  if flag.Some? then flag.value else last.value.1))
  }

  const NAMES: seq<string> :=
    ["Armed", "Disarmed", "TxRequested", "TxDenied", "LocalKill", "LocalConsentChanged"]

  /** The parts of a count summary for the kinds from `i` on; a kind that is not mentioned has no tally. */
  function ReadParts(b: Bytes, i: nat, first: bool): Option<seq<Option<Tally>>>
    requires i <= 6
    decreases 6 - i
  {
    if i == 6 then if b == [] then Some([]) else None
    else
      var b1 := if first then Some(b) else Skip(b, "; ");
      var b2 := if b1.None? then None else Skip(b1.value, NAMES[i]);
      if b2.None? then Cons(None, ReadParts(b, i + 1, first))
      else
        var t := ReadTally(b2.value);
        if t.None? then None else Cons(Some(t.value.0), ReadParts(t.value.1, i + 1, false))
  }

  function Cons(t: Option<Tally>, rest: Option<seq<Option<Tally>>>): Option<seq<Option<Tally>>> {
    if rest.None? then None else Some([t] + rest.value)
  }

  function ReadCounts(b: Bytes): Option<seq<Option<Tally>>> {
    var b1 := Skip(b, "audit summary: ");
    if b1.None? then None else ReadParts(b1.value, 0, true)
  }

  /** What a summary of these counts has to tell. */
  function Told(pending: seq<KindCounts>, i: nat): seq<Option<Tally>>
    requires i <= 6 == |pending|
    decreases 6 - i
  {
    if i == 6 then []
    else
      var c := pending[i];
      [if c.Pending() then Some(Tally(c.coalesced, c.failed, c.firstTs, c.lastTs, c.saturated)) else None]
      + Told(pending, i + 1)
  }

  predicate Printable(key: string) { forall i :: 0 <= i < |key| ==> key[i] as int < 256 }

  lemma FieldRead(key: string, n: int, rest: Bytes)
    requires Printable(key) && (rest == [] || !Digit(rest[0]))
    ensures ReadField(Ascii(key) + (Decimal(n) + rest), key) == Some((n, rest))
  {
    AsciiBegins(key, Decimal(n) + rest);
    DecimalRead(n, rest);
    hide Ascii, Decimal, ReadInt, Skip;
  }

  /** What may stand after a part: nothing, or the separator. */
  predicate AtSeparator(b: Bytes) { b == [] || b[0] == 59 }

  function Flag(c: KindCounts): Bytes { if c.saturated then Ascii(" saturated=true") else [] }

  /** The part of a kind after its name, as nested pieces. */
  function Nested(c: KindCounts, rest: Bytes): Bytes {
    Ascii(" coalesced=") + (Decimal(c.coalesced) + (Ascii(" failed=") + (Decimal(c.failed)
    + (Ascii(" first_ts=") + (Decimal(c.firstTs) + (Ascii(" last_ts=") + (Decimal(c.lastTs) + (Flag(c) + rest))))))))
  }

  lemma PartNests(kind: Kind, c: KindCounts, rest: Bytes)
    ensures CountsPart(kind, c) + rest == Ascii(KindName(kind)) + Nested(c, rest)
  {
    var name, a, f, t, l := Ascii(KindName(kind)), Ascii(" coalesced="), Ascii(" failed="), Ascii(" first_ts="), Ascii(" last_ts=");
    var flag := Flag(c);
    assert CountsPart(kind, c)
        == name + a + Decimal(c.coalesced) + f + Decimal(c.failed) + t + Decimal(c.firstTs) + l + Decimal(c.lastTs) + flag;
    hide Ascii, Decimal, KindName, CountsPart, Flag;
    JoinNine(name, a, Decimal(c.coalesced), f, Decimal(c.failed), t, Decimal(c.firstTs), l, Decimal(c.lastTs), flag, rest);
  }

  lemma JoinNine(n: Bytes, a: Bytes, p: Bytes, f: Bytes, q: Bytes, t: Bytes, r: Bytes, l: Bytes, s: Bytes, e: Bytes, z: Bytes)
    ensures n + a + p + f + q + t + r + l + s + e + z == n + (a + (p + (f + (q + (t + (r + (l + (s + (e + z)))))))))
  {
    assert n + a + p + f + q + t + r + l + s + e + z == n + a + p + f + q + (t + (r + (l + (s + (e + z)))));
    var w := t + (r + (l + (s + (e + z))));
    assert n + a + p + f + q + w == n + (a + (p + (f + (q + w))));
  }

  lemma FlagRead(c: KindCounts, rest: Bytes)
    requires AtSeparator(rest)
    ensures Skip(Flag(c) + rest, " saturated=true") == (if c.saturated then Some(rest) else None)
    ensures Flag(c) + rest == [] || !Digit((Flag(c) + rest)[0])
    ensures c.saturated || Flag(c) + rest == rest
  {
    if c.saturated {
      AsciiBegins(" saturated=true", rest);
      assert (Flag(c) + rest)[0] == 32;
    } else {
      assert Flag(c) + rest == rest;
    }
  }

  lemma KeyFirst(key: string, rest: Bytes)
    requires Printable(key) && key != [] && key[0] == ' '
    ensures !Digit((Ascii(key) + rest)[0])
  {}

  lemma TallyRead(c: KindCounts, rest: Bytes)
    requires AtSeparator(rest)
    ensures ReadTally(Nested(c, rest)) == Some((Tally(c.coalesced, c.failed, c.firstTs, c.lastTs, c.saturated), rest))
  {
    hide Ascii, Decimal, Skip, ReadField, Flag;
    var b4 := Flag(c) + rest;
    var b3 := Ascii(" last_ts=") + (Decimal(c.lastTs) + b4);
    var b2 := Ascii(" first_ts=") + (Decimal(c.firstTs) + b3);
    var b1 := Ascii(" failed=") + (Decimal(c.failed) + b2);
    FlagRead(c, rest);
    KeyFirst(" last_ts=", Decimal(c.lastTs) + b4);
    KeyFirst(" first_ts=", Decimal(c.firstTs) + b3);
    KeyFirst(" failed=", Decimal(c.failed) + b2);
    FieldRead(" last_ts=", c.lastTs, b4);
    FieldRead(" first_ts=", c.firstTs, b3);
    FieldRead(" failed=", c.failed, b2);
    FieldRead(" coalesced=", c.coalesced, b1);
  }

  /** The names of two kinds differ at this position. */
  function DiffersAt(i: nat, j: nat): nat { if i == 2 && j == 3 then 2 else if i == 4 && j == 5 then 5 else 0 }

  lemma NamesDiffer(i: nat, j: nat)
    requires i < j < 6
    ensures var d := DiffersAt(i, j);
            d < |NAMES[i]| && d < |KindName(EVENT_KINDS[j])| && NAMES[i][d] != KindName(EVENT_KINDS[j])[d]
    ensures Printable(NAMES[i])
  {}

  lemma NamesAgree(i: nat)
    requires i < 6
    ensures NAMES[i] == KindName(EVENT_KINDS[i]) && Printable(NAMES[i])
  {}

  /** Text that starts with another kind's name does not start with this one's. */
  lemma OtherName(i: nat, j: nat, rest: Bytes)
    requires i < j < 6
    ensures Skip(Ascii(KindName(EVENT_KINDS[j])) + rest, NAMES[i]).None?
  {
    NamesDiffer(i, j);
    var d := DiffersAt(i, j);
    var b := Ascii(KindName(EVENT_KINDS[j])) + rest;
    assert b[d] == KindName(EVENT_KINDS[j])[d] as int by { NamesAgree(j); }
    assert b[d] != NAMES[i][d] as int;
  }

  /** Text as it stands before the part of a kind. */
  function Unseparated(b: Bytes, first: bool): Option<Bytes> { if first then Some(b) else Skip(b, "; ") }

  lemma {:induction false} NoEarlierName(pending: seq<KindCounts>, i: nat, j: nat, first: bool)
    requires |pending| == 6 && i < j <= 6
    ensures var b := Unseparated(CountsParts(pending, j, first), first);
            b.None? || Skip(b.value, NAMES[i]).None?
    decreases 6 - j
  {
    if j == 6 {
    } else if !pending[j].Pending() {
      hide Skip;
      NoEarlierName(pending, i, j + 1, first);
    } else {
      PartBegins(pending, j, first);
      var more := CountsParts(pending, j + 1, false);
      PartNests(EVENT_KINDS[j], pending[j], more);
      OtherName(i, j, Nested(pending[j], more));
      hide CountsParts, CountsPart, Nested, Ascii, KindName, Skip;
    }
  }

  lemma PartBegins(pending: seq<KindCounts>, j: nat, first: bool)
    requires |pending| == 6 && j < 6 && pending[j].Pending()
    ensures Unseparated(CountsParts(pending, j, first), first)
            == Some(CountsPart(EVENT_KINDS[j], pending[j]) + CountsParts(pending, j + 1, false))
    ensures !first ==> CountsParts(pending, j, first)[0] == 59
  {
    hide CountsPart;
    var part, more := CountsPart(EVENT_KINDS[j], pending[j]), CountsParts(pending, j + 1, false);
    assert CountsParts(pending, j, first) == (if first then [] else Ascii("; ")) + part + more;
    hide CountsParts;
    if first {
      assert [] + part + more == part + more;
    } else {
      assert Ascii("; ") + part + more == Ascii("; ") + (part + more);
      AsciiBegins("; ", part + more);
    }
  }

  lemma {:induction false} PartsAtSeparator(pending: seq<KindCounts>, j: nat)
    requires |pending| == 6 && j <= 6
    ensures AtSeparator(CountsParts(pending, j, false))
    decreases 6 - j
  {
    if j < 6 && pending[j].Pending() {
      PartBegins(pending, j, false);
    } else if j < 6 {
      PartsAtSeparator(pending, j + 1);
    }
  }

  lemma {:induction false} PartsRead(pending: seq<KindCounts>, i: nat, first: bool)
    requires |pending| == 6 && i <= 6
    ensures ReadParts(CountsParts(pending, i, first), i, first) == Some(Told(pending, i))
    decreases 6 - i
  {
    if i < 6 {
      if pending[i].Pending() {
        PartsRead(pending, i + 1, false);
        PendingPartRead(pending, i, first);
      } else {
        PartsRead(pending, i + 1, first);
        NoEarlierName(pending, i, i + 1, first);
        hide Skip;
      }
    }
  }

  lemma PendingPartRead(pending: seq<KindCounts>, i: nat, first: bool)
    requires |pending| == 6 && i < 6 && pending[i].Pending()
    requires ReadParts(CountsParts(pending, i + 1, false), i + 1, false) == Some(Told(pending, i + 1))
    ensures ReadParts(CountsParts(pending, i, first), i, first) == Some(Told(pending, i))
  {
    var c, more := pending[i], CountsParts(pending, i + 1, false);
    PartBegins(pending, i, first);
    PartNests(EVENT_KINDS[i], c, more);
    NamesAgree(i);
    AsciiBegins(NAMES[i], Nested(c, more));
    PartsAtSeparator(pending, i + 1);
    TallyRead(c, more);
    assert Unseparated(CountsParts(pending, i, first), first) == Some(Ascii(NAMES[i]) + Nested(c, more));
    hide CountsParts, CountsPart, Nested, Ascii, KindName, Skip, ReadTally;
  }

  /** A count summary tells exactly the counts it was written from, kind by kind. */
  lemma CountsReadBack(pending: seq<KindCounts>)
    requires |pending| == 6
    ensures ReadCounts(CountsDetail(pending)) == Some(Told(pending, 0))
  {
    hide CountsParts, ReadParts, Told, Skip, Ascii;
    AsciiBegins("audit summary: ", CountsParts(pending, 0, true));
    PartsRead(pending, 0, true);
  }

  // ----- Reading a retention notice ----------------------------------------

  /** What a retention summary tells: the slot, whether it was reset, and the bytes cut from it. */
  datatype Cut = Cut(slot: int, reset: bool, bytes: int)

  /** The file a retention summary is about: slot 0 is the active one. */
  function ReadSlot(b: Bytes): Option<(int, Bytes)> {
    if Begins(b, "active file") then Some((0, b[11..])) else ReadField(b, "archive=")
  }

  /** The action, and whether it was a reset. */
  function ReadAction(b: Bytes): Option<(bool, Bytes)> {
    var reset := Skip(b, "reset oversized");
    var trimmed := Skip(b, "trimmed incomplete trailing record from");
    if reset.Some? then Some((true, reset.value)) else if trimmed.Some? then Some((false, trimmed.value)) else None
  }

  function ReadCut(b: Bytes): Option<Cut> {
    var b1 := Skip(b, "audit retention: ");
    var action := if b1.None? then None else ReadAction(b1.value);
    var b2 := if action.None? then None else Skip(action.value.1, " ");
    var slot := if b2.None? then None else ReadSlot(b2.value);
    var bytes := if slot.None? then None else ReadField(slot.value.1, "; discarded_bytes=");
    if bytes.None? || bytes.value.1 != [] then None else Some(Cut(slot.value.0, action.value.0, bytes.value.0))
  }

  lemma SlotRead(slot: nat, rest: Bytes)
    requires rest != [] && rest[0] == 59
    ensures ReadSlot((if slot == 0 then Ascii("active file") else Ascii("archive=") + Decimal(slot)) + rest) == Some((slot, rest))
  {
    if slot == 0 {
      AsciiBegins("active file", rest);
    } else {
      var b := Ascii("archive=") + (Decimal(slot) + rest);
      assert Ascii("archive=") + Decimal(slot) + rest == b;
      FieldRead("archive=", slot, rest);
      assert b[1] == 114;
    }
  }

  lemma BytesRead(n: int)
    ensures ReadField(Ascii("; discarded_bytes=") + Decimal(n), "; discarded_bytes=") == Some((n, []))
    ensures (Ascii("; discarded_bytes=") + Decimal(n))[0] == 59
  {
    FieldRead("; discarded_bytes=", n, []);
    assert Decimal(n) + [] == Decimal(n);
  }

  function Action(reset: bool): string {
    if reset then "reset oversized" else "trimmed incomplete trailing record from"
  }

  lemma ActionRead(reset: bool, rest: Bytes)
    ensures ReadAction(Ascii(Action(reset)) + rest) == Some((reset, rest))
  {
    if reset {
      AsciiBegins("reset oversized", rest);
    } else {
      AsciiBegins("trimmed incomplete trailing record from", rest);
      assert (Ascii(Action(false)) + rest)[0] == 116;
    }
  }

  lemma CutJoins(a: Bytes, b: Bytes, c: Bytes, d: Bytes, e: Bytes, f: Bytes)
    ensures a + b + c + d + e + f == a + (b + (c + (d + (e + f))))
  {}

  /** A retention summary tells exactly the cut it was written from. */
  lemma CutReadsBack(slot: nat, n: Notice)
    ensures ReadCut(RetentionDetail(slot, n)) == Some(Cut(slot, n.reset, n.discardedBytes))
  {
    hide Ascii, Decimal, Skip, ReadSlot, ReadField, ReadAction;
    var bytes := Ascii("; discarded_bytes=") + Decimal(n.discardedBytes);
    var file := if slot == 0 then Ascii("active file") else Ascii("archive=") + Decimal(slot);
    var b2 := file + bytes;
    var b1 := Ascii(Action(n.reset)) + (Ascii(" ") + b2);
    CutJoins(Ascii("audit retention: "), Ascii(Action(n.reset)), Ascii(" "), file, Ascii("; discarded_bytes="), Decimal(n.discardedBytes));
    assert RetentionDetail(slot, n) == Ascii("audit retention: ") + b1;
    AsciiBegins("audit retention: ", b1);
    ActionRead(n.reset, Ascii(" ") + b2);
    AsciiBegins(" ", b2);
    BytesRead(n.discardedBytes);
    SlotRead(slot, bytes);
  }
}

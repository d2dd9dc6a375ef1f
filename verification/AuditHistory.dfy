/** What the audit files hold, in every run and under every storage fault: reading from the oldest archive down
    to the active file gives the records that reached a file, less those dropped with an oldest archive. */
module AuditHistory {
  import opened Prelude
  import opened AuditEncoding
  import opened AuditStorage

  // ----- Lines -------------------------------------------------------------

  predicate Complete(b: Bytes) { CompleteLen(b) == |b| }

  lemma {:induction false} NewlineWithin(b: Bytes, i: nat)
    requires i < |b| && b[i] == NEWLINE
    ensures CompleteLen(b) > i
    decreases |b|
  {
    if b[|b| - 1] != NEWLINE { NewlineWithin(b[..|b| - 1], i); }
  }

  lemma {:induction false} FirstLineUnique(b: Bytes, n: nat)
    requires 0 < n <= |b| && IsRecord(b[..n])
    ensures CompleteLen(b) >= n && FirstLineLen(b) == n
    decreases n
  {
    assert b[n - 1] == b[..n][n - 1] == NEWLINE;
    NewlineWithin(b, n - 1);
    if n > 1 {
      assert b[0] == b[..n][..n - 1][0];
      assert b[1..][..n - 1] == b[..n][1..];
      assert b[..n][1..][..n - 2] == b[..n][..n - 1][1..];
      CompleteTail(b);
      FirstLineUnique(b[1..], n - 1);
    }
  }

  /** Lines never straddle a join after a complete part. */
  lemma {:induction false} LinesJoin(a: Bytes, b: Bytes)
    requires Complete(a)
    ensures Lines(a + b) == Lines(a) + Lines(b)
    decreases |a|
  {
    if a == [] {
      assert a + b == b;
    } else {
      var n := FirstLineLen(a);
      FirstLineStays(a, b);
      CompleteSuffix(a, n);
      LinesJoin(a[n..], b);
      Reassociate([a[..n]], Lines(a[n..]), Lines(b));
    }
  }

  lemma Reassociate(x: seq<Bytes>, y: seq<Bytes>, z: seq<Bytes>)
    ensures x + (y + z) == (x + y) + z
  {}

  lemma FirstLineStays(a: Bytes, b: Bytes)
    requires Complete(a) && a != []
    ensures var n := FirstLineLen(a);
            Lines(a + b) == [a[..n]] + Lines(a[n..] + b) && Lines(a) == [a[..n]] + Lines(a[n..])
  {
    var n := FirstLineLen(a);
    assert (a + b)[..n] == a[..n] && (a + b)[n..] == a[n..] + b;
    FirstLineUnique(a + b, n);
  }

  lemma CompleteSuffix(a: Bytes, n: nat)
    requires Complete(a) && n <= |a|
    ensures Complete(a[n..])
  {
    assert n < |a| ==> a[n..][|a| - n - 1] == a[|a| - 1];
    CompleteUnique(a[n..], |a| - n);
  }

  /** A whole record is one more line; a proper prefix of one is no line at all. */
  lemma AppendRecord(a: Bytes, line: Bytes)
    requires Complete(a) && IsRecord(line)
    ensures Complete(a + line) && Lines(a + line) == Lines(a) + [line]
  {
    LinesJoin(a, line);
    assert line[..|line|] == line;
    FirstLineUnique(line, |line|);
    assert (a + line)[|a + line| - 1] == NEWLINE;
    CompleteUnique(a + line, |a + line|);
    assert line[|line|..] == [];
    assert Lines(line) == [line];
  }

  lemma AppendPartial(a: Bytes, line: Bytes, k: nat)
    requires Complete(a) && IsRecord(line) && k < |line|
    ensures CompleteLen(a + line[..k]) == |a| && Lines(a + line[..k]) == Lines(a)
  {
    hide Lines;
    var part := line[..k];
    assert part == line[..|line| - 1][..k];
    PlainTail(a, part);
    LinesJoin(a, part);
  }

  lemma PlainTail(a: Bytes, part: Bytes)
    requires Complete(a) && Plain(part)
    ensures CompleteLen(a + part) == |a| && Lines(part) == []
  {
    assert (a + part)[|a|..] == part && part[0..] == part;
    assert |a| > 0 ==> (a + part)[|a| - 1] == a[|a| - 1];
    CompleteUnique(a + part, |a|);
    CompleteUnique(part, 0);
  }

  /** Dropping an unterminated tail loses no line. */
  lemma TrimKeepsLines(b: Bytes)
    ensures Complete(b[..CompleteLen(b)]) && Lines(b[..CompleteLen(b)]) == Lines(b)
  {
    hide Lines;
    var n := CompleteLen(b);
    CompleteUnique(b[..n], n);
    LinesJoin(b[..n], b[n..]);
    PlainTail(b[..n], b[n..]);
    assert b[..n] + b[n..] == b;
  }

  // ----- Reading the files back --------------------------------------------

  /** The lines of slots `i` and up, oldest first. */
  function ReadFrom(slots: seq<Option<Bytes>>, i: nat): seq<Bytes>
    requires i <= |slots|
    decreases |slots| - i
  {
    if i == |slots| then [] else ReadFrom(slots, i + 1) + SlotLines(slots[i])
  }

  lemma {:induction false} SameLinesRead(a: seq<Option<Bytes>>, b: seq<Option<Bytes>>, i: nat)
    requires |a| == |b| && i <= |a| && forall j :: i <= j < |a| ==> SlotLines(a[j]) == SlotLines(b[j])
    ensures ReadFrom(a, i) == ReadFrom(b, i)
    decreases |a| - i
  {
    hide SlotLines;
    if i < |a| { SameLinesRead(a, b, i + 1); }
  }

  /** A rename into a free slot leaves the order of all records unchanged. */
  lemma {:induction false} RenameKeepsRead(slots: seq<Option<Bytes>>, moved: seq<Option<Bytes>>, from: nat, i: nat)
    requires i <= from && from + 1 < |slots| == |moved| && slots[from + 1].None?
    requires moved[from + 1] == slots[from] && moved[from].None?
    requires forall j :: 0 <= j < |slots| && j != from && j != from + 1 ==> moved[j] == slots[j]
    ensures ReadFrom(moved, i) == ReadFrom(slots, i)
    decreases from - i
  {
    assert SlotLines(slots[from + 1]) == [] && SlotLines(moved[from]) == [];
    hide SlotLines;
    if i < from {
      RenameKeepsRead(slots, moved, from, i + 1);
    } else {
      SameLinesRead(moved, slots, from + 2);
      var older, lines := ReadFrom(slots, from + 2), SlotLines(slots[from]);
      assert ReadFrom(slots, from + 1) == older + [] == older && ReadFrom(slots, from) == older + lines;
      assert ReadFrom(moved, from + 1) == older + lines && ReadFrom(moved, from) == older + lines + [];
    }
  }

  /** Without its oldest file, the rest reads as before. */
  lemma {:induction false} RemoveOldestRead(slots: seq<Option<Bytes>>, rest: seq<Option<Bytes>>, i: nat)
    requires i < |slots| == |rest| && rest[|slots| - 1].None?
    requires forall j :: 0 <= j < |slots| - 1 ==> rest[j] == slots[j]
    ensures ReadFrom(slots, i) == SlotLines(slots[|slots| - 1]) + ReadFrom(rest, i)
    decreases |slots| - i
  {
    hide Lines;
    var oldest := SlotLines(slots[|slots| - 1]);
    if i < |slots| - 1 {
      RemoveOldestRead(slots, rest, i + 1);
      Reassociate(oldest, ReadFrom(rest, i + 1), SlotLines(slots[i]));
    } else {
      assert ReadFrom(slots, i + 1) == [] && ReadFrom(rest, i + 1) == [];
    }
  }

  lemma ActiveRead(slots: seq<Option<Bytes>>, b: Option<Bytes>)
    requires |slots| > 0
    ensures ReadFrom(slots[0 := b], 0) == ReadFrom(slots, 1) + SlotLines(b)
  {
    hide SlotLines;
    SameLinesRead(slots[0 := b], slots, 1);
  }

  // ----- The invariant -----------------------------------------------------

  predicate Fits(b: Option<Bytes>, max: nat) { b.Some? ==> |b.value| <= max }

  predicate AllFit(d: Disk, max: nat) { forall i :: 0 <= i < |d.slots| ==> Fits(d.slots[i], max) }

  predicate Whole(b: Option<Bytes>) { b.Some? ==> Complete(b.value) }

  predicate WholeFrom(d: Disk, n: nat) { forall i :: n <= i < |d.slots| ==> Whole(d.slots[i]) }

  /** Nothing is lost, overwritten or removed too soon. */
  ghost predicate Kept(d: Disk) {
    d.landed == d.dropped + ReadFrom(d.slots, 0) && !d.clobbered && !d.removedEarly
  }

  ghost predicate Sound(s: Store, limits: Limits) {
    && Shaped(s) && Kept(s.disk) && AllFit(s.disk, limits.maxFileBytes)
    && WholeFrom(s.disk, if s.tailInvalid then 1 else 0)
  }

  ghost predicate SoundDisk(d: Disk, max: nat) { Kept(d) && AllFit(d, max) && WholeFrom(d, 0) }

  /** History only grows. */
  predicate Grows(d: Disk, d': Disk) { d.landed <= d'.landed && d.dropped <= d'.dropped && d.step <= d'.step }

  // ----- Normalization -----------------------------------------------------

  /** A cut changes one file, its count of cut bytes and its notice, or nothing at all. */
  lemma CutShape(o: Oracle, s: Store, slot: nat, keep: nat, reset: bool)
    requires Shaped(s) && slot < |s.retention| && s.disk.slots[slot].Some? && keep <= s.disk.Len(slot)
    ensures var (s', r) := CutSlot(o, s, slot, keep, reset);
            && OnlyFiles(s, s')
            && (s'.disk.slots == s.disk.slots[slot := Some(s.disk.slots[slot].value[..keep])]
                || (r.Err? && s'.disk.slots == s.disk.slots))
  {}

  predicate OnlyFiles(s: Store, s': Store) {
    && s'.normalized == s.normalized && s'.tailInvalid == s.tailInvalid
    && s'.disk == s.disk.(slots := s'.disk.slots, cut := s'.disk.cut, step := s'.disk.step)
    && s.disk.step <= s'.disk.step
  }

  /** A file within the cap is left alone, except for an unterminated tail of the active one. */
  lemma NormalizeSlotShape(o: Oracle, s: Store, limits: Limits, slot: nat)
    requires Shaped(s) && slot < |s.retention| && Fits(s.disk.slots[slot], limits.maxFileBytes)
    ensures var (s', r) := NormalizeSlot(o, s, limits, slot);
            && OnlyFiles(s, s')
            && (s'.disk.slots == s.disk.slots || (slot == 0 && Trimmed(s.disk, s'.disk)))
            && (r.Ok? && slot == 0 && s.disk.slots[0].Some? ==> Trimmed(s.disk, s'.disk))
  {
    hide CutSlot, CompleteLen;
    if slot == 0 && s.disk.slots[0].Some? {
      var b := s.disk.slots[0].value;
      var s2 := s.(disk := Tick(Tick(s.disk)));
      assert b[..|b|] == b && s.disk.slots[0 := Some(b)] == s.disk.slots;
      CutShape(o, s2, 0, CompleteLen(b), false);
    }
  }

  predicate Trimmed(d: Disk, d': Disk)
    requires |d.slots| > 0
  {
    && d.slots[0].Some?
    && d'.slots == d.slots[0 := Some(d.slots[0].value[..CompleteLen(d.slots[0].value)])]
  }

  lemma TrimmedSound(d: Disk, d': Disk, max: nat)
    requires |d.slots| > 0 && Trimmed(d, d')
    ensures ReadFrom(d'.slots, 0) == ReadFrom(d.slots, 0)
    ensures AllFit(d, max) ==> AllFit(d', max)
    ensures WholeFrom(d, 1) ==> WholeFrom(d', 0)
  {
    var b := d.slots[0].value;
    TrimKeepsLines(b);
    ActiveRead(d.slots, d'.slots[0]);
  }

  lemma NormalizeSlotSound(o: Oracle, s: Store, limits: Limits, slot: nat)
    requires Sound(s, limits) && slot < |s.retention| && (slot > 0 ==> WholeFrom(s.disk, 0))
    ensures var (s', r) := NormalizeSlot(o, s, limits, slot);
            Sound(s', limits) && Grows(s.disk, s'.disk) && (r.Ok? ==> WholeFrom(s'.disk, 0))
  {
    var (s', r) := NormalizeSlot(o, s, limits, slot);
    NormalizeSlotShape(o, s, limits, slot);
    if s'.disk.slots != s.disk.slots || (r.Ok? && slot == 0 && s.disk.slots[0].Some?) {
      TrimmedSound(s.disk, s'.disk, limits.maxFileBytes);
    }
  }

  lemma {:induction false} NormalizeSound(o: Oracle, s: Store, limits: Limits, slot: nat)
    requires Sound(s, limits) && slot <= |s.retention| && (slot > 0 ==> WholeFrom(s.disk, 0))
    ensures var (s', r) := NormalizeFrom(o, s, limits, slot);
            Sound(s', limits) && Grows(s.disk, s'.disk)
    decreases |s.retention| - slot
  {
    hide NormalizeSlot;
    if slot < |s.retention| {
      NormalizeSlotSound(o, s, limits, slot);
      var (s', r) := NormalizeSlot(o, s, limits, slot);
      if r.Ok? { NormalizeSound(o, s', limits, slot + 1); }
    }
  }

  lemma ReadySound(o: Oracle, s: Store, limits: Limits)
    requires Sound(s, limits)
    ensures var (s', r) := Ready(o, s, limits);
            Sound(s', limits) && Grows(s.disk, s'.disk) && (r.Ok? ==> SoundDisk(s'.disk, limits.maxFileBytes))
  {
    if !s.normalized || s.tailInvalid { NormalizeSound(o, s, limits, 0); }
  }

  // ----- Rotation ----------------------------------------------------------

  lemma RenameSound(o: Oracle, d: Disk, from: nat, max: nat)
    requires SoundDisk(d, max) && from + 1 < |d.slots| && d.slots[from + 1].None?
    ensures var (d', r) := RenameUp(o, d, from);
            SoundDisk(d', max) && (r.Ok? ==> d'.slots[from].None?)
  {
    RenameKeepsRead(d.slots, d.slots[from + 1 := d.slots[from]][from := None], from, 0);
  }

  lemma {:induction false} ShiftSound(o: Oracle, d: Disk, top: nat, max: nat)
    requires SoundDisk(d, max) && top < |d.slots| && d.slots[top].None?
    ensures var (d', r) := ShiftUp(o, d, top);
            SoundDisk(d', max) && (r.Ok? ==> d'.slots[0].None?)
    decreases top
  {
    if top > 0 {
      RenameSound(o, d, top - 1, max);
      var (d', r) := RenameUp(o, d, top - 1);
      if r.Ok? { ShiftSound(o, d', top - 1, max); }
    }
  }

  lemma RenameMoves(o: Oracle, d: Disk, from: nat)
    requires from + 1 < |d.slots|
    ensures var d' := RenameUp(o, d, from).0;
            d'.landed == d.landed && d'.dropped == d.dropped && d'.cut == d.cut && d'.step == d.step + 1
  {}

  /** Renames move files; they add, drop and cut nothing. */
  lemma {:induction false} ShiftMoves(o: Oracle, d: Disk, top: nat)
    requires top < |d.slots|
    ensures var d' := ShiftUp(o, d, top).0;
            d'.landed == d.landed && d'.dropped == d.dropped && d'.cut == d.cut && d.step <= d'.step
    decreases top
  {
    if top > 0 {
      RenameMoves(o, d, top - 1);
      hide RenameUp;
      ShiftMoves(o, RenameUp(o, d, top - 1).0, top - 1);
    }
  }

  lemma RemoveSound(o: Oracle, d: Disk, max: nat)
    requires SoundDisk(d, max) && |d.slots| > 1 && ArchivesFull(d)
    ensures var (d', r) := RemoveOldest(o, d);
            && SoundDisk(d', max) && Grows(d, d') && d'.landed == d.landed
            && (r.Ok? ==> d'.slots[|d.slots| - 1].None?)
  {
    hide SlotLines;
    var last := |d.slots| - 1;
    var rest := d.slots[last := None];
    RemoveOldestRead(d.slots, rest, 0);
    Reassociate(d.dropped, SlotLines(d.slots[last]), ReadFrom(rest, 0));
  }

  /** An active file is emptied in place only when there are no archives at all. */
  lemma ResetSound(o: Oracle, d: Disk, max: nat)
    requires SoundDisk(d, max) && |d.slots| == 1
    ensures var (d', r) := Rotate(o, d);
            SoundDisk(d', max) && Grows(d, d') && d'.landed == d.landed && (r.Ok? ==> d'.Len(0) == 0)
  {
    assert Lines([]) == [] && Complete([]);
    hide Lines, CompleteLen;
    ActiveRead(d.slots, d.slots[0]);
    ActiveRead(d.slots, Some([]));
    assert d.slots[0 := d.slots[0]] == d.slots;
    assert ReadFrom(d.slots, 1) == [];
  }

  lemma RotateSound(o: Oracle, d: Disk, max: nat)
    requires SoundDisk(d, max) && |d.slots| > 0
    ensures var (d', r) := Rotate(o, d);
            SoundDisk(d', max) && Grows(d, d') && d'.landed == d.landed && (r.Ok? ==> d'.Len(0) == 0)
  {
    hide ShiftUp, RemoveOldest, FindFree;
    if |d.slots| == 1 {
      ResetSound(o, d, max);
    } else {
      FindFreeGrows(o, d, 1);
      var (d1, free) := FindFree(o, d, 1);
      assert SoundDisk(d1, max);
      if free.Ok? && free.value.Some? {
        ShiftSound(o, d1, free.value.value, max);
        ShiftMoves(o, d1, free.value.value);
      } else if free.Ok? {
        RemoveSound(o, d1, max);
        var (d2, r) := RemoveOldest(o, d1);
        if r.Ok? {
          ShiftSound(o, d2, |d.slots| - 1, max);
          ShiftMoves(o, d2, |d.slots| - 1);
        }
      }
    }
  }

  lemma {:induction false} FindFreeGrows(o: Oracle, d: Disk, slot: nat)
    requires slot <= |d.slots|
    ensures d.step <= FindFree(o, d, slot).0.step
    decreases |d.slots| - slot
  {
    if slot < |d.slots| {
      FindFreeGrows(o, Tick(d), slot + 1);
    }
  }

  // ----- The write transaction ---------------------------------------------

  lemma MakeRoomSound(o: Oracle, d: Disk, limits: Limits, size: nat)
    requires SoundDisk(d, limits.maxFileBytes) && |d.slots| > 0
    ensures var (d', r) := MakeRoom(o, d, limits, size);
            && SoundDisk(d', limits.maxFileBytes) && Grows(d, d') && d'.landed == d.landed
            && (r.Ok? ==> r.value == 0 || r.value + size <= limits.maxFileBytes)
  {
    assert SoundDisk(Tick(d), limits.maxFileBytes);
    RotateSound(o, Tick(d), limits.maxFileBytes);
  }

  lemma OpenSound(o: Oracle, d: Disk, max: nat)
    requires SoundDisk(d, max) && |d.slots| > 0
    ensures var (d', r) := OpenActive(o, d);
            SoundDisk(d', max) && Grows(d, d') && d'.landed == d.landed && d'.dropped == d.dropped
  {
    if d.slots[0].None? {
      SameLinesRead(d.slots, d.slots[0 := Some([])], 0);
    } else {
      assert d.slots[0 := d.slots[0]] == d.slots;
    }
  }

  /** A record written whole is one more landed record, whether or not it was confirmed. */
  lemma WholeRecordLands(d: Disk, line: Bytes, max: nat)
    requires SoundDisk(d, max) && |d.slots| > 0 && d.slots[0].Some? && IsRecord(line) && d.Len(0) + |line| <= max
    ensures SoundDisk(d.Put(0, Some(d.slots[0].value + line)).(landed := d.landed + [line]), max)
  {
    var b := d.slots[0].value;
    AppendRecord(b, line);
    ActiveRead(d.slots, Some(b + line));
    ActiveRead(d.slots, d.slots[0]);
    assert d.slots[0 := d.slots[0]] == d.slots;
  }

  /** A record written in part is no record; the archives are untouched. */
  lemma PartialRecordIsNone(d: Disk, line: Bytes, k: nat, max: nat)
    requires SoundDisk(d, max) && |d.slots| > 0 && d.slots[0].Some? && IsRecord(line) && d.Len(0) + |line| <= max
    requires k < |line|
    ensures var d' := d.Put(0, Some(d.slots[0].value + line[..k]));
            Kept(d') && AllFit(d', max) && WholeFrom(d', 1)
  {
    var b := d.slots[0].value;
    AppendPartial(b, line, k);
    ActiveRead(d.slots, Some(b + line[..k]));
    ActiveRead(d.slots, d.slots[0]);
    assert d.slots[0 := d.slots[0]] == d.slots;
  }

  /** What one append leaves in the active file: all of the record, or a proper part of it after a write error. */
  lemma WriteRecordShape(o: Oracle, d: Disk, line: Bytes)
    requires |d.slots| > 0 && d.slots[0].Some? && |line| > 0
    ensures var (d', r) := WriteRecord(o, d, line);
            && d' == d.(slots := d'.slots, step := d'.step) && d.step <= d'.step
            && (r.Err? && r.error == WriteOp ==>
                  exists k :: 0 <= k < |line| && d'.slots == d.slots[0 := Some(d.slots[0].value + line[..k])])
            && ((r.Err? && r.error == WriteOp) || d'.slots == d.slots[0 := Some(d.slots[0].value + line)])
  {
    if o(d.step).Fail? {
      var k := Min(o(d.step).bytes, |line| - 1);
      assert WriteRecord(o, d, line).0.slots == d.slots[0 := Some(d.slots[0].value + line[..k])];
    }
  }

  ghost predicate Room(d: Disk, line: Bytes, max: nat) {
    |d.slots| > 0 && IsRecord(line) && d.Len(0) + |line| <= max
  }

  lemma CommitSound(o: Oracle, s: Store, limits: Limits, line: Bytes)
    requires Shaped(s) && !s.tailInvalid && SoundDisk(s.disk, limits.maxFileBytes) && Room(s.disk, line, limits.maxFileBytes)
    ensures var (s', r) := Commit(o, s, s.disk.Len(0), line);
            && Sound(s', limits) && Grows(s.disk, s'.disk)
            && (r.Ok? ==> s'.disk.landed == s.disk.landed + [line] && !s'.tailInvalid)
            && s'.normalized == s.normalized && s'.retention == s.retention && s'.disk.cut == s.disk.cut
  {
    hide WriteRecord;
    var max := limits.maxFileBytes;
    OpenSound(o, s.disk, max);
    var (d0, ready) := OpenActive(o, s.disk);
    if ready.Ok? {
      WriteRecordShape(o, d0, line);
      var (d, r) := WriteRecord(o, d0, line);
      if r.Err? && o(d.step).Pass? {
        RollbackSound(d0, d, s.disk.Len(0), line, max);
      } else if r.Err? && r.error == WriteOp {
        var k :| 0 <= k < |line| && d.slots == d0.slots[0 := Some(d0.slots[0].value + line[..k])];
        PartialRecordIsNone(d0, line, k, max);
      } else {
        WholeRecordLands(d0, line, max);
      }
    }
  }

  /** Cutting the active file back to its length before the write undoes the write. */
  lemma RollbackSound(d0: Disk, d: Disk, pre: nat, line: Bytes, max: nat)
    requires SoundDisk(d0, max) && |d0.slots| > 0 && d0.slots[0].Some? && pre == d0.Len(0)
    requires d == d0.(slots := d.slots, step := d.step)
    requires exists x :: d.slots == d0.slots[0 := Some(d0.slots[0].value + x)]
    ensures d.slots[0].Some? && pre <= |d.slots[0].value|
    ensures SoundDisk(d.Put(0, Some(d.slots[0].value[..pre])), max)
  {
    var x :| d.slots == d0.slots[0 := Some(d0.slots[0].value + x)];
    assert (d0.slots[0].value + x)[..pre] == d0.slots[0].value;
    assert d.Put(0, Some(d.slots[0].value[..pre])).slots == d0.slots;
  }

  /** Every write transaction, whatever fails in it, keeps the history; a confirmed one adds its record. */
  lemma WriteSound(o: Oracle, s: Store, limits: Limits, line: Bytes)
    requires Sound(s, limits) && IsRecord(line) && |line| <= limits.maxFileBytes
    ensures var (s', r) := WriteLine(o, s, limits, line);
            && Sound(s', limits) && Grows(s.disk, s'.disk)
            && (r.Ok? ==> s'.disk.landed != [] && s'.disk.landed[|s'.disk.landed| - 1] == line
                          && |s.disk.landed| < |s'.disk.landed|)
  {
    hide Ready, MakeRoom, Commit;
    ReadySound(o, s, limits);
    var (s1, ready) := Ready(o, s, limits);
    if ready.Ok? {
      MakeRoomSound(o, s1.disk, limits, |line|);
      var (d, pre) := MakeRoom(o, s1.disk, limits, |line|);
      if pre.Ok? { CommitSound(o, s1.(disk := d), limits, line); }
    }
  }

  lemma EmptySound(limits: Limits)
    ensures Sound(EmptyStore(limits.archives), limits)
  {
    EmptyReads(EmptyStore(limits.archives).disk.slots, 0);
  }

  lemma {:induction false} EmptyReads(slots: seq<Option<Bytes>>, i: nat)
    requires i <= |slots| && forall j :: 0 <= j < |slots| ==> slots[j].None?
    ensures ReadFrom(slots, i) == []
    decreases |slots| - i
  {
    if i < |slots| { EmptyReads(slots, i + 1); }
  }

  // ----- The byte cap, whatever the files held at the start -----------------

  /** Once normalized, every managed file is within the cap. */
  predicate Bounded(s: Store, limits: Limits) { Shaped(s) && (s.normalized ==> AllFit(s.disk, limits.maxFileBytes)) }

  lemma NormalizeSlotFits(o: Oracle, s: Store, limits: Limits, slot: nat)
    requires Bounded(s, limits) && slot < |s.retention|
    ensures var (s', r) := NormalizeSlot(o, s, limits, slot);
            && Bounded(s', limits) && s'.normalized == s.normalized
            && (forall i :: 0 <= i < |s.retention| && i != slot ==> s'.disk.slots[i] == s.disk.slots[i])
            && (r.Ok? ==> Fits(s'.disk.slots[slot], limits.maxFileBytes))
  {
    hide CompleteLen, CutSlot;
    if s.disk.slots[slot].None? {
    } else if s.disk.Len(slot) > limits.maxFileBytes {
      CutShape(o, s.(disk := Tick(s.disk)), slot, 0, true);
    } else {
      NormalizeSlotShape(o, s, limits, slot);
    }
  }

  lemma {:induction false} NormalizeFits(o: Oracle, s: Store, limits: Limits, slot: nat)
    requires Bounded(s, limits) && slot <= |s.retention|
    requires forall i :: 0 <= i < slot ==> Fits(s.disk.slots[i], limits.maxFileBytes)
    ensures var s' := NormalizeFrom(o, s, limits, slot).0; Bounded(s', limits) && (s.normalized ==> s'.normalized)
    decreases |s.retention| - slot
  {
    hide NormalizeSlot;
    if slot < |s.retention| {
      NormalizeSlotFits(o, s, limits, slot);
      var (s', r) := NormalizeSlot(o, s, limits, slot);
      if r.Ok? { NormalizeFits(o, s', limits, slot + 1); }
    }
  }

  lemma ReadyFits(o: Oracle, s: Store, limits: Limits)
    requires Bounded(s, limits)
    ensures var s' := Ready(o, s, limits).0; Bounded(s', limits) && (s.normalized ==> s'.normalized)
  {
    if !s.normalized || s.tailInvalid { NormalizeFits(o, s, limits, 0); }
  }

  lemma {:induction false} ShiftFits(o: Oracle, d: Disk, top: nat, max: nat)
    requires AllFit(d, max) && top < |d.slots|
    ensures AllFit(ShiftUp(o, d, top).0, max)
    decreases top
  {
    if top > 0 { ShiftFits(o, RenameUp(o, d, top - 1).0, top - 1, max); }
  }

  lemma RotateFits(o: Oracle, d: Disk, max: nat)
    requires AllFit(d, max) && |d.slots| > 0
    ensures AllFit(Rotate(o, d).0, max)
  {
    if |d.slots| > 1 {
      var (d1, free) := FindFree(o, d, 1);
      if free.Ok? && free.value.Some? {
        ShiftFits(o, d1, free.value.value, max);
      } else if free.Ok? {
        ShiftFits(o, RemoveOldest(o, d1).0, |d.slots| - 1, max);
      }
    }
  }

  lemma CommitFits(o: Oracle, s: Store, line: Bytes, max: nat)
    requires Shaped(s) && AllFit(s.disk, max) && |line| > 0 && s.disk.Len(0) + |line| <= max
    ensures var s' := Commit(o, s, s.disk.Len(0), line).0; AllFit(s'.disk, max) && s'.normalized == s.normalized
  {
    hide WriteRecord;
    var (d0, ready) := OpenActive(o, s.disk);
    if ready.Ok? {
      WriteRecordShape(o, d0, line);
    }
  }

  /** A write transaction keeps every normalized file within the cap, also when its rollback fails. */
  lemma WriteFits(o: Oracle, s: Store, limits: Limits, line: Bytes)
    requires Bounded(s, limits) && 0 < |line| <= limits.maxFileBytes
    ensures var s' := WriteLine(o, s, limits, line).0; Bounded(s', limits) && (s.normalized ==> s'.normalized)
  {
    hide Ready, MakeRoom, Commit;
    ReadyFits(o, s, limits);
    var (s1, ready) := Ready(o, s, limits);
    if ready.Ok? {
      MakeRoomFits(o, s1.disk, limits, |line|);
      var (d, pre) := MakeRoom(o, s1.disk, limits, |line|);
      if pre.Ok? { CommitFits(o, s1.(disk := d), line, limits.maxFileBytes); }
    }
  }

  lemma MakeRoomFits(o: Oracle, d: Disk, limits: Limits, size: nat)
    requires |d.slots| > 0 && AllFit(d, limits.maxFileBytes)
    ensures var (d', r) := MakeRoom(o, d, limits, size);
            AllFit(d', limits.maxFileBytes) && (r.Ok? ==> r.value == 0 || r.value + size <= limits.maxFileBytes)
  {
    hide Rotate;
    RotateFits(o, Tick(d), limits.maxFileBytes);
  }

  ghost predicate KeepsCap(limits: Limits, line: Bytes)
    requires |line| > 0
  {
    forall o: Oracle, s :: Bounded(s, limits) ==> Bounded(WriteLine(o, s, limits, line).0, limits)
  }

  /** The cap survives every write of a record exactly when the record fits a file. */
  lemma CapKeptExactlyWhen(limits: Limits, line: Bytes)
    requires |line| > 0
    ensures KeepsCap(limits, line) <==> |line| <= limits.maxFileBytes
  {
    if |line| <= limits.maxFileBytes {
      forall o: Oracle, s | Bounded(s, limits) ensures Bounded(WriteLine(o, s, limits, line).0, limits) {
        WriteFits(o, s, limits, line);
      }
    } else {
      var o: Oracle := _ => Pass;
      var s := EmptyStore(limits.archives).(normalized := true);
      assert Bounded(s, limits);
      var s' := WriteLine(o, s, limits, line).0;
      assert s'.disk.slots[0] == Some([] + line);
      assert !Fits(s'.disk.slots[0], limits.maxFileBytes);
    }
  }

  // ----- Interrupted rotations ---------------------------------------------

  /** A shift that stops part-way leaves a free archive slot behind. */
  lemma {:induction false} ShiftLeavesGap(o: Oracle, d: Disk, top: nat)
    requires 1 <= top < |d.slots| && d.slots[top].None?
    ensures var (d', r) := ShiftUp(o, d, top); r.Err? ==> !ArchivesFull(d')
    decreases top
  {
    var (d', r) := RenameUp(o, d, top - 1);
    if r.Ok? && top > 1 { ShiftLeavesGap(o, d', top - 1); }
  }

  /** One rotation removes an archive only when all are occupied, only the oldest, and a failure after the
      removal leaves a free slot. */
  lemma RotationDropsOnlyWhenFull(o: Oracle, d: Disk)
    requires |d.slots| > 1
    ensures var (d', r) := Rotate(o, d);
            && (d'.dropped == d.dropped
                || (ArchivesFull(d) && d'.dropped == d.dropped + SlotLines(d.slots[|d.slots| - 1])))
            && (r.Err? ==> !ArchivesFull(d') || (d'.dropped == d.dropped && d'.slots == d.slots))
  {
    hide ShiftUp, FindFree, SlotLines;
    var (d1, free) := FindFree(o, d, 1);
    if free.Ok? && free.value.Some? {
      ShiftMoves(o, d1, free.value.value);
      ShiftLeavesGap(o, d1, free.value.value);
    } else if free.Ok? {
      var (d2, r) := RemoveOldest(o, d1);
      if r.Ok? {
        ShiftMoves(o, d2, |d.slots| - 1);
        ShiftLeavesGap(o, d2, |d.slots| - 1);
      }
    }
  }

  /** Rotation tried up to `n` times, until it succeeds. */
  function Attempts(o: Oracle, d: Disk, n: nat): Disk
    requires |d.slots| > 0
    decreases n
  {
    if n == 0 then d
    else
      var (d', r) := Rotate(o, d);
      if r.Ok? then d' else Attempts(o, d', n - 1)
  }

  lemma {:induction false} FreeSlotDropsNothing(o: Oracle, d: Disk, n: nat)
    requires |d.slots| > 1 && !ArchivesFull(d)
    ensures Attempts(o, d, n).dropped == d.dropped
    decreases n
  {
    hide Rotate, SlotLines;
    if n > 0 {
      RotationDropsOnlyWhenFull(o, d);
      var (d', r) := Rotate(o, d);
      if r.Err? { FreeSlotDropsNothing(o, d', n - 1); }
    }
  }

  /** However often a rotation is interrupted and tried again, it costs at most the one oldest archive. */
  lemma {:induction false} RetriedRotationDropsOnce(o: Oracle, d: Disk, n: nat)
    requires |d.slots| > 1
    ensures var d' := Attempts(o, d, n);
            d'.dropped == d.dropped || d'.dropped == d.dropped + SlotLines(d.slots[|d.slots| - 1])
    decreases n
  {
    hide Rotate, SlotLines;
    if n > 0 {
      RotationDropsOnlyWhenFull(o, d);
      var (d', r) := Rotate(o, d);
      if r.Err? && !ArchivesFull(d') {
        FreeSlotDropsNothing(o, d', n - 1);
      } else if r.Err? {
        RetriedRotationDropsOnce(o, d', n - 1);
      }
    }
  }
}

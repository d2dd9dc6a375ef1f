/** The managed audit files and the write transaction: inspect, normalize, rotate, write, roll back. Every
    storage step may fail; an oracle decides which, and how many bytes of a failed write reach the file. */
module AuditStorage {
  import opened Prelude
  import opened AuditEncoding

  /** The outcome of one storage step. A failed write leaves `bytes` of the record behind, never all of it. */
  datatype Fault = Pass | Fail(bytes: nat)

  type Oracle = nat -> Fault

  datatype AuditOp =
    | Validate | Unavailable | Encode | Inspect | OpenOp | WriteOp | FlushOp | SyncOp | RotateOp | Truncate | Rollback

  /** Slot 0 is the active file, the others its archives, newest first. The rest is history: records that
      reached a file whole and stayed, records dropped with the oldest archive, bytes cut from each slot by
      normalization, and whether a rename ever hit an occupied slot or an archive was removed with one free. */
  datatype Disk = Disk(
    slots: seq<Option<Bytes>>, step: nat,
    landed: seq<Bytes>, dropped: seq<Bytes>, cut: seq<nat>, clobbered: bool, removedEarly: bool)
  {
    function Len(slot: nat): nat
      requires slot < |slots|
    {
      if slots[slot].None? then 0 else |slots[slot].value|
    }

    function Put(slot: nat, b: Option<Bytes>): Disk
      requires slot < |slots|
    {
      this.(slots := slots[slot := b])
    }

    predicate Like(d: Disk) { |slots| == |d.slots| && |cut| == |d.cut| }
  }

  datatype Store = Store(disk: Disk, normalized: bool, tailInvalid: bool, retention: seq<Notice>) {
    predicate Like(s: Store) { disk.Like(s.disk) && |retention| == |s.retention| }
  }

  function EmptyStore(archives: nat): Store {
    Store(Disk(seq(archives + 1, _ => None), 0, [], [], seq(archives + 1, _ => 0), false, false),
          false, false, seq(archives + 1, _ => NO_NOTICE))
  }

  /** One notice and one count of cut bytes for each managed file. */
  predicate Shaped(s: Store) { |s.disk.slots| == |s.disk.cut| == |s.retention| > 0 }

  // ----- Lines -------------------------------------------------------------

  /** Length of the part of `b` up to and including its last newline. */
  function CompleteLen(b: Bytes): (n: nat)
    ensures n <= |b|
    ensures n > 0 ==> b[n - 1] == NEWLINE
    ensures Plain(b[n..])
  {
    if b == [] then 0
    else if b[|b| - 1] == NEWLINE then |b|
    else
      var n := CompleteLen(b[..|b| - 1]);
      assert b[n..] == b[..|b| - 1][n..] + [b[|b| - 1]];
      n
  }

  /** The complete lines of a file, in order; an unterminated tail is no line. */
  function Lines(b: Bytes): (r: seq<Bytes>)
    decreases |b|
  {
    if CompleteLen(b) == 0 then []
    else
      var n := FirstLineLen(b);
      [b[..n]] + Lines(b[n..])
  }

  function FirstLineLen(b: Bytes): (n: nat)
    requires CompleteLen(b) > 0
    ensures 0 < n <= |b| && IsRecord(b[..n])
    decreases |b|
  {
    if b[0] == NEWLINE then assert b[..1][..0] == []; 1
    else
      CompleteTail(b);
      var n := FirstLineLen(b[1..]);
      assert b[..n + 1] == [b[0]] + b[1..][..n];
      assert b[..n + 1][..n] == [b[0]] + b[1..][..n][..n - 1];
      n + 1
  }

  lemma CompleteTail(b: Bytes)
    requires CompleteLen(b) > 0 && b[0] != NEWLINE
    ensures CompleteLen(b[1..]) == CompleteLen(b) - 1
  {
    CompleteUnique(b[1..], CompleteLen(b) - 1);
  }

  /** The complete length is the only cut that ends a line and leaves no newline behind. */
  lemma {:induction false} CompleteUnique(b: Bytes, n: nat)
    requires n <= |b| && (n > 0 ==> b[n - 1] == NEWLINE) && Plain(b[n..])
    ensures CompleteLen(b) == n
  {
    if n < |b| {
      assert b[n..][|b| - 1 - n] == b[|b| - 1];
      var most := b[..|b| - 1];
      assert most[n..] == b[n..][..|b| - 1 - n];
      CompleteUnique(most, n);
    }
  }

  /** The source's backward scan in chunks of 4,096 bytes. */
  method CompletePrefixLen(b: Bytes, chunk: nat) returns (n: nat)
    requires chunk > 0
    ensures n == CompleteLen(b)
  {
    var end := |b|;
    while end > 0
      invariant 0 <= end <= |b| && Plain(b[end..])
    {
      var start := if end < chunk then 0 else end - chunk;
      var pos := end;
      while pos > start && b[pos - 1] != NEWLINE
        invariant start <= pos <= end && Plain(b[pos..])
      {
        assert b[pos - 1..] == [b[pos - 1]] + b[pos..];
        pos := pos - 1;
      }
      if pos > start {
        CompleteUnique(b, pos);
        return pos;
      }
      end := start;
    }
    CompleteUnique(b, 0);
    return 0;
  }

  // ----- Storage steps -----------------------------------------------------

  /** The steps of storage itself, as opposed to refusals before it is reached. */
  predicate IoOp(op: AuditOp) { !op.Validate? && !op.Unavailable? && !op.Encode? }

  type DiskStep<T> = (Disk, Result<T, AuditOp>)
  type StoreStep = (Store, Result<(), AuditOp>)

  function Tick(d: Disk): Disk { d.(step := d.step + 1) }

  function FileLen(o: Oracle, d: Disk, slot: nat): (r: DiskStep<Option<nat>>)
    requires slot < |d.slots|
    ensures r.1.Err? ==> IoOp(r.1.error)
    ensures r.0 == Tick(d)
    ensures r.1.Ok? ==> (r.1.value.None? <==> d.slots[slot].None?)
    ensures r.1.Ok? && r.1.value.Some? ==> r.1.value.value == d.Len(slot)
  {
    if o(d.step).Fail? then (Tick(d), Err(Inspect))
    else (Tick(d), Ok(if d.slots[slot].None? then None else Some(|d.slots[slot].value|)))
  }

  /** `set_len` to at most the current length. */
  function TruncateTo(o: Oracle, d: Disk, slot: nat, len: nat): (r: DiskStep<()>)
    requires slot < |d.slots|
    ensures r.1.Err? ==> IoOp(r.1.error)
    ensures r.0.Like(d)
  {
    if o(d.step).Fail? || d.slots[slot].None? || len > |d.slots[slot].value| then (Tick(d), Err(Truncate))
    else (Tick(d).Put(slot, Some(d.slots[slot].value[..len])), Ok(()))
  }

  function Sync(o: Oracle, d: Disk, op: AuditOp): DiskStep<()>
    requires IoOp(op)
  {
    (Tick(d), if o(d.step).Fail? then Err(op) else Ok(()))
  }

  // ----- Normalization -----------------------------------------------------

  /** The notice after `gone` more bytes were cut from its file. */
  function Noticed(n: Notice, gone: nat, reset: bool): Notice {
    Notice(SatAddU64(n.discardedBytes, Min(U64_MAX, gone)), n.reset || reset, true)
  }

  /** Cut slot `slot` to `keep` bytes, note the cut, then sync it. */
  function CutSlot(o: Oracle, s: Store, slot: nat, keep: nat, reset: bool): (r: StoreStep)
    requires Shaped(s) && slot < |s.retention| && keep <= s.disk.Len(slot)
    ensures r.1.Err? ==> IoOp(r.1.error)
    ensures r.0.Like(s)
  {
    var (d, cut) := TruncateTo(o, s.disk, slot, keep);
    if cut.Err? then (s.(disk := d), cut)
    else
      var gone := s.disk.Len(slot) - keep;
      var (d', synced) := Sync(o, d.(cut := d.cut[slot := d.cut[slot] + gone]), Truncate);
      (s.(disk := d', retention := s.retention[slot := Noticed(s.retention[slot], gone, reset)]), synced)
  }

  /** One file: within the cap, and the active one without an incomplete trailing record. */
  function NormalizeSlot(o: Oracle, s: Store, limits: Limits, slot: nat): (r: StoreStep)
    requires Shaped(s) && slot < |s.retention|
    ensures r.1.Err? ==> IoOp(r.1.error)
    ensures r.0.Like(s)
  {
    var (d, len) := FileLen(o, s.disk, slot);
    var s1 := s.(disk := d);
    if len.Err? then (s1, Err(len.error))
    else if len.value.None? then (s1, Ok(()))
    else if len.value.value > limits.maxFileBytes then CutSlot(o, s1, slot, 0, true)
    else if slot == 0 && len.value.value > 0 then
      var s2 := s1.(disk := Tick(d));
      var keep := CompleteLen(d.slots[0].value);
      if o(d.step).Fail? then (s2, Err(Inspect))
      else if keep < len.value.value then CutSlot(o, s2, 0, keep, false)
      else (s2, Ok(()))
    else (s1, Ok(()))
  }

  function NormalizeFrom(o: Oracle, s: Store, limits: Limits, slot: nat): (r: StoreStep)
    requires Shaped(s) && slot <= |s.retention|
    ensures r.1.Err? ==> IoOp(r.1.error)
    ensures r.0.Like(s)
    ensures r.1.Ok? ==> r.0.normalized && !r.0.tailInvalid
    decreases |s.retention| - slot
  {
    if slot == |s.retention| then (s.(normalized := true, tailInvalid := false), Ok(()))
    else
      var (s', r) := NormalizeSlot(o, s, limits, slot);
      if r.Err? then (s', r) else NormalizeFrom(o, s', limits, slot + 1)
  }

  /** Normalize unless nothing can be wrong with the files. */
  function Ready(o: Oracle, s: Store, limits: Limits): (r: StoreStep)
    requires Shaped(s)
    ensures r.1.Err? ==> IoOp(r.1.error)
    ensures r.0.Like(s)
    ensures r.1.Ok? ==> r.0.normalized && !r.0.tailInvalid
  {
    if !s.normalized || s.tailInvalid then NormalizeFrom(o, s, limits, 0) else (s, Ok(()))
  }

  // ----- Rotation ----------------------------------------------------------

  /** The lowest free archive slot from `slot` on, if the probes succeed. */
  function FindFree(o: Oracle, d: Disk, slot: nat): (r: DiskStep<Option<nat>>)
    requires slot <= |d.slots|
    ensures r.1.Err? ==> IoOp(r.1.error)
    ensures r.0 == d.(step := r.0.step)
    ensures r.1.Ok? && r.1.value.Some? ==> slot <= r.1.value.value < |d.slots| && d.slots[r.1.value.value].None?
    ensures r.1.Ok? && r.1.value.Some? ==> forall i :: slot <= i < r.1.value.value ==> d.slots[i].Some?
    ensures r.1.Ok? && r.1.value.None? ==> forall i :: slot <= i < |d.slots| ==> d.slots[i].Some?
    decreases |d.slots| - slot
  {
    if slot == |d.slots| then (d, Ok(None))
    else
      var (d', len) := FileLen(o, d, slot);
      if len.Err? then (d', Err(len.error))
      else if len.value.None? then (d', Ok(Some(slot)))
      else FindFree(o, d', slot + 1)
  }

  predicate ArchivesFull(d: Disk) { forall i :: 1 <= i < |d.slots| ==> d.slots[i].Some? }

  function SlotLines(b: Option<Bytes>): seq<Bytes> { if b.None? then [] else Lines(b.value) }

  /** Remove the oldest archive. */
  function RemoveOldest(o: Oracle, d: Disk): (r: DiskStep<()>)
    requires |d.slots| > 0
    ensures r.1.Err? ==> IoOp(r.1.error)
    ensures r.0.Like(d)
  {
    var last := |d.slots| - 1;
    if o(d.step).Fail? then (Tick(d), Err(RotateOp))
    else (Tick(d).Put(last, None).(dropped := d.dropped + SlotLines(d.slots[last]),
                                   removedEarly := d.removedEarly || !ArchivesFull(d)), Ok(()))
  }

  /** Rename slot `from` to the next one up; a missing source is ignored, an occupied target is overwritten. */
  function RenameUp(o: Oracle, d: Disk, from: nat): (r: DiskStep<()>)
    requires from + 1 < |d.slots|
    ensures r.1.Err? ==> IoOp(r.1.error)
    ensures r.0.Like(d)
  {
    if o(d.step).Fail? then (Tick(d), Err(RotateOp))
    else if d.slots[from].None? then (Tick(d), Ok(()))
    else (Tick(d).Put(from + 1, d.slots[from]).Put(from, None).(clobbered := d.clobbered || d.slots[from + 1].Some?), Ok(()))
  }

  /** Renames `top - 1` up to `top`, and so on down to the active file. */
  function ShiftUp(o: Oracle, d: Disk, top: nat): (r: DiskStep<()>)
    requires top < |d.slots|
    ensures r.1.Err? ==> IoOp(r.1.error)
    ensures r.0.Like(d)
    decreases top
  {
    if top == 0 then (d, Ok(()))
    else
      var (d', r) := RenameUp(o, d, top - 1);
      if r.Err? then (d', r) else ShiftUp(o, d', top - 1)
  }

  function Rotate(o: Oracle, d: Disk): (r: DiskStep<()>)
    requires |d.slots| > 0
    ensures r.1.Err? ==> IoOp(r.1.error)
    ensures r.0.Like(d)
  {
    if |d.slots| == 1 then
      var (d', cut) := TruncateTo(o, d, 0, 0);
      if cut.Err? then (d', cut) else Sync(o, d'.(dropped := d.dropped + SlotLines(d.slots[0])), Truncate)
    else
      var (d1, free) := FindFree(o, d, 1);
      if free.Err? then (d1, Err(free.error))
      else if free.value.Some? then ShiftUp(o, d1, free.value.value)
      else
        var (d2, r) := RemoveOldest(o, d1);
        if r.Err? then (d2, r) else ShiftUp(o, d2, |d.slots| - 1)
  }

  // ----- The write transaction ---------------------------------------------

  /** Append the record to the active file, flush and sync it. */
  function WriteRecord(o: Oracle, d: Disk, line: Bytes): (r: DiskStep<()>)
    requires |d.slots| > 0 && d.slots[0].Some? && |line| > 0
    ensures r.1.Err? ==> IoOp(r.1.error)
    ensures r.0.Like(d)
  {
    var b := d.slots[0].value;
    if o(d.step).Fail? then
      (Tick(d).Put(0, Some(b + line[..Min(o(d.step).bytes, |line| - 1)])), Err(WriteOp))
    else
      var (d1, flushed) := Sync(o, Tick(d).Put(0, Some(b + line)), FlushOp);
      if flushed.Err? then (d1, flushed) else Sync(o, d1, SyncOp)
  }

  /** Make room for a record of `size` bytes: the length of the active file it will follow. */
  function MakeRoom(o: Oracle, d: Disk, limits: Limits, size: nat): (r: DiskStep<nat>)
    requires |d.slots| > 0
    ensures r.1.Err? ==> IoOp(r.1.error)
    ensures r.0.Like(d)
    ensures r.1.Ok? ==> r.1.value == r.0.Len(0)
  {
    var (d1, len) := FileLen(o, d, 0);
    if len.Err? then (d1, Err(len.error))
    else
      var pre := d.Len(0);
      if pre > 0 && pre + size > limits.maxFileBytes then
        var (d2, r) := Rotate(o, d1);
        if r.Err? then (d2, Err(r.error))
        else
          var (d3, len') := FileLen(o, d2, 0);
          if len'.Err? then (d3, Err(len'.error))
          else if d2.Len(0) > 0 then (d3, Err(RotateOp)) else (d3, Ok(0))
      else (d1, Ok(pre))
  }

  /** Open the active file, creating it if absent. */
  function OpenActive(o: Oracle, d: Disk): (r: DiskStep<()>)
    requires |d.slots| > 0
    ensures r.1.Err? ==> IoOp(r.1.error)
    ensures r.0.Like(d)
    ensures r.1.Ok? ==> r.0.slots[0].Some? && r.0.Len(0) == d.Len(0)
  {
    if o(d.step).Fail? then (Tick(d), Err(OpenOp))
    else (Tick(d).Put(0, if d.slots[0].None? then Some([]) else d.slots[0]), Ok(()))
  }

  /** Open, append, and on failure cut the file back to `pre` bytes; a failed cut leaves the tail invalid. */
  function Commit(o: Oracle, s: Store, pre: nat, line: Bytes): (r: StoreStep)
    requires Shaped(s) && |line| > 0 && pre == s.disk.Len(0)
    ensures r.1.Err? ==> IoOp(r.1.error)
    ensures r.0.Like(s)
  {
    var (d0, ready) := OpenActive(o, s.disk);
    if ready.Err? then (s.(disk := d0), ready)
    else
      var (d, r) := WriteRecord(o, d0, line);
      if r.Ok? then (s.(disk := d.(landed := d.landed + [line])), r)
      else if o(d.step).Fail? then
        var landed := if r.error == WriteOp then d.landed else d.landed + [line];
        (s.(disk := Tick(d).(landed := landed), tailInvalid := true), r)
      else (s.(disk := Tick(d).Put(0, Some(d.slots[0].value[..pre]))), r)
  }

  function WriteLine(o: Oracle, s: Store, limits: Limits, line: Bytes): (r: StoreStep)
    requires Shaped(s) && |line| > 0
    ensures r.1.Err? ==> IoOp(r.1.error)
    ensures r.0.Like(s)
  {
    var (s1, ready) := Ready(o, s, limits);
    if ready.Err? then (s1, ready)
    else
      var (d, pre) := MakeRoom(o, s1.disk, limits, |line|);
      if pre.Err? then (s1.(disk := d), Err(pre.error))
      else Commit(o, s1.(disk := d), pre.value, line)
  }
}

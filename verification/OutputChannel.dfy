/** The code of the two threads as methods over the shared fields, each call run without interruption,
    shown to take exactly the atomic steps of the protocol. */
module OutputChannel {
  import opened Prelude
  import opened OutputRing
  import opened OutputRingRuns

  /** Steps the callback still has to take. */
  function Remaining(c: Consumer): nat {
    match c
    case CIdle => 0 case CPopPublish(_) => 1 case CPopStart(_, _) => 2 case CPopMark(_) => 3
    case CPop(_) => 4 case CPopLoad(_) => 5 case CAck(_, _) => 6 case CClearPublish(_, _, _) => 7
    case CClearMark(_, _, _) => 8 case CClear(_, _, _) => 9 case CClearLoad(_, _) => 10
    case CLoadCompleted(_, _) => 11 case CLoadRequested(_) => 12
  }

  /** The callback runs to its end with nothing in between. */
  function CallbackEnd(r: Ring): (t: Ring)
    ensures t.consumer == CIdle
    decreases Remaining(r.consumer)
  {
    if r.consumer == CIdle then r else CallbackEnd(ConsumerNext(r))
  }

  /** A queueing call runs to its end with nothing in between, so a flush it asked for times out. */
  function QueueEnd(r: Ring): (Ring, Option<Outcome>) {
    match r.producer
    case PWait(token, samples) => PushEnd(ProducerNext(Step(r, Deadline)))
    case _ => PushEnd(r)
  }

  function PushEnd(r: Ring): (Ring, Option<Outcome>) {
    var a := ProducerNext(r);
    if a.producer == PIdle then (a, Told(r, ProducerStep))
    else
      var c := ProducerNext(ProducerNext(a));
      (ProducerNext(c), Told(c, ProducerStep))
  }

  class AudioComm {
    const capacity: nat
    const generation: nat
    var flushRequested: nat
    var flushCompleted: nat
    var playMark: nat
    var playMarkStarted: nat
    var retiredSamples: nat
    var published: seq<real>
    var left: nat
    var pushed: nat
    var retired: nat
    ghost var fates: seq<Fate>
    ghost var stamps: seq<Stamp>
    ghost var requestedAt: seq<nat>
    ghost var played: seq<real>

    ghost function View(): Ring
      reads this
    {
      Ring(capacity, generation, flushRequested, flushCompleted, playMark, playMarkStarted, retiredSamples,
           published, left, pushed, retired, PIdle, CIdle, fates, stamps, requestedAt, played)
    }

    constructor (cap: nat, gen: nat)
      ensures View() == Fresh(cap, gen)
    {
      capacity, generation := cap, gen;
      flushRequested, flushCompleted, playMark, playMarkStarted, retiredSamples := 0, 0, 0, 0, 0;
      published, left, pushed, retired := [], 0, 0, 0;
      fates, stamps, requestedAt, played := [], [], [], [];
    }

    /** Report `removed` samples as gone, noting first if the tracked one was among those played. */
    method Retire(removed: nat, wasPlayed: bool)
      modifies this`retired, this`playMarkStarted, this`retiredSamples
      ensures removed == 0 ==> View() == old(View())
      ensures removed > 0 ==>
                && retired == old(retired) + removed == retiredSamples
                && playMarkStarted == if wasPlayed && old(retired) < playMark <= retired then playMark else old(playMarkStarted)
    {
      if removed == 0 { return; }
      var before := retired;
      retired := retired + removed;
      var mark := playMark;
      if wasPlayed && mark > before && mark <= retired {
        playMarkStarted := mark;
      }
      retiredSamples := retired;
    }

    /** Take up to `want` samples for playback: the tail of an uninterrupted callback. */
    method PopAudioSlice(want: nat) returns (out: seq<real>)
      requires Positions(View())
      modifies this
      ensures View() == CallbackEnd(old(View()).(consumer := CPopLoad(want)))
      ensures |out| <= want && played == old(played) + out
    {
      hide CallbackEnd;
      ghost var r := View();
      var read := if want < |published| - left then want else |published| - left;
      out := published[left..left + read];
      left := left + read;
      fates := fates + seq(read, _ => Popped);
      played := played + out;
      Retire(read, true);
      assert read == 0 ==> fates == r.fates && played == r.played;
      assert View() == Taken(r, read);
      PopSteps(r, want, read);
    }

    /** Discard what is buffered if a flush is outstanding, and acknowledge it. */
    method DrainPendingFlush(ghost want: nat)
      requires Positions(View())
      modifies this
      ensures Positions(View())
      ensures CallbackEnd(View().(consumer := CPopLoad(want)))
              == CallbackEnd(old(View()).(consumer := CLoadRequested(want)))
      ensures played == old(played)
    {
      hide CallbackEnd;
      ghost var r := View();
      var requested := flushRequested;
      var completed := flushCompleted;
      if requested != completed {
        var cleared := |published| - left;
        left := left + cleared;
        fates := fates + seq(cleared, _ => Flushed(requested));
        Retire(cleared, false);
        flushCompleted := requested;
        assert cleared == 0 ==> fates == r.fates;
        assert View() == Acknowledged(r, cleared);
        ClearSteps(r, want, cleared);
      } else {
        SkipSteps(r, want);
      }
    }

    /** The device callback: flush, pop into the buffer, and fill the rest with silence. */
    method FillOutputBuffer(data: array<real>)
      requires Positions(View())
      modifies this, data
      ensures View() == CallbackEnd(Step(old(View()), Callback(data.Length)))
      ensures old(played) <= played && |played| - |old(played)| <= data.Length
      ensures forall i :: 0 <= i < data.Length ==>
                data[i] == if i < |played| - |old(played)| then played[|old(played)| + i] else 0.0
    {
      hide CallbackEnd;
      DrainPendingFlush(data.Length);
      var out := PopAudioSlice(data.Length);
      forall i | 0 <= i < |out| { data[i] := out[i]; }
      var i := |out|;
      while i < data.Length
        invariant |out| <= i <= data.Length
        invariant forall k :: 0 <= k < |out| ==> data[k] == out[k]
        invariant forall k :: |out| <= k < i ==> data[k] == 0.0
        modifies data
      {
        data[i] := 0.0;
        i := i + 1;
      }
    }

    /** Arm the mark and push, or refuse the whole call when there is no room. */
    method PushMarkedOutput(samples: seq<real>, flush: Flush) returns (mark: Option<nat>)
      requires Positions(View())
      modifies this
      ensures (View(), Some(Queued(mark, flush != TimedOut)))
              == PushEnd(old(View()).(producer := PQueue(samples, flush)))
    {
      hide PushEnd;
      ghost var r := View();
      if samples == [] || capacity - (|published| - left) == 0 {
        PushRefused(r, samples, flush);
        return None;
      }
      playMark := pushed + 1;
      mark := Some(pushed + 1);
      var room := capacity - (|published| - left);
      var written := if room < |samples| then room else |samples|;
      ghost var stamp := Stamp(flushCompleted, flushRequested, flush);
      published := published + samples[..written];
      stamps := stamps + seq(written, _ => stamp);
      pushed := pushed + written;
      assert stamps == r.stamps + seq(written, _ => Stamp(r.flushCompleted, r.flushRequested, flush));
      assert View() == Pushed(r, samples, flush, written);
      PushSteps(r, samples, flush, written);
    }

    /** The manager's queueing call: ask for a flush and wait for it, then arm the mark and push. */
    method QueueOutputMarked(samples: seq<real>, flushFirst: bool) returns (mark: Option<nat>, completed: bool)
      requires Positions(View())
      modifies this
      ensures (View(), Some(Queued(mark, completed))) == QueueEnd(Step(old(View()), Queue(samples, flushFirst)))
    {
      hide PushEnd, QueueEnd, Step;
      QueueReachesPush(View(), samples, flushFirst);
      var flush := NotAsked;
      if flushFirst {
        flushRequested := flushRequested + 1;
        requestedAt := requestedAt + [|published|];
        flush := if flushCompleted >= flushRequested then Confirmed else TimedOut;
      }
      completed := flush != TimedOut;
      mark := PushMarkedOutput(samples, flush);
    }
  }

  lemma PushRefused(r: Ring, samples: seq<real>, flush: Flush)
    requires r.producer == PIdle && (samples == [] || r.Vacant() <= 0)
    ensures PushEnd(r.(producer := PQueue(samples, flush))) == (r, Some(Queued(None, flush != TimedOut)))
  {}

  /** The ring after a push of `written` samples under a newly armed mark. */
  function Pushed(r: Ring, samples: seq<real>, flush: Flush, written: nat): Ring
    requires written <= |samples|
  {
    r.(playMark := r.pushed + 1, published := r.published + samples[..written], pushed := r.pushed + written,
       stamps := r.stamps + seq(written, _ => Stamp(r.flushCompleted, r.flushRequested, flush)))
  }

  /** The ring when an uninterrupted queueing call reaches its push, and what it knows of its flush. */
  function Reached(r: Ring, flushFirst: bool): (Ring, Flush) {
    if flushFirst then
      (r.(flushRequested := r.flushRequested + 1, requestedAt := r.requestedAt + [|r.published|]),
       if r.flushCompleted >= r.flushRequested + 1 then Confirmed else TimedOut)
    else (r, NotAsked)
  }

  lemma QueueReachesPush(r: Ring, samples: seq<real>, flushFirst: bool)
    requires r.producer == PIdle
    ensures var (t, flush) := Reached(r, flushFirst);
            QueueEnd(Step(r, Queue(samples, flushFirst))) == PushEnd(t.(producer := PQueue(samples, flush)))
  {
    hide PushEnd;
    if flushFirst {
      var waiting := Request(r, samples);
      assert Step(r, Queue(samples, true)) == waiting;
      assert Step(waiting, Deadline) == waiting.(producer := PConfirm(r.flushRequested + 1, samples));
    }
  }

  /** The steps of an uninterrupted push that finds room. */
  lemma PushSteps(r: Ring, samples: seq<real>, flush: Flush, written: nat)
    requires samples != [] && r.Vacant() > 0 && r.producer == PIdle
    requires written == if r.Vacant() < |samples| then r.Vacant() else |samples|
    ensures PushEnd(r.(producer := PQueue(samples, flush)))
            == (Pushed(r, samples, flush, written), Some(Queued(Some(r.pushed + 1), flush != TimedOut)))
  {
    var armed := r.(playMark := r.pushed + 1, producer := PPush(samples, flush, r.pushed + 1));
    assert ProducerNext(r.(producer := PArm(samples, flush))) == armed;
  }

  /** One step more of an uninterrupted callback. */
  lemma EndStep(r: Ring, t: Ring)
    requires r.consumer != CIdle && t == ConsumerNext(r)
    ensures CallbackEnd(r) == CallbackEnd(t)
  {}

  /** The ring after `read` samples have been popped and reported. */
  function Taken(r: Ring, read: nat): Ring
    requires r.left + read <= |r.published|
  {
    if read == 0 then r
    else r.(left := r.left + read, retired := r.retired + read, retiredSamples := r.retired + read,
            fates := r.fates + seq(read, _ => Popped), played := r.played + r.published[r.left..r.left + read],
            playMarkStarted := if r.retired < r.playMark <= r.retired + read then r.playMark else r.playMarkStarted)
  }

  /** The steps of an uninterrupted pop. */
  lemma PopSteps(r: Ring, want: nat, read: nat)
    requires Positions(r) && r.consumer == CIdle
    requires read == if want < r.Occupied() then want else r.Occupied()
    ensures CallbackEnd(r.(consumer := CPopLoad(want)))
            == Taken(r, read)
  {
    hide CallbackEnd;
    var a := r.(consumer := CPop(read));
    EndStep(r.(consumer := CPopLoad(want)), a);
    if read == 0 {
      EndStep(a, r);
      EndIdle(r);
    } else {
      var b := ConsumerNext(a);
      EndStep(a, b);
      ReportSteps(b, r.retired);
      EndIdle(Taken(r, read));
    }
  }

  lemma EndIdle(r: Ring)
    requires r.consumer == CIdle
    ensures CallbackEnd(r) == r
  {}

  /** The report of a pop, after `before` samples had left. */
  lemma ReportSteps(r: Ring, before: nat)
    requires r.consumer == CPopMark(before)
    ensures CallbackEnd(r)
            == CallbackEnd(r.(playMarkStarted := if before < r.playMark <= r.retired then r.playMark else r.playMarkStarted,
                              retiredSamples := r.retired, consumer := CIdle))
  {
    hide CallbackEnd;
    var c := r.(consumer := CPopStart(before, r.playMark));
    var d := ConsumerNext(c);
    EndStep(r, c);
    EndStep(c, d);
    EndStep(d, ConsumerNext(d));
  }

  /** The ring after a flush of `cleared` samples has been reported and acknowledged. */
  function Acknowledged(r: Ring, cleared: nat): Ring {
    (if cleared == 0 then r
     else r.(left := r.left + cleared, retired := r.retired + cleared, retiredSamples := r.retired + cleared,
             fates := r.fates + seq(cleared, _ => Flushed(r.flushRequested))))
    .(flushCompleted := r.flushRequested)
  }

  /** The steps of an uninterrupted flush. */
  lemma ClearSteps(r: Ring, want: nat, cleared: nat)
    requires Positions(r) && r.consumer == CIdle && r.flushRequested != r.flushCompleted && cleared == r.Occupied()
    ensures Positions(Acknowledged(r, cleared))
    ensures CallbackEnd(r.(consumer := CLoadRequested(want)))
            == CallbackEnd(Acknowledged(r, cleared).(consumer := CPopLoad(want)))
  {
    var q := r.flushRequested;
    EndStep(r.(consumer := CLoadRequested(want)), r.(consumer := CLoadCompleted(want, q)));
    EndStep(r.(consumer := CLoadCompleted(want, q)), r.(consumer := CClearLoad(want, q)));
    EndStep(r.(consumer := CClearLoad(want, q)), r.(consumer := CClear(want, q, cleared)));
    AckSteps(r, want, cleared);
  }

  lemma AckSteps(r: Ring, want: nat, cleared: nat)
    requires Positions(r) && r.consumer == CIdle && cleared == r.Occupied()
    ensures CallbackEnd(r.(consumer := CClear(want, r.flushRequested, cleared)))
            == CallbackEnd(Acknowledged(r, cleared).(consumer := CPopLoad(want)))
  {
    var a := r.(consumer := CClear(want, r.flushRequested, cleared));
    var b := ConsumerNext(a);
    EndStep(a, b);
    var done := Acknowledged(r, cleared).(consumer := CPopLoad(want));
    if cleared == 0 {
      EndStep(b, done);
    } else {
      var c := ConsumerNext(b);
      var d := ConsumerNext(c);
      EndStep(b, c);
      EndStep(c, d);
      EndStep(d, done);
    }
  }

  lemma SkipSteps(r: Ring, want: nat)
    requires r.consumer == CIdle && r.flushRequested == r.flushCompleted
    ensures CallbackEnd(r.(consumer := CLoadRequested(want))) == CallbackEnd(r.(consumer := CPopLoad(want)))
  {
    var s := r.(consumer := CLoadCompleted(want, r.flushRequested));
    EndStep(r.(consumer := CLoadRequested(want)), s);
    EndStep(s, r.(consumer := CPopLoad(want)));
  }
}

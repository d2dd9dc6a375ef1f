/** The output ring shared by the audio manager's thread and the device callback, one atomic load,
    store or ring-index move per step, with the history of how every sample left it. */
module OutputRing {
  import opened Prelude

  datatype MarkState = Waiting | Played | Discarded

  /** How a sample left the ring: popped for playback, or cleared by the flush acknowledging `token`. */
  datatype Fate = Popped | Flushed(token: nat)

  /** What became of the flush a queueing call may ask for. */
  datatype Flush = NotAsked | Confirmed | TimedOut

  /** Where the manager's thread is inside `queue_output_marked` or `output_mark_state`. */
  datatype Producer =
    | PIdle
    | PWait(token: nat, samples: seq<real>)
    | PConfirm(token: nat, samples: seq<real>)
    | PQueue(samples: seq<real>, flush: Flush)
    | PArm(samples: seq<real>, flush: Flush)
    | PPush(samples: seq<real>, flush: Flush, mark: nat)
    | PPublish(samples: seq<real>, flush: Flush, mark: nat, room: nat)
    | PAsk(mark: nat)
    | PAskStarted(mark: nat)

  /** Where the callback is inside `fill_output_buffer`; `want` is the length of the device buffer. */
  datatype Consumer =
    | CIdle
    | CLoadRequested(want: nat)
    | CLoadCompleted(want: nat, requested: nat)
    | CClearLoad(want: nat, requested: nat)
    | CClear(want: nat, requested: nat, count: nat)
    | CClearMark(want: nat, requested: nat, before: nat)
    | CClearPublish(want: nat, requested: nat, before: nat)
    | CAck(want: nat, requested: nat)
    | CPopLoad(want: nat)
    | CPop(count: nat)
    | CPopMark(before: nat)
    | CPopStart(before: nat, mark: nat)
    | CPopPublish(before: nat)

  /** When a sample was published: the flush tokens then completed and requested, and what the call that
      queued it knew of its own flush. */
  datatype Stamp = Stamp(completed: nat, requested: nat, flush: Flush)

  datatype Ring = Ring(
    capacity: nat,
    generation: nat,
    // shared atomics
    flushRequested: nat,
    flushCompleted: nat,
    playMark: nat,
    playMarkStarted: nat,
    retiredSamples: nat,
    // ring indices: everything ever published, and how much of it has left
    published: seq<real>,
    left: nat,
    // thread-local counters and positions
    pushed: nat,
    retired: nat,
    producer: Producer,
    consumer: Consumer,
    // history
    fates: seq<Fate>,
    stamps: seq<Stamp>,
    requestedAt: seq<nat>,
    played: seq<real>)
  {
    function Occupied(): int { |published| - left }
    function Vacant(): int { capacity - Occupied() }
  }

  function Fresh(capacity: nat, generation: nat): Ring {
    Ring(capacity, generation, 0, 0, 0, 0, 0, [], 0, 0, 0, PIdle, CIdle, [], [], [], [])
  }

  datatype Action =
    | Queue(samples: seq<real>, flushFirst: bool)
    | Poll
    | Deadline
    | ProducerStep
    | AskMark(generation: nat, mark: nat)
    | Reopen
    | Callback(want: nat)
    | ConsumerStep

  datatype Outcome =
    | Queued(queuedMark: Option<nat>, flushCompleted: bool)
    | Verdict(mark: nat, state: MarkState)

  // ----- Producer steps ----------------------------------------------------

  function Request(r: Ring, samples: seq<real>): Ring {
    r.(flushRequested := r.flushRequested + 1,
       requestedAt := r.requestedAt + [|r.published|],
       producer := PWait(r.flushRequested + 1, samples))
  }

  function ProducerNext(r: Ring): Ring {
    match r.producer
    case PConfirm(token, samples) => r.(producer := PQueue(samples, if r.flushCompleted >= token then Confirmed else TimedOut))
    case PQueue(samples, flush) =>
      if samples != [] && r.Vacant() > 0 then r.(producer := PArm(samples, flush)) else r.(producer := PIdle)
    case PArm(samples, flush) =>
      r.(playMark := r.pushed + 1, producer := PPush(samples, flush, r.pushed + 1))
    case PPush(samples, flush, mark) =>
      r.(producer := PPublish(samples, flush, mark, if r.Vacant() < 0 then 0 else r.Vacant()))
    case PPublish(samples, flush, mark, room) =>
      var n := if room < |samples| then room else |samples|;
      r.(published := r.published + samples[..n],
         stamps := r.stamps + seq(n, _ => Stamp(r.flushCompleted, r.flushRequested, flush)),
         pushed := r.pushed + n,
         producer := PIdle)
    case PAsk(mark) => if r.retiredSamples < mark then r.(producer := PIdle) else r.(producer := PAskStarted(mark))
    case PAskStarted(mark) => r.(producer := PIdle)
    case _ => r
  }

  // ----- Callback steps ----------------------------------------------------

  function ConsumerNext(r: Ring): Ring {
    match r.consumer
    case CLoadRequested(want) => r.(consumer := CLoadCompleted(want, r.flushRequested))
    case CLoadCompleted(want, requested) =>
      r.(consumer := if requested != r.flushCompleted then CClearLoad(want, requested) else CPopLoad(want))
    case CClearLoad(want, requested) =>
      r.(consumer := CClear(want, requested, if r.Occupied() < 0 then 0 else r.Occupied()))
    case CClear(want, requested, count) =>
      if count == 0 then r.(consumer := CAck(want, requested))
      else r.(left := r.left + count, retired := r.retired + count,
              fates := r.fates + seq(count, _ => Flushed(requested)),
              consumer := CClearMark(want, requested, r.retired))
    case CClearMark(want, requested, before) => r.(consumer := CClearPublish(want, requested, before))
    case CClearPublish(want, requested, before) =>
      r.(retiredSamples := r.retired, consumer := CAck(want, requested))
    case CAck(want, requested) => r.(flushCompleted := requested, consumer := CPopLoad(want))
    case CPopLoad(want) =>
      var occupied := if r.Occupied() < 0 then 0 else r.Occupied();
      r.(consumer := CPop(if want < occupied then want else occupied))
    case CPop(count) =>
      if count == 0 || r.left + count > |r.published| then r.(consumer := CIdle)
      else r.(left := r.left + count, retired := r.retired + count,
              fates := r.fates + seq(count, _ => Popped),
              played := r.played + r.published[r.left..r.left + count],
              consumer := CPopMark(r.retired))
    case CPopMark(before) => r.(consumer := CPopStart(before, r.playMark))
    case CPopStart(before, mark) =>
      r.(playMarkStarted := if before < mark <= r.retired then mark else r.playMarkStarted,
         consumer := CPopPublish(before))
    case CPopPublish(before) => r.(retiredSamples := r.retired, consumer := CIdle)
    case CIdle => r
  }

  // ----- The protocol ------------------------------------------------------

  /** One step of either thread; an action that its thread is not ready for changes nothing. */
  function Step(r: Ring, a: Action): Ring {
    match a
    case Queue(samples, flushFirst) =>
      if r.producer != PIdle then r
      else if flushFirst then Request(r, samples)
      else r.(producer := PQueue(samples, NotAsked))
    case Poll =>
      if r.producer.PWait? && r.flushCompleted >= r.producer.token
      then r.(producer := PConfirm(r.producer.token, r.producer.samples)) else r
    case Deadline =>
      if r.producer.PWait? then r.(producer := PConfirm(r.producer.token, r.producer.samples)) else r
    case ProducerStep => ProducerNext(r)
    case AskMark(generation, mark) =>
      if r.producer != PIdle || generation != r.generation then r else r.(producer := PAsk(mark))
    case Reopen => if r.producer != PIdle then r else Fresh(r.capacity, r.generation + 1)
    case Callback(want) => if r.consumer != CIdle then r else r.(consumer := CLoadRequested(want))
    case ConsumerStep => ConsumerNext(r)
  }

  /** What the manager's caller is told at this step, if anything. */
  function Told(r: Ring, a: Action): Option<Outcome> {
    match a
    case ProducerStep => (
      match r.producer
      case PQueue(samples, flush) =>
        if samples != [] && r.Vacant() > 0 then None else Some(Queued(None, flush != TimedOut))
      case PPublish(_, flush, mark, _) => Some(Queued(Some(mark), flush != TimedOut))
      case PAsk(mark) => if r.retiredSamples < mark then Some(Verdict(mark, Waiting)) else None
      case PAskStarted(mark) =>
        Some(Verdict(mark, if r.playMarkStarted == mark then Played else Discarded))
      case _ => None)
    case AskMark(generation, mark) =>
      if r.producer == PIdle && generation != r.generation then Some(Verdict(mark, Discarded)) else None
    case _ => None
  }

  function Run(r: Ring, actions: seq<Action>): Ring
    decreases actions
  {
    if actions == [] then r else Run(Step(r, actions[0]), actions[1..])
  }
}

/** Why the manager's caller has to ask about a mark before it queues again: asked in time the verdict is right,
    asked after the next buffer has been heard it is wrong, from every reachable state. */
module OutputRingReplaced {
  import opened Prelude
  import opened OutputRing
  import opened OutputRingRuns

  /** A callback that meets no other step, for `want` samples. */
  function WholeCallback(want: nat): seq<Action> {
    [Callback(want), ConsumerStep, ConsumerStep, ConsumerStep, ConsumerStep] + [ConsumerStep, ConsumerStep, ConsumerStep]
  }

  function Asking(r: Ring): seq<Action> { [AskMark(r.generation, r.playMark), ProducerStep] }

  /** Queue one more sample, let the callback take everything, then ask about the mark of `r`. */
  function Replacing(r: Ring, x: real): seq<Action>
    requires r.Occupied() >= 0
  {
    Queueing(x) + (WholeCallback(r.Occupied() + 1) + Asking(r))
  }

  /** Nothing is under way and no flush is outstanding. */
  predicate AtRest(r: Ring) { r.producer == PIdle && r.consumer == CIdle && r.flushRequested == r.flushCompleted }

  // ----- The callback ------------------------------------------------------

  /** The ring once a callback has taken all samples but not yet reported them. */
  function AllTaken(r: Ring): Ring
    requires 0 <= r.left <= |r.published|
  {
    var n := |r.published| - r.left;
    r.(left := r.left + n, retired := r.retired + n, fates := r.fates + seq(n, _ => Popped),
       played := r.played + r.published[r.left..r.left + n], consumer := CPopMark(r.retired))
  }

  lemma TakeAll(r: Ring, n: nat)
    requires AtRest(r) && r.left < |r.published| && n == r.Occupied()
    ensures Run(r, [Callback(n), ConsumerStep, ConsumerStep, ConsumerStep, ConsumerStep]) == AllTaken(r)
  {
    hide Run;
    Run5(r, Callback(n), ConsumerStep, ConsumerStep, ConsumerStep, ConsumerStep);
    var a := r.(consumer := CLoadRequested(n));
    var b := r.(consumer := CLoadCompleted(n, r.flushRequested));
    var c := r.(consumer := CPopLoad(n));
    var d := r.(consumer := CPop(n));
    assert Step(r, Callback(n)) == a && ConsumerNext(a) == b && ConsumerNext(b) == c && ConsumerNext(c) == d;
    assert ConsumerNext(d) == AllTaken(r);
  }

  /** The report of a pop that covers the latest mark. */
  lemma ReportAll(r: Ring, before: nat)
    requires r.consumer == CPopMark(before) && before < r.playMark <= r.retired
    ensures Run(r, [ConsumerStep, ConsumerStep, ConsumerStep])
            == r.(playMarkStarted := r.playMark, retiredSamples := r.retired, consumer := CIdle)
  {
    var a := r.(consumer := CPopStart(before, r.playMark));
    var b := r.(playMarkStarted := r.playMark, consumer := CPopPublish(before));
    assert ConsumerNext(r) == a && ConsumerNext(a) == b;
    Run3(r, ConsumerStep, ConsumerStep, ConsumerStep);
  }

  lemma Run3(r: Ring, a: Action, b: Action, c: Action)
    ensures Run(r, [a, b, c]) == Step(Step(Step(r, a), b), c)
  {
    RunFirst(r, a, [b, c]);
    RunFirst(Step(r, a), b, [c]);
    RunFirst(Step(Step(r, a), b), c, []);
    assert [a] + [b, c] == [a, b, c] && [b] + [c] == [b, c] && [c] + [] == [c];
  }

  /** A whole callback that takes the latest marked sample reports its mark as started. */
  lemma CallbackReports(r: Ring, n: nat)
    requires AtRest(r) && r.left < |r.published| && n == r.Occupied() && r.retired < r.playMark <= r.retired + n
    ensures Run(r, WholeCallback(n))
            == AllTaken(r).(playMarkStarted := r.playMark, retiredSamples := r.retired + n, consumer := CIdle)
  {
    TakeAll(r, n);
    RunSplit(r, [Callback(n), ConsumerStep, ConsumerStep, ConsumerStep, ConsumerStep],
             [ConsumerStep, ConsumerStep, ConsumerStep]);
    ReportAll(AllTaken(r), r.retired);
  }

  /** The two loads behind a verdict. */
  lemma AskAnswers(r: Ring, mark: nat)
    requires r.producer == PIdle && r.retiredSamples >= mark
    ensures var t := Run(r, [AskMark(r.generation, mark), ProducerStep]);
            && t == r.(producer := PAskStarted(mark))
            && Told(t, ProducerStep) == Some(Verdict(mark, if r.playMarkStarted == mark then Played else Discarded))
  {
    RunFirst(r, AskMark(r.generation, mark), [ProducerStep]);
    RunFirst(Step(r, AskMark(r.generation, mark)), ProducerStep, []);
    assert [AskMark(r.generation, mark)] + [ProducerStep] == [AskMark(r.generation, mark), ProducerStep];
    assert [ProducerStep] + [] == [ProducerStep];
  }

  // ----- The two orders ----------------------------------------------------

  /** At rest, everything that left has been reported. */
  lemma RestIsReported(r: Ring)
    requires Inv(r) && AtRest(r)
    ensures r.retired == r.retiredSamples == r.left == |r.fates| && r.pushed == |r.published| && r.left <= |r.published|
  {}

  lemma QueuedAndHeard(r: Ring, x: real) returns (t: Ring)
    requires Inv(r) && AtRest(r) && r.Vacant() > 0
    ensures t == Run(r, Queueing(x) + WholeCallback(r.Occupied() + 1))
    ensures t.producer == PIdle && t.generation == r.generation && r.fates <= t.fates
    ensures t.playMarkStarted == r.pushed + 1 && t.retiredSamples == r.pushed + 1
  {
    RestIsReported(r);
    QueueSteps(r, x);
    var q := Run(r, Queueing(x));
    CallbackReports(q, r.Occupied() + 1);
    RunSplit(r, Queueing(x), WholeCallback(r.Occupied() + 1));
    t := Run(q, WholeCallback(r.Occupied() + 1));
  }

  /** From every reachable state at rest with room, in which the sample of the latest mark has been played: asking
      now answers `Played`; queueing one more sample and letting a callback take it first makes the same question
      answer `Discarded`. So asking before the next buffer is heard is not only sufficient but necessary. */
  lemma AskBeforeQueueing(capacity: nat, actions: seq<Action>, x: real)
    requires var r := Run(Fresh(capacity, 1), actions);
             AtRest(r) && r.Vacant() > 0 && r.playMark > 0 && LeftBy(r, r.playMark, Played)
    ensures var r := Run(Fresh(capacity, 1), actions);
            && Told(Run(r, Asking(r)), ProducerStep) == Some(Verdict(r.playMark, Played))
            && r.Occupied() >= 0
            && var t := Run(r, Replacing(r, x));
            && Told(t, ProducerStep) == Some(Verdict(r.playMark, Discarded))
            && t.generation == r.generation && LeftBy(t, r.playMark, Played)
  {
    hide Run;
    var r := Run(Fresh(capacity, 1), actions);
    EveryRunKeepsInv(capacity, actions);
    RestIsReported(r);
    AskAnswers(r, r.playMark);
    var t := QueuedAndHeard(r, x);
    AskAnswers(t, r.playMark);
    RunSplit(r, Queueing(x) + WholeCallback(r.Occupied() + 1), Asking(r));
    assert Replacing(r, x) == Queueing(x) + WholeCallback(r.Occupied() + 1) + Asking(r);
  }
}

/** What every interleaving of the manager's thread and the callback keeps. */
module OutputRingRuns {
  import opened Prelude
  import opened OutputRing

  // ----- Positions ---------------------------------------------------------

  /** The callback has moved the read index but not yet published the count of retired samples. */
  predicate MidRetire(c: Consumer) {
    c.CClearMark? || c.CClearPublish? || c.CPopMark? || c.CPopStart? || c.CPopPublish?
  }

  ghost predicate Positions(r: Ring) {
    && r.left <= |r.published| <= r.left + r.capacity
    && r.pushed == |r.published| == |r.stamps|
    && r.retired == r.left == |r.fates|
    && r.retiredSamples == (if MidRetire(r.consumer) then r.consumer.before else r.left)
    && r.retiredSamples <= r.left
    && (r.consumer.CClear? ==> r.left + r.consumer.count <= |r.published|)
    && (r.consumer.CPop? ==> r.left + r.consumer.count <= |r.published|)
    && (r.producer.PArm? || r.producer.PPush? ==> r.Vacant() > 0)
    && (r.producer.PArm? ==> r.producer.samples != [])
    && (r.producer.PPush? ==> r.producer.samples != [])
    && (r.producer.PPublish? ==> 0 < r.producer.room <= r.Vacant() && r.producer.samples != [])
  }

  lemma ProducerKeepsPositions(r: Ring)
    requires Positions(r)
    ensures Positions(ProducerNext(r))
  {}

  lemma ConsumerKeepsPositions(r: Ring)
    requires Positions(r)
    ensures Positions(ConsumerNext(r))
  {}

  // ----- Flush tokens ------------------------------------------------------

  /** Every sample published before any of the first `k` flush requests is among the first `n`. */
  ghost predicate CoveredBy(r: Ring, k: nat, n: nat) {
    forall t :: 0 <= t < k && t < |r.requestedAt| ==> r.requestedAt[t] <= n
  }

  /** The token the callback is acting on, if it is inside a flush. */
  function Acting(c: Consumer): Option<nat> {
    match c
    case CClearLoad(_, requested) => Some(requested)
    case CClear(_, requested, _) => Some(requested)
    case CClearMark(_, requested, _) => Some(requested)
    case CClearPublish(_, requested, _) => Some(requested)
    case CAck(_, requested) => Some(requested)
    case _ => None
  }

  ghost predicate Flushes(r: Ring) {
    && r.flushCompleted <= r.flushRequested == |r.requestedAt|
    && CoveredBy(r, r.flushRequested, |r.published|)
    && CoveredBy(r, r.flushCompleted, r.left)
    && (Acting(r.consumer).Some? ==> r.flushCompleted < Acting(r.consumer).value <= r.flushRequested)
    && (r.consumer.CLoadCompleted? ==> r.flushCompleted <= r.consumer.requested <= r.flushRequested)
    && (r.consumer.CClear? ==> CoveredBy(r, r.consumer.requested, r.left + r.consumer.count))
    && (r.consumer.CClearMark? || r.consumer.CClearPublish? || r.consumer.CAck?
        ==> CoveredBy(r, r.consumer.requested, r.left))
  }

  lemma ProducerKeepsFlushes(r: Ring)
    requires Positions(r) && Flushes(r)
    ensures Flushes(ProducerNext(r))
  {}

  lemma ConsumerKeepsFlushes(r: Ring)
    requires Positions(r) && Flushes(r)
    ensures Flushes(ConsumerNext(r))
  {}

  // ----- Which flush discarded what ----------------------------------------

  /** A stamp of a call that saw its flush complete has no request outstanding. */
  ghost predicate Stamped(r: Ring, s: Stamp) {
    s.completed <= s.requested <= r.flushRequested && s.completed <= r.flushCompleted
    && (s.flush == Confirmed ==> s.completed == s.requested)
  }

  ghost predicate Blame(r: Ring) {
    && (forall i :: 0 <= i < |r.stamps| ==> Stamped(r, r.stamps[i]))
    && (forall i :: 0 <= i < |r.fates| && i < |r.stamps| && r.fates[i].Flushed?
          ==> r.stamps[i].completed < r.fates[i].token <= r.flushRequested)
    && (r.producer.PWait? || r.producer.PConfirm? ==> r.producer.token == r.flushRequested)
    && (r.producer.PQueue? || r.producer.PArm? || r.producer.PPush? || r.producer.PPublish?
        ==> r.producer.flush == Confirmed ==> r.flushCompleted == r.flushRequested)
  }

  lemma ProducerKeepsBlame(r: Ring)
    requires Positions(r) && Flushes(r) && Blame(r)
    ensures Blame(ProducerNext(r))
  {}

  lemma ConsumerKeepsBlame(r: Ring)
    requires Positions(r) && Flushes(r) && Blame(r)
    ensures Blame(ConsumerNext(r))
  {}

  // ----- Play marks --------------------------------------------------------

  ghost predicate Marks(r: Ring)
    requires Positions(r)
  {
    // The latest mark names a published sample, or the one about to be published.
    && r.playMark <= |r.published| + 1
    && (r.producer.PPush? || r.producer.PPublish?
        ==> r.producer.mark == r.playMark == |r.published| + 1)
    && (r.playMark == |r.published| + 1 ==> r.producer.PPush? || r.producer.PPublish?)
    // A mark reported as started was popped.
    && (r.playMarkStarted > 0 ==> r.playMarkStarted <= r.left && r.fates[r.playMarkStarted - 1] == Popped)
    // The latest mark, once popped and published as retired, is the one reported as started.
    && (0 < r.playMark <= r.retiredSamples && r.fates[r.playMark - 1] == Popped ==> r.playMarkStarted == r.playMark)
    && (r.consumer.CPopMark? || r.consumer.CPopStart? || r.consumer.CPopPublish?
        ==> forall i :: r.consumer.before <= i < r.left ==> r.fates[i] == Popped)
    && (r.consumer.CClearMark? || r.consumer.CClearPublish?
        ==> forall i :: r.consumer.before <= i < r.left ==> r.fates[i].Flushed?)
    && (r.consumer.CPopStart? ==> r.consumer.mark <= r.playMark)
    && (r.consumer.CPopStart? && r.consumer.before < r.playMark <= r.left ==> r.consumer.mark == r.playMark)
    && (r.consumer.CPopPublish? && r.consumer.before < r.playMark <= r.left ==> r.playMarkStarted == r.playMark)
    && (r.producer.PAskStarted? ==> r.producer.mark <= r.retiredSamples)
  }

  lemma ProducerKeepsMarks(r: Ring)
    requires Positions(r) && Marks(r)
    ensures Positions(ProducerNext(r)) && Marks(ProducerNext(r))
  {
    hide Positions, Marks, ProducerNext;
    ProducerKeepsPositions(r);
    if r.producer.PArm? {
      ArmKeepsMarks(r);
    } else if r.producer.PPublish? {
      PublishKeepsMarks(r);
    } else {
      AdvanceKeepsMarks(r);
    }
  }

  lemma ArmKeepsMarks(r: Ring)
    requires Positions(r) && Marks(r) && r.producer.PArm? && Positions(ProducerNext(r))
    ensures Marks(ProducerNext(r))
  {}

  lemma PublishKeepsMarks(r: Ring)
    requires Positions(r) && Marks(r) && r.producer.PPublish? && Positions(ProducerNext(r))
    ensures Marks(ProducerNext(r))
  {}

  /** A producer step that arms and publishes nothing moves only the producer. */
  lemma AdvanceKeepsMarks(r: Ring)
    requires Positions(r) && Marks(r) && !r.producer.PArm? && !r.producer.PPublish? && Positions(ProducerNext(r))
    ensures Marks(ProducerNext(r))
  {
    var t := ProducerNext(r);
    assert t == r.(producer := t.producer);
    assert r.producer.PPush? <==> t.producer.PPublish? && !r.producer.PPublish?;
    assert t.producer.PPublish? ==> t.producer.mark == r.producer.mark;
    assert t.producer.PAskStarted? && !r.producer.PAskStarted? ==> t.producer.mark <= r.retiredSamples;
    assert !t.producer.PPush?;
    hide ProducerNext;
  }

  /** The callback takes samples out: the marked one, if among them, was published before it was taken. */
  lemma RemovalKeepsMarks(r: Ring)
    requires Positions(r) && Marks(r) && (r.consumer.CPop? || r.consumer.CClear?)
    ensures Positions(ConsumerNext(r)) && Marks(ConsumerNext(r))
  {
    ConsumerKeepsPositions(r);
    var t := ConsumerNext(r);
    if 0 < r.playMark <= r.left { assert t.fates[r.playMark - 1] == r.fates[r.playMark - 1]; }
  }

  /** The callback reports what it took: the start of the marked sample before its retirement. */
  lemma ReportKeepsMarks(r: Ring)
    requires Positions(r) && Marks(r) && MidRetire(r.consumer)
    ensures Positions(ConsumerNext(r)) && Marks(ConsumerNext(r))
  {
    ConsumerKeepsPositions(r);
    match r.consumer {
      case CClearPublish(_, _, before) =>
        if before < r.playMark <= r.left { assert r.fates[r.playMark - 1].Flushed?; }
      case _ =>
    }
  }

  lemma ConsumerKeepsMarks(r: Ring)
    requires Positions(r) && Marks(r)
    ensures Positions(ConsumerNext(r)) && Marks(ConsumerNext(r))
  {
    if r.consumer.CPop? || r.consumer.CClear? {
      RemovalKeepsMarks(r);
    } else if MidRetire(r.consumer) {
      ReportKeepsMarks(r);
    } else {
      ConsumerKeepsPositions(r);
    }
  }

  // ----- What is heard -----------------------------------------------------

  /** The samples that left by a pop, in order. */
  function Heard(published: seq<real>, fates: seq<Fate>): seq<real>
    requires |fates| <= |published|
  {
    if fates == [] then []
    else
      var n := |fates| - 1;
      Heard(published, fates[..n]) + if fates[n] == Popped then [published[n]] else []
  }

  lemma {:induction false} HeardMorePublished(published: seq<real>, more: seq<real>, fates: seq<Fate>)
    requires |fates| <= |published|
    ensures Heard(published + more, fates) == Heard(published, fates)
  {
    if fates != [] { HeardMorePublished(published, more, fates[..|fates| - 1]); }
  }

  lemma {:induction false} HeardBlock(published: seq<real>, fates: seq<Fate>, fate: Fate, count: nat)
    requires |fates| + count <= |published|
    ensures Heard(published, fates + seq(count, _ => fate))
            == Heard(published, fates) + if fate == Popped then published[|fates|..|fates| + count] else []
  {
    if count == 0 {
      assert fates + seq(count, _ => fate) == fates;
    } else {
      HeardBlock(published, fates, fate, count - 1);
      var all := fates + seq(count, _ => fate);
      assert all[..|all| - 1] == fates + seq(count - 1, _ => fate);
    }
  }

  ghost predicate HearsOnlyPopped(r: Ring)
    requires Positions(r)
  {
    r.played == Heard(r.published, r.fates)
  }

  lemma ProducerKeepsHearing(r: Ring)
    requires Positions(r) && HearsOnlyPopped(r)
    ensures Positions(ProducerNext(r)) && HearsOnlyPopped(ProducerNext(r))
  {
    hide Heard;
    ProducerKeepsPositions(r);
    var t := ProducerNext(r);
    if r.producer.PPublish? { HeardMorePublished(r.published, t.published[|r.published|..], r.fates); }
  }

  lemma ConsumerKeepsHearing(r: Ring)
    requires Positions(r) && HearsOnlyPopped(r)
    ensures Positions(ConsumerNext(r)) && HearsOnlyPopped(ConsumerNext(r))
  {
    hide Heard;
    ConsumerKeepsPositions(r);
    match r.consumer {
      case CClear(_, requested, count) => HeardBlock(r.published, r.fates, Flushed(requested), count);
      case CPop(count) => HeardBlock(r.published, r.fates, Popped, count);
      case _ =>
    }
  }

  // ----- Every interleaving ------------------------------------------------

  ghost predicate Inv(r: Ring) {
    Positions(r) && Flushes(r) && Blame(r) && Marks(r) && HearsOnlyPopped(r)
  }

  lemma ProducerKeepsInv(r: Ring)
    requires Inv(r)
    ensures Inv(ProducerNext(r))
  {
    hide ProducerNext, Positions, Flushes, Blame, Marks, HearsOnlyPopped;
    ProducerKeepsFlushes(r);
    ProducerKeepsBlame(r);
    ProducerKeepsMarks(r);
    ProducerKeepsHearing(r);
  }

  lemma ConsumerKeepsInv(r: Ring)
    requires Inv(r)
    ensures Inv(ConsumerNext(r))
  {
    hide ConsumerNext, Positions, Flushes, Blame, Marks, HearsOnlyPopped;
    ConsumerKeepsFlushes(r);
    ConsumerKeepsBlame(r);
    ConsumerKeepsMarks(r);
    ConsumerKeepsHearing(r);
  }

  /** A call, a poll, a deadline, a question or a callback begins; no sample moves. */
  predicate Begins(a: Action) { a.Queue? || a.Poll? || a.Deadline? || a.AskMark? || a.Callback? }

  lemma BeginKeepsPositions(r: Ring, a: Action)
    requires Positions(r) && Begins(a)
    ensures Positions(Step(r, a))
  {}

  lemma BeginKeepsFlushes(r: Ring, a: Action)
    requires Positions(r) && Flushes(r) && Begins(a)
    ensures Flushes(Step(r, a))
  {}

  lemma BeginKeepsBlame(r: Ring, a: Action)
    requires Positions(r) && Flushes(r) && Blame(r) && Begins(a)
    ensures Blame(Step(r, a))
  {}

  lemma BeginShape(r: Ring, a: Action)
    requires Begins(a)
    ensures var t := Step(r, a);
            && t == r.(flushRequested := t.flushRequested, requestedAt := t.requestedAt, producer := t.producer,
                       consumer := t.consumer)
            && (t.producer == r.producer || (!r.producer.PPush? && !r.producer.PPublish? && !r.producer.PAskStarted?
                && !t.producer.PPush? && !t.producer.PPublish? && !t.producer.PAskStarted?))
            && (t.consumer == r.consumer || (r.consumer == CIdle && t.consumer.CLoadRequested?))
  {}

  lemma BeginKeepsMarks(r: Ring, a: Action)
    requires Positions(r) && Marks(r) && Begins(a)
    ensures Positions(Step(r, a)) && Marks(Step(r, a))
  {
    BeginKeepsPositions(r, a);
    BeginShape(r, a);
    hide Step;
  }

  lemma BeginKeepsHearing(r: Ring, a: Action)
    requires Positions(r) && HearsOnlyPopped(r) && Begins(a)
    ensures Positions(Step(r, a)) && HearsOnlyPopped(Step(r, a))
  {
    hide Heard;
  }

  lemma BeginKeepsInv(r: Ring, a: Action)
    requires Inv(r) && Begins(a)
    ensures Inv(Step(r, a))
  {
    hide Step, Positions, Flushes, Blame, Marks, HearsOnlyPopped;
    BeginKeepsPositions(r, a);
    BeginKeepsFlushes(r, a);
    BeginKeepsBlame(r, a);
    BeginKeepsMarks(r, a);
    BeginKeepsHearing(r, a);
  }

  lemma FreshInv(capacity: nat, generation: nat)
    ensures Inv(Fresh(capacity, generation))
  {}

  lemma StepKeepsInv(r: Ring, a: Action)
    requires Inv(r)
    ensures Inv(Step(r, a))
  {
    match a {
      case ProducerStep => ProducerKeepsInv(r);
      case ConsumerStep => ConsumerKeepsInv(r);
      case Reopen => FreshInv(r.capacity, r.generation + 1);
      case _ => BeginKeepsInv(r, a);
    }
  }

  lemma {:induction false} RunKeepsInv(r: Ring, actions: seq<Action>)
    requires Inv(r)
    ensures Inv(Run(r, actions))
    decreases actions
  {
    hide Inv, Step;
    if actions != [] {
      StepKeepsInv(r, actions[0]);
      RunKeepsInv(Step(r, actions[0]), actions[1..]);
    }
  }

  lemma EveryRunKeepsInv(capacity: nat, actions: seq<Action>)
    ensures Inv(Run(Fresh(capacity, 1), actions))
  {
    hide Inv, Run;
    FreshInv(capacity, 1);
    RunKeepsInv(Fresh(capacity, 1), actions);
  }

  // ----- Play-mark verdicts ------------------------------------------------

  /** Sample number `mark` of this ring left it in the given way. */
  predicate LeftBy(r: Ring, mark: nat, fate: MarkState) {
    0 < mark <= |r.fates| && (fate == Played <==> r.fates[mark - 1] == Popped)
  }

  /** In every interleaving a verdict about the current ring is right. `Played` always means that the marked
      sample left by a pop; `Discarded`, for the latest armed mark, that it left by a flush. */
  lemma VerdictIsRight(r: Ring, mark: nat, state: MarkState)
    requires Inv(r) && mark > 0 && Told(r, ProducerStep) == Some(Verdict(mark, state))
    ensures state == Played ==> LeftBy(r, mark, Played)
    ensures state == Discarded && mark == r.playMark ==> LeftBy(r, mark, Discarded)
    ensures state == Waiting ==> r.retiredSamples < mark
  {}

  /** A mark that a later one replaced may be called `Discarded` although it was played: the caller has to
      ask before queueing again. Here the second call re-arms between the pop and its report. */
  lemma ReplacedMarkMayBeMisreported()
    ensures exists actions: seq<Action> :: Misreports(Run(Fresh(8, 1), actions))
  {
    var r := ReArmed();
    ReportReplaced(r);
    Joined(Fresh(8, 1), Queueing(0.5), Popping(), Queueing(0.25), Reporting());
    assert Misreports(Run(Fresh(8, 1), Misreporting()));
  }

  /** Sample 1 popped but not yet reported, and the second call already armed. */
  lemma ReArmed() returns (r: Ring)
    ensures r == Run(Run(Run(Fresh(8, 1), Queueing(0.5)), Popping()), Queueing(0.25))
    ensures r.producer == PIdle && r.consumer == CPopMark(0) && r.retired == 1 && r.fates == [Popped]
    ensures r.playMark == 2 && r.playMarkStarted == 0 && r.generation == 1
  {
    r := Unreported();
    r := QueueOne(r, 0.25);
  }

  lemma Unreported() returns (r: Ring)
    ensures r == Run(Run(Fresh(8, 1), Queueing(0.5)), Popping()) && Inv(r)
    ensures r.producer == PIdle && r.consumer == CPopMark(0) && r.retired == 1 && r.fates == [Popped]
    ensures r.pushed == 1 && r.playMarkStarted == 0 && r.generation == 1 && r.Vacant() > 0
  {
    FreshInv(8, 1);
    r := QueueOne(Fresh(8, 1), 0.5);
    assert r.Occupied() == 1 && r.consumer == CIdle && r.flushRequested == 0 == r.flushCompleted && r.retired == 0;
    r := PopOne(r);
  }

  /** The producer is about to be told that the played sample 1 was discarded, its mark no longer the latest. */
  ghost predicate Misreports(r: Ring) {
    Told(r, ProducerStep) == Some(Verdict(1, Discarded)) && r.playMark != 1 && LeftBy(r, 1, Played)
  }

  function Misreporting(): seq<Action> { Queueing(0.5) + (Popping() + (Queueing(0.25) + Reporting())) }

  lemma Joined(r: Ring, s1: seq<Action>, s2: seq<Action>, s3: seq<Action>, s4: seq<Action>)
    ensures Run(r, s1 + (s2 + (s3 + s4))) == Run(Run(Run(Run(r, s1), s2), s3), s4)
  {
    RunSplit(r, s1, s2 + (s3 + s4));
    RunSplit(Run(r, s1), s2, s3 + s4);
    RunSplit(Run(Run(r, s1), s2), s3, s4);
  }

  function Reporting(): seq<Action> {
    [ConsumerStep, ConsumerStep, ConsumerStep, AskMark(1, 1), ProducerStep]
  }

  function Queueing(x: real): seq<Action> {
    [Queue([x], false), ProducerStep, ProducerStep, ProducerStep, ProducerStep]
  }

  function Popping(): seq<Action> {
    [Callback(1), ConsumerStep, ConsumerStep, ConsumerStep, ConsumerStep]
  }

  /** A one-sample call that meets no callback step on its way. */
  lemma QueueOne(r: Ring, x: real) returns (t: Ring)
    requires Inv(r) && r.producer == PIdle && r.Vacant() > 0
    ensures t == Run(r, Queueing(x)) && Inv(t) && t.producer == PIdle
    ensures t.published == r.published + [x] && t.playMark == r.pushed + 1 && t.pushed == r.pushed + 1
    ensures t.(published := r.published, stamps := r.stamps, pushed := r.pushed, playMark := r.playMark) == r
  {
    t := Run(r, Queueing(x));
    RunKeepsInv(r, Queueing(x));
    QueueSteps(r, x);
  }

  lemma QueueSteps(r: Ring, x: real)
    requires r.producer == PIdle && r.Vacant() > 0
    ensures Run(r, Queueing(x))
            == r.(published := r.published + [x], stamps := r.stamps + [Stamp(r.flushCompleted, r.flushRequested, NotAsked)],
                  pushed := r.pushed + 1, playMark := r.pushed + 1)
  {
    hide Run;
    Run5(r, Queue([x], false), ProducerStep, ProducerStep, ProducerStep, ProducerStep);
    var a := r.(producer := PQueue([x], NotAsked));
    var b := r.(producer := PArm([x], NotAsked));
    var c := r.(playMark := r.pushed + 1, producer := PPush([x], NotAsked, r.pushed + 1));
    assert Step(r, Queue([x], false)) == a && ProducerNext(a) == b && ProducerNext(b) == c;
    PublishSteps(c, x);
    hide ProducerNext;
  }

  lemma PublishSteps(c: Ring, x: real)
    requires c.producer.PPush? && c.producer.samples == [x] && c.producer.flush == NotAsked && c.Vacant() > 0
    ensures ProducerNext(ProducerNext(c))
            == c.(published := c.published + [x], stamps := c.stamps + [Stamp(c.flushCompleted, c.flushRequested, NotAsked)],
                  pushed := c.pushed + 1, producer := PIdle)
  {
    var stamp := Stamp(c.flushCompleted, c.flushRequested, NotAsked);
    assert [x][..1] == [x] && seq(1, _ => stamp) == [stamp];
  }

  /** A callback for one sample, stopped right after it has taken the sample. */
  lemma PopOne(r: Ring) returns (t: Ring)
    requires Inv(r) && r.consumer == CIdle && r.Occupied() >= 1 && r.flushRequested == r.flushCompleted
    ensures t == Run(r, Popping()) && Inv(t) && t.consumer == CPopMark(r.retired)
    ensures t.left == r.left + 1 && t.fates == r.fates + [Popped]
    ensures t.(left := r.left, retired := r.retired, fates := r.fates, played := r.played, consumer := CIdle) == r
  {
    hide Run, Inv;
    Run5(r, Callback(1), ConsumerStep, ConsumerStep, ConsumerStep, ConsumerStep);
    t := Run(r, Popping());
    RunKeepsInv(r, Popping());
    var a := r.(consumer := CLoadRequested(1));
    var b := r.(consumer := CLoadCompleted(1, r.flushRequested));
    var c := r.(consumer := CPopLoad(1));
    var d := r.(consumer := CPop(1));
    assert Step(r, Callback(1)) == a && ConsumerNext(a) == b && ConsumerNext(b) == c && ConsumerNext(c) == d;
    assert t == ConsumerNext(d);
  }

  lemma ReportReplaced(r: Ring)
    requires r.producer == PIdle && r.consumer == CPopMark(0) && r.retired == 1 && r.fates == [Popped]
    requires r.playMark == 2 && r.playMarkStarted == 0 && r.generation == 1
    ensures var t := Run(r, Reporting());
            Told(t, ProducerStep) == Some(Verdict(1, Discarded)) && t.playMark == 2 && t.fates == [Popped]
  {
    hide Run;
    Run5(r, ConsumerStep, ConsumerStep, ConsumerStep, AskMark(1, 1), ProducerStep);
    var a := r.(consumer := CPopStart(0, 2));
    var b := r.(consumer := CPopPublish(0));
    var c := r.(retiredSamples := 1, consumer := CIdle);
    assert ConsumerNext(r) == a && ConsumerNext(a) == b && ConsumerNext(b) == c;
    assert Step(c, AskMark(1, 1)) == c.(producer := PAsk(1));
    assert ProducerNext(c.(producer := PAsk(1))) == c.(producer := PAskStarted(1));
  }

  lemma RunFirst(r: Ring, a: Action, rest: seq<Action>)
    ensures Run(r, [a] + rest) == Run(Step(r, a), rest)
  {
    assert ([a] + rest)[1..] == rest;
  }

  lemma Run5(r: Ring, a: Action, b: Action, c: Action, d: Action, e: Action)
    ensures Run(r, [a, b, c, d, e]) == Step(Step(Step(Step(Step(r, a), b), c), d), e)
  {
    RunFirst(r, a, [b, c, d, e]);
    RunFirst(Step(r, a), b, [c, d, e]);
    RunFirst(Step(Step(r, a), b), c, [d, e]);
    RunFirst(Step(Step(Step(r, a), b), c), d, [e]);
    RunFirst(Step(Step(Step(Step(r, a), b), c), d), e, []);
    assert [a] + [b, c, d, e] == [a, b, c, d, e] && [b] + [c, d, e] == [b, c, d, e];
    assert [c] + [d, e] == [c, d, e] && [d] + [e] == [d, e] && [e] + [] == [e];
  }

  lemma {:induction false} RunSplit(r: Ring, xs: seq<Action>, ys: seq<Action>)
    ensures Run(r, xs + ys) == Run(Run(r, xs), ys)
    decreases xs
  {
    if xs == [] {
      assert xs + ys == ys;
    } else {
      assert (xs + ys)[0] == xs[0] && (xs + ys)[1..] == xs[1..] + ys;
      RunSplit(Step(r, xs[0]), xs[1..], ys);
    }
  }

  /** The history and the latest published retirement only grow. */
  ghost predicate Grows(r: Ring, t: Ring) {
    && t.generation >= r.generation
    && (t.generation == r.generation ==>
          && r.fates <= t.fates && r.retiredSamples <= t.retiredSamples && r.playMark <= t.playMark
          && r.published <= t.published && r.played <= t.played && r.requestedAt <= t.requestedAt
          && r.flushCompleted <= t.flushCompleted && r.left <= t.left)
  }

  lemma ProducerGrows(r: Ring)
    requires Inv(r)
    ensures Grows(r, ProducerNext(r))
  {}

  lemma ConsumerGrows(r: Ring)
    requires Inv(r)
    ensures Grows(r, ConsumerNext(r))
  {}

  lemma StepGrows(r: Ring, a: Action)
    requires Inv(r)
    ensures Grows(r, Step(r, a))
  {
    match a
    case ProducerStep => ProducerGrows(r);
    case ConsumerStep => ConsumerGrows(r);
    case _ =>
  }

  lemma {:induction false} RunGrows(r: Ring, actions: seq<Action>)
    requires Inv(r)
    ensures Grows(r, Run(r, actions)) && Inv(Run(r, actions))
    decreases actions
  {
    hide Inv, Step;
    if actions != [] {
      StepKeepsInv(r, actions[0]);
      StepGrows(r, actions[0]);
      RunGrows(Step(r, actions[0]), actions[1..]);
    }
  }

  /** Once a verdict on the latest mark of the ring is not `Waiting`, every later verdict on it is the same,
      however the threads interleave, while that ring and mark are current. */
  lemma VerdictIsFinal(r: Ring, actions: seq<Action>, mark: nat, first: MarkState, second: MarkState)
    requires Inv(r) && mark > 0 && mark == r.playMark && first != Waiting
    requires Told(r, ProducerStep) == Some(Verdict(mark, first))
    requires var t := Run(r, actions);
             && t.generation == r.generation && t.playMark == mark
             && Told(t, ProducerStep) == Some(Verdict(mark, second))
    ensures second == first
  {
    var t := Run(r, actions);
    RunGrows(r, actions);
    VerdictIsRight(r, mark, first);
    VerdictIsRight(t, mark, second);
    assert t.fates[mark - 1] == r.fates[mark - 1];
  }

  /** Every mark a queueing call returns names the first sample of that call, really published, even if the
      callback freed space between the vacancy check and the push. */
  lemma MarkNamesPublishedSample(r: Ring, mark: nat, flushed: bool)
    requires Inv(r) && Told(r, ProducerStep) == Some(Queued(Some(mark), flushed))
    ensures var t := ProducerNext(r);
            && |r.published| < mark <= |t.published|
            && t.published[mark - 1] == r.producer.samples[0]
            && t.playMark == mark
  {}

  /** No mark, no samples: a refused call publishes nothing. */
  lemma NoMarkPublishesNothing(r: Ring, flushed: bool)
    requires Told(r, ProducerStep) == Some(Queued(None, flushed))
    ensures ProducerNext(r).published == r.published && ProducerNext(r).playMark == r.playMark
  {}

  // ----- The flush handshake -----------------------------------------------

  /** The samples numbered past `from` that left by a pop, in order. */
  function HeardFrom(published: seq<real>, fates: seq<Fate>, from: nat): seq<real>
    requires |fates| <= |published|
    decreases |fates|
  {
    if |fates| <= from then []
    else
      var n := |fates| - 1;
      HeardFrom(published, fates[..n], from) + if fates[n] == Popped then [published[n]] else []
  }

  lemma {:induction false} HeardSplits(published: seq<real>, fates: seq<Fate>, from: nat)
    requires from <= |fates| <= |published|
    ensures Heard(published, fates) == Heard(published, fates[..from]) + HeardFrom(published, fates, from)
    decreases |fates|
  {
    if |fates| == from {
      assert fates[..from] == fates;
    } else {
      HeardSplits(published, fates[..|fates| - 1], from);
      assert fates[..|fates| - 1][..from] == fates[..from];
    }
  }

  /** Once token `k` reads as completed, every sample published before its request has left the ring; and in
      any continuation on this ring everything played from then on is numbered past all of those. */
  lemma FlushIsComplete(r: Ring, k: nat, actions: seq<Action>)
    requires Inv(r) && 0 < k <= r.flushCompleted
    ensures k <= |r.requestedAt| && r.requestedAt[k - 1] <= r.left
    ensures var t := Run(r, actions);
            t.generation == r.generation ==>
              |t.fates| <= |t.published| && t.played == r.played + HeardFrom(t.published, t.fates, r.left)
  {
    RunGrows(r, actions);
    var t := Run(r, actions);
    if t.generation == r.generation {
      HeardSplits(t.published, t.fates, r.left);
      assert t.fates[..r.left] == r.fates;
      assert t.published == r.published + t.published[|r.published|..];
      HeardMorePublished(r.published, t.published[|r.published|..], r.fates);
    }
  }

  /** A sample is discarded only by a flush that was not yet complete when it was published; so a sample
      queued by a call that saw its own flush complete is discarded only by a flush requested later, even if
      earlier flushes had timed out. */
  lemma DiscardNeedsLaterFlush(r: Ring, i: nat)
    requires Inv(r) && i < |r.fates| && r.fates[i].Flushed?
    ensures r.stamps[i].completed < r.fates[i].token
    ensures r.stamps[i].flush == Confirmed ==> r.stamps[i].requested < r.fates[i].token <= r.flushRequested
  {
    assert Stamped(r, r.stamps[i]);
  }

  /** Whenever the callback is not between taking samples and reporting them, what was pushed is what the
      shared counter says was retired plus what is buffered. */
  lemma PushedIsRetiredPlusBuffered(r: Ring)
    requires Inv(r) && !MidRetire(r.consumer)
    ensures r.pushed == r.retiredSamples + r.Occupied() && r.retired == r.retiredSamples
    ensures 0 <= r.Occupied() <= r.capacity
  {}

  // ----- The same for every run from a new ring ----------------------------

  /** Whatever interleaving came before, a verdict given next is right. */
  lemma EveryVerdictIsRight(capacity: nat, actions: seq<Action>, mark: nat, state: MarkState)
    requires mark > 0 && Told(Run(Fresh(capacity, 1), actions), ProducerStep) == Some(Verdict(mark, state))
    ensures var r := Run(Fresh(capacity, 1), actions);
            && (state == Played ==> LeftBy(r, mark, Played))
            && (state == Discarded && mark == r.playMark ==> LeftBy(r, mark, Discarded))
            && (state == Waiting ==> r.retiredSamples < mark)
  {
    EveryRunKeepsInv(capacity, actions);
    VerdictIsRight(Run(Fresh(capacity, 1), actions), mark, state);
  }

  lemma EveryVerdictIsFinal(capacity: nat, before: seq<Action>, after: seq<Action>, mark: nat, first: MarkState, second: MarkState)
    requires var r := Run(Fresh(capacity, 1), before); var t := Run(Fresh(capacity, 1), before + after);
             && mark > 0 && mark == r.playMark == t.playMark && r.generation == t.generation && first != Waiting
             && Told(r, ProducerStep) == Some(Verdict(mark, first)) && Told(t, ProducerStep) == Some(Verdict(mark, second))
    ensures second == first
  {
    EveryRunKeepsInv(capacity, before);
    RunSplit(Fresh(capacity, 1), before, after);
    VerdictIsFinal(Run(Fresh(capacity, 1), before), after, mark, first, second);
  }

  lemma EveryMarkNamesItsSample(capacity: nat, actions: seq<Action>, mark: nat, flushed: bool)
    requires Told(Run(Fresh(capacity, 1), actions), ProducerStep) == Some(Queued(Some(mark), flushed))
    ensures var r := Run(Fresh(capacity, 1), actions); var t := ProducerNext(r);
            && |r.published| < mark <= |t.published| && t.published[mark - 1] == r.producer.samples[0]
  {
    EveryRunKeepsInv(capacity, actions);
    MarkNamesPublishedSample(Run(Fresh(capacity, 1), actions), mark, flushed);
  }

  /** Told that its samples start at this mark. */
  predicate Marked(o: Option<Outcome>, mark: nat) { o.Some? && o.value.Queued? && o.value.queuedMark == Some(mark) }

  /** In every run, samples enter a ring exactly in the steps whose caller is told their mark: none is queued
      unmarked and no mark is handed out for nothing. */
  lemma SamplesComeWithMarks(capacity: nat, actions: seq<Action>, a: Action)
    requires Step(Run(Fresh(capacity, 1), actions), a).generation == Run(Fresh(capacity, 1), actions).generation
    ensures var r := Run(Fresh(capacity, 1), actions);
            (|Step(r, a).published| > |r.published| <==> Marked(Told(r, a), |r.published| + 1))
            && (forall mark :: Marked(Told(r, a), mark) ==> mark == |r.published| + 1)
            && r.published <= Step(r, a).published
  {
    EveryRunKeepsInv(capacity, actions);
    var r := Run(Fresh(capacity, 1), actions);
    StepGrows(r, a);
    MarkedSteps(r, a);
  }

  lemma MarkedSteps(r: Ring, a: Action)
    requires Inv(r) && Step(r, a).generation == r.generation
    ensures |Step(r, a).published| > |r.published| <==> Marked(Told(r, a), |r.published| + 1)
    ensures forall mark :: Marked(Told(r, a), mark) ==> mark == |r.published| + 1
  {
    if a.ProducerStep? && r.producer.PPublish? {
      MarkNamesPublishedSample(r, r.producer.mark, r.producer.flush != TimedOut);
    }
  }

  /** After a flush reads as completed, nothing published before its request is played in any continuation. */
  lemma EveryFlushIsComplete(capacity: nat, before: seq<Action>, after: seq<Action>, k: nat)
    requires 0 < k <= Run(Fresh(capacity, 1), before).flushCompleted
    ensures var r := Run(Fresh(capacity, 1), before); var t := Run(Fresh(capacity, 1), before + after);
            && k <= |r.requestedAt| && r.requestedAt[k - 1] <= r.left
            && (t.generation == r.generation ==>
                  |t.fates| <= |t.published| && t.played == r.played + HeardFrom(t.published, t.fates, r.left))
  {
    EveryRunKeepsInv(capacity, before);
    RunSplit(Fresh(capacity, 1), before, after);
    FlushIsComplete(Run(Fresh(capacity, 1), before), k, after);
  }

  lemma EveryDiscardNeedsLaterFlush(capacity: nat, actions: seq<Action>, i: nat)
    requires var r := Run(Fresh(capacity, 1), actions); i < |r.fates| && r.fates[i].Flushed?
    ensures var r := Run(Fresh(capacity, 1), actions);
            && i < |r.stamps| && r.stamps[i].completed < r.fates[i].token
            && (r.stamps[i].flush == Confirmed ==> r.stamps[i].requested < r.fates[i].token <= r.flushRequested)
  {
    EveryRunKeepsInv(capacity, actions);
    DiscardNeedsLaterFlush(Run(Fresh(capacity, 1), actions), i);
  }

  lemma EveryRunConserves(capacity: nat, actions: seq<Action>)
    requires !MidRetire(Run(Fresh(capacity, 1), actions).consumer)
    ensures var r := Run(Fresh(capacity, 1), actions);
            r.pushed == r.retiredSamples + r.Occupied() && 0 <= r.Occupied() <= r.capacity
  {
    EveryRunKeepsInv(capacity, actions);
    PushedIsRetiredPlusBuffered(Run(Fresh(capacity, 1), actions));
  }
}

/** What the manager's caller is told beside the verdicts on current marks: answers about replaced rings, and whether
    a requested flush had completed. */
module OutputRingAnswers {
  import opened Prelude
  import opened OutputRing
  import opened OutputRingRuns

  lemma {:induction false} GenerationGrows(r: Ring, actions: seq<Action>)
    ensures Run(r, actions).generation >= r.generation
    decreases actions
  {
    if actions != [] {
      StepGeneration(r, actions[0]);
      hide Step;
      GenerationGrows(Step(r, actions[0]), actions[1..]);
    }
  }

  /** Only reopening the output starts a new ring, with nothing in it. */
  lemma StepGeneration(r: Ring, a: Action)
    ensures var t := Step(r, a);
            if a.Reopen? && r.producer == PIdle then t == Fresh(r.capacity, r.generation + 1) else t.generation == r.generation
  {}

  /** In every run, once the output has been reopened, every question about a mark of the earlier ring is answered
      `Discarded` at once, without looking at the new ring. */
  lemma ReplacedRingIsDiscarded(capacity: nat, before: seq<Action>, after: seq<Action>, mark: nat)
    requires var r, t := Run(Fresh(capacity, 1), before), Run(Fresh(capacity, 1), before + after);
             t.generation != r.generation && t.producer == PIdle
    ensures var r, t := Run(Fresh(capacity, 1), before), Run(Fresh(capacity, 1), before + after);
            && r.generation < t.generation
            && Told(t, AskMark(r.generation, mark)) == Some(Verdict(mark, Discarded))
            && Step(t, AskMark(r.generation, mark)) == t
  {
    hide Run;
    RunSplit(Fresh(capacity, 1), before, after);
    GenerationGrows(Run(Fresh(capacity, 1), before), after);
  }

  /** A question about the current ring is not answered before its retirement count has been read. */
  lemma CurrentRingIsAsked(r: Ring, mark: nat)
    requires r.producer == PIdle
    ensures Told(r, AskMark(r.generation, mark)).None? && Step(r, AskMark(r.generation, mark)) == r.(producer := PAsk(mark))
  {}

  // ----- Flush answers -----------------------------------------------------

  /** A call's flush counts as confirmed exactly when its own token had completed at the moment it stopped waiting. */
  lemma ConfirmedExactlyWhen(r: Ring)
    requires r.producer.PConfirm?
    ensures var t := ProducerNext(r);
            && t.producer.PQueue? && t.producer.samples == r.producer.samples
            && (t.producer.flush == Confirmed <==> r.flushCompleted >= r.producer.token)
            && (t.producer.flush == TimedOut <==> r.flushCompleted < r.producer.token)
  {}

  /** In every run, a call told that its flush completed and that had asked for one: every request so far is
      served, and every sample published before it has left the ring. A call is told so exactly when its flush was
      confirmed or it asked for none. */
  lemma FlushAnswerIsRight(capacity: nat, actions: seq<Action>, mark: Option<nat>, flushed: bool)
    requires Told(Run(Fresh(capacity, 1), actions), ProducerStep) == Some(Queued(mark, flushed))
    ensures var r := Run(Fresh(capacity, 1), actions);
            && (r.producer.PQueue? || r.producer.PPublish?)
            && (flushed <==> r.producer.flush == NotAsked || r.producer.flush == Confirmed)
            && (r.producer.flush == Confirmed ==>
                  && r.flushCompleted == r.flushRequested == |r.requestedAt|
                  && forall k :: 0 <= k < |r.requestedAt| ==> r.requestedAt[k] <= r.left)
  {
    EveryRunKeepsInv(capacity, actions);
    hide Run;
  }

  // ----- How much is moved -------------------------------------------------

  /** In every run, a call that is told its mark has published its samples in order, all of them or as many as the
      room it found, and the room it found was free when it pushed. */
  lemma PushesWhatFits(capacity: nat, actions: seq<Action>, mark: nat, flushed: bool)
    requires Told(Run(Fresh(capacity, 1), actions), ProducerStep) == Some(Queued(Some(mark), flushed))
    ensures var r := Run(Fresh(capacity, 1), actions); var samples := r.producer.samples;
            && r.producer.PPublish? && 0 < r.producer.room <= r.Vacant()
            && ProducerNext(r).published
               == r.published + samples[..if r.producer.room < |samples| then r.producer.room else |samples|]
  {
    EveryRunKeepsInv(capacity, actions);
    hide Run;
  }

  /** The room a push finds is all the room there is. */
  lemma RoomIsVacancy(r: Ring)
    requires r.producer.PPush? && r.Vacant() >= 0
    ensures ProducerNext(r).producer.PPublish? && ProducerNext(r).producer.room == r.Vacant()
  {}

  /** A callback takes as many samples as it wants or as there are, and a flush takes all of them. */
  lemma CallbackTakesWhatIsThere(r: Ring)
    requires Inv(r)
    ensures r.consumer.CPopLoad? ==>
              ConsumerNext(r).consumer == CPop(if r.consumer.want < r.Occupied() then r.consumer.want else r.Occupied())
    ensures r.consumer.CClearLoad? ==> ConsumerNext(r).consumer == CClear(r.consumer.want, r.consumer.requested, r.Occupied())
    ensures r.consumer.CPop? && r.consumer.count > 0 ==>
              var n := r.consumer.count;
              && ConsumerNext(r).left == r.left + n
              && ConsumerNext(r).played == r.played + r.published[r.left..r.left + n]
  {
    hide Flushes, Blame, Marks, HearsOnlyPopped;
  }

  // ----- Flushes without the history ---------------------------------------

  /** In every run: a call asks for a flush; once the token it got reads as completed, every sample that was in the
      ring before has left it, and nothing played later is one of them. */
  lemma RequestedFlushEmpties(capacity: nat, before: seq<Action>, samples: seq<real>, after: seq<Action>, more: seq<Action>)
    requires var r := Run(Fresh(capacity, 1), before);
             var t := Run(Step(r, Queue(samples, true)), after);
             && r.producer == PIdle && t.generation == r.generation == Run(t, more).generation
             && t.flushCompleted >= r.flushRequested + 1
    ensures var r := Run(Fresh(capacity, 1), before);
            var t := Run(Step(r, Queue(samples, true)), after); var u := Run(t, more);
            && |r.published| <= t.left && |u.fates| <= |u.published|
            && u.played == t.played + HeardFrom(u.published, u.fates, t.left)
  {
    EveryRunKeepsInv(capacity, before);
    var r := Run(Fresh(capacity, 1), before);
    var q := Step(r, Queue(samples, true));
    assert q == Request(r, samples) && q.requestedAt[r.flushRequested] == |r.published|;
    StepKeepsInv(r, Queue(samples, true));
    RunGrows(q, after);
    var t := Run(q, after);
    assert t.requestedAt[r.flushRequested] == |r.published|;
    FlushIsComplete(t, r.flushRequested + 1, more);
    hide Run, Step, Inv;
  }

  lemma StepKeepsStamps(r: Ring, a: Action)
    ensures var t := Step(r, a); t.generation == r.generation ==> r.stamps <= t.stamps
  {}

  lemma {:induction false} StampsStay(r: Ring, actions: seq<Action>)
    requires Run(r, actions).generation == r.generation
    ensures r.stamps <= Run(r, actions).stamps
    decreases actions
  {
    if actions != [] {
      var t := Step(r, actions[0]);
      StepKeepsStamps(r, actions[0]);
      StepGeneration(r, actions[0]);
      GenerationGrows(t, actions[1..]);
      hide Step;
      StampsStay(t, actions[1..]);
    }
  }

  /** In every run: the samples of a call that saw its own flush complete are discarded, if at all, only by a flush
      requested after they were queued. */
  lemma QueuedAfterFlushSurvives(capacity: nat, before: seq<Action>, mark: nat, after: seq<Action>, i: nat)
    requires var r := Run(Fresh(capacity, 1), before); var q := ProducerNext(r); var t := Run(q, after);
             && Told(r, ProducerStep) == Some(Queued(Some(mark), true)) && r.producer.flush == Confirmed
             && t.generation == r.generation && |r.published| <= i < |q.published| && i < |t.fates| && t.fates[i].Flushed?
    ensures var r := Run(Fresh(capacity, 1), before); var t := Run(ProducerNext(r), after);
            r.flushRequested < t.fates[i].token <= t.flushRequested
  {
    EveryRunKeepsInv(capacity, before);
    var r := Run(Fresh(capacity, 1), before);
    var q := ProducerNext(r);
    ProducerKeepsInv(r);
    assert q.stamps[i] == Stamp(r.flushCompleted, r.flushRequested, Confirmed);
    StampsStay(q, after);
    RunKeepsInv(q, after);
    var t := Run(q, after);
    DiscardNeedsLaterFlush(t, i);
    hide Run, Inv;
  }
}

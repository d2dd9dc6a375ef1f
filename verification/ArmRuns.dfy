/** What every run of arm events keeps: the gate against an independent log of what happened, the
    heartbeats behind a permit, the permanence of expiry, and the separation of the two channels. */
module ArmRuns {
  import opened Prelude
  import opened Arm

  // ----- A reference that only remembers events ----------------------------

  /** One accepted heartbeat. */
  datatype Beat = Beat(armJti: string, seqNo: U64, at: ArmTime)

  /** The grant in force, when it was accepted, and the heartbeats accepted since. */
  datatype Armed = Armed(grant: Grant, at: ArmTime, beats: seq<Beat>) {
    /** The latest instant the client was heard: the last heartbeat, or the arm itself. */
    function LastHeard(): ArmTime { if beats == [] then at else beats[|beats| - 1].at }

    predicate Alive(now: ArmTime) {
      && now.unixMs < grant.armedUntilMs
      && now.unixMs < grant.capabilityExpMs
      && now.unixMs < grant.txEnabledUntilMs
      && Within(at, now, Lifetime(grant, at))
      && Within(LastHeard(), now, 30_000)
    }
  }

  /** Less than `ms` milliseconds after `since` on both elapsed clocks, and not before it on either. */
  predicate Within(since: ArmTime, now: ArmTime, ms: int) {
    && 0 <= now.monotonic - since.monotonic < ms * 1_000_000
    && 0 <= now.suspendAwareMs - since.suspendAwareMs < ms
  }

  /** Milliseconds of authority left in a grant at `now`, in exact arithmetic. */
  function Lifetime(g: Grant, now: ArmTime): int {
    Min(Min(g.ttlMs, g.effectiveTtlMs),
        Min(g.armedUntilMs - now.unixMs, Min(g.capabilityExpMs - now.unixMs, g.txEnabledUntilMs - now.unixMs)))
  }

  datatype Log = Log(arm: Option<Armed>, stationAgent: bool, wsjtx: bool, killed: bool) {
    /** The conjunction of every gate. */
    predicate Open(now: ArmTime, channel: Channel) {
      && arm.Some? && arm.value.Alive(now)
      && (match channel case StationAgent => stationAgent case WsjtxUdp => wsjtx)
      && !killed
    }
  }

  function LogStep(l: Log, e: Event): Log {
    match e
    case ArmEvent(g, now) =>
      if g.scopeTx && l.stationAgent && Lifetime(g, now) > 0 then l.(arm := Some(Armed(g, now, []))) else l
    case HeartbeatEvent(jti, seqNo, now) =>
      if l.arm.None? then l
      else if !l.arm.value.Alive(now) then l.(arm := None)
      else
        var a := l.arm.value;
        if jti == a.grant.jti && (a.beats == [] || seqNo > a.beats[|a.beats| - 1].seqNo)
        then l.(arm := Some(a.(beats := a.beats + [Beat(jti, seqNo, now)])))
        else l
    case DisarmEvent(_, _) => l.(arm := None)
    case ConsentEvent(channel, enabled, _) =>
      if channel == StationAgent then l.(stationAgent := enabled) else l.(wsjtx := enabled)
    case KillEvent(engaged, _) => l.(killed := engaged)
    case TickEvent(now) => if l.arm.Some? && !l.arm.value.Alive(now) then l.(arm := None) else l
  }

  function LogRun(l: Log, events: seq<Event>): Log
    decreases events
  {
    if events == [] then l else LogRun(LogStep(l, events[0]), events[1..])
  }

  const EmptyLog: Log := Log(None, false, false, false)

  // ----- The gate is the conjunction --------------------------------------

  /** The stored session is the log's arm, field by field. */
  ghost predicate Records(s: Session, a: Armed) {
    && s.scopeTx
    && s.armedAt == a.at.monotonic && s.armedAtSuspendAwareMs == a.at.suspendAwareMs
    && s.lifetimeMs == Lifetime(a.grant, a.at) > 0
    && s.armedUntilMs == a.grant.armedUntilMs
    && s.capabilityExpMs == a.grant.capabilityExpMs
    && s.txEnabledUntilMs == a.grant.txEnabledUntilMs
    && s.lifetimeReason in {TtlExpired, CapabilityExpired, TxEnablementExpired}
    && s.currentJti == a.grant.jti
    && s.lastHeartbeat == a.LastHeard().monotonic
    && s.lastHeartbeatSuspendAwareMs == a.LastHeard().suspendAwareMs
    && (s.lastHeartbeatSeq.None? <==> a.beats == [])
    && (a.beats != [] ==> s.lastHeartbeatSeq == Some(a.beats[|a.beats| - 1].seqNo))
  }

  ghost predicate Matches(st: State, l: Log) {
    && st.stationAgentConsent == l.stationAgent && st.wsjtxConsent == l.wsjtx && st.localKill == l.killed
    && (st.session.Some? <==> l.arm.Some?)
    && (st.session.Some? ==> Records(st.session.value, l.arm.value))
  }

  /** An arm expires exactly when the log says it is no longer alive, for one of four reasons. */
  lemma ExpiryIsNotAlive(s: Session, a: Armed, now: ArmTime)
    requires Records(s, a)
    ensures s.ExpiredReason(now).None? <==> a.Alive(now)
    ensures s.ExpiredReason(now).Some? ==>
              s.ExpiredReason(now).value in {TtlExpired, CapabilityExpired, TxEnablementExpired, HeartbeatLost}
  {}

  /** The accepted lifetime is the exact remaining authority: saturation never shows. */
  lemma LifetimeIsExact(g: Grant, now: ArmTime)
    ensures GrantLifetime(g, now).0 > 0 <==> Lifetime(g, now) > 0
    ensures Lifetime(g, now) > 0 ==> GrantLifetime(g, now).0 == Lifetime(g, now)
    ensures GrantLifetime(g, now).1 in {TtlExpired, CapabilityExpired, TxEnablementExpired}
  {}

  lemma StepMatches(st: State, l: Log, e: Event)
    requires Matches(st, l)
    ensures Matches(Step(st, e).0, LogStep(l, e))
  {
    hide Session.ExpiredReason, Armed.Alive;
    match e {
      case ArmEvent(g, now) => LifetimeIsExact(g, now);
      case HeartbeatEvent(_, _, now) =>
        if st.session.Some? { ExpiryIsNotAlive(st.session.value, l.arm.value, now); }
      case TickEvent(now) =>
        if st.session.Some? { ExpiryIsNotAlive(st.session.value, l.arm.value, now); }
      case _ =>
    }
  }

  lemma {:induction false} RunMatches(st: State, l: Log, events: seq<Event>)
    requires Matches(st, l)
    ensures Matches(Run(st, events), LogRun(l, events))
    decreases events
  {
    if events != [] {
      StepMatches(st, l, events[0]);
      RunMatches(Step(st, events[0]).0, LogStep(l, events[0]), events[1..]);
    }
  }

  /** After every run and at every sample of the three clocks, TX is permitted on a channel exactly
      when all gates of the event log are open for it. */
  lemma GateIsConjunction(events: seq<Event>, now: ArmTime, channel: Channel)
    ensures Run(New, events).TxPermitted(now, channel) <==> LogRun(EmptyLog, events).Open(now, channel)
    ensures Run(New, events).session.Some? <==> LogRun(EmptyLog, events).arm.Some?
  {
    RunMatches(New, EmptyLog, events);
    var st, l := Run(New, events), LogRun(EmptyLog, events);
    if st.session.Some? { ExpiryIsNotAlive(st.session.value, l.arm.value, now); }
  }

  // ----- Heartbeats behind a permit ----------------------------------------

  /** Every accepted heartbeat names this arm, raises the sequence number, and came while the one before
      it (or the arm) was less than 30 s old on both elapsed clocks. */
  ghost predicate Covered(a: Armed)
    decreases |a.beats|
  {
    a.beats == [] ||
    var before, last := a.(beats := a.beats[..|a.beats| - 1]), a.beats[|a.beats| - 1];
    && Covered(before)
    && last.armJti == a.grant.jti
    && (before.beats != [] ==> before.beats[|before.beats| - 1].seqNo < last.seqNo)
    && Within(before.LastHeard(), last.at, 30_000)
  }

  lemma StepCovered(l: Log, e: Event)
    requires l.arm.Some? ==> Covered(l.arm.value)
    ensures var l' := LogStep(l, e); l'.arm.Some? ==> Covered(l'.arm.value)
  {
    var l' := LogStep(l, e);
    if e.HeartbeatEvent? && l.arm.Some? && l'.arm.Some? && l'.arm != l.arm {
      var a, a' := l.arm.value, l'.arm.value;
      assert a'.beats[..|a'.beats| - 1] == a.beats;
      assert a'.(beats := a'.beats[..|a'.beats| - 1]) == a;
    }
  }

  lemma {:induction false} RunCovered(l: Log, events: seq<Event>)
    requires l.arm.Some? ==> Covered(l.arm.value)
    ensures var r := LogRun(l, events); r.arm.Some? ==> Covered(r.arm.value)
    decreases events
  {
    if events != [] {
      StepCovered(l, events[0]);
      RunCovered(LogStep(l, events[0]), events[1..]);
    }
  }

  /** `n` heartbeats reach at most `n` silence windows past the arm. */
  lemma {:induction false} BeatsReach(a: Armed)
    requires Covered(a)
    ensures 0 <= a.LastHeard().monotonic - a.at.monotonic <= |a.beats| * (30_000 * 1_000_000)
    ensures 0 <= a.LastHeard().suspendAwareMs - a.at.suspendAwareMs <= |a.beats| * 30_000
    decreases |a.beats|
  {
    if a.beats != [] {
      BeatsReach(a.(beats := a.beats[..|a.beats| - 1]));
    }
  }

  /** Whenever TX is permitted, the heartbeats accepted since the arm account for the whole time since:
      `n` of them keep the arm alive for less than `(n + 1) * 30,000` ms on either elapsed clock. */
  lemma HeartbeatCoverage(events: seq<Event>, now: ArmTime, channel: Channel)
    requires Run(New, events).TxPermitted(now, channel)
    ensures var l := LogRun(EmptyLog, events);
            && l.arm.Some? && Covered(l.arm.value)
            && var a, n := l.arm.value, |l.arm.value.beats|;
            && Within(a.LastHeard(), now, 30_000)
            && now.monotonic - a.at.monotonic < (n + 1) * (30_000 * 1_000_000)
            && now.suspendAwareMs - a.at.suspendAwareMs < (n + 1) * 30_000
  {
    GateIsConjunction(events, now, channel);
    RunCovered(EmptyLog, events);
    var a := LogRun(EmptyLog, events).arm.value;
    BeatsReach(a);
  }

  /** A heartbeat for another arm, or with a sequence number already used, changes nothing unless the arm
      had already expired; then it only disarms. */
  lemma RefusedHeartbeatIsInert(st: State, jti: string, seqNo: U64, now: ArmTime)
    requires st.session.Some?
    requires var s := st.session.value;
             jti != s.currentJti || (s.lastHeartbeatSeq.Some? && seqNo <= s.lastHeartbeatSeq.value)
    ensures var st' := Step(st, HeartbeatEvent(jti, seqNo, now)).0;
            if st.session.value.ExpiredReason(now).None? then st' == st else st' == st.(session := None)
  {}

  /** The same state, or the same without its arm. */
  ghost predicate AtMost(a: State, b: State) { a == b || a == b.(session := None) }

  lemma StepAtMost(a: State, b: State, e: Event)
    requires AtMost(a, b)
    ensures AtMost(Step(a, e).0, Step(b, e).0)
  {
    if a != b {
      match e {
        case HeartbeatEvent(jti, seqNo, now) => BeatKeepsRest(b, jti, seqNo, now);
        case _ =>
      }
    }
  }

  /** A heartbeat touches nothing but the arm. */
  lemma BeatKeepsRest(st: State, jti: string, seqNo: U64, now: ArmTime)
    ensures var st' := Step(st, HeartbeatEvent(jti, seqNo, now)).0; st' == st.(session := st'.session)
    ensures st.session.None? ==> Step(st, HeartbeatEvent(jti, seqNo, now)).0 == st
  {}

  lemma {:induction false} RunAtMost(a: State, b: State, events: seq<Event>)
    requires AtMost(a, b)
    ensures AtMost(Run(a, events), Run(b, events))
    decreases events
  {
    if events != [] {
      StepAtMost(a, b, events[0]);
      RunAtMost(Step(a, events[0]).0, Step(b, events[0]).0, events[1..]);
    }
  }

  /** A heartbeat that names another arm or reuses a sequence number, anywhere in any run, never permits what
      would be denied without it. */
  lemma RefusedHeartbeatNeverHelps(before: seq<Event>, beat: Event, after: seq<Event>, now: ArmTime, channel: Channel)
    requires beat.HeartbeatEvent?
    requires var st := Run(New, before);
             st.session.Some? ==>
               var s := st.session.value;
               beat.armJti != s.currentJti || (s.lastHeartbeatSeq.Some? && beat.seqNo <= s.lastHeartbeatSeq.value)
    ensures Run(New, before + [beat] + after).TxPermitted(now, channel) ==> Run(New, before + after).TxPermitted(now, channel)
  {
    var st := Run(New, before);
    var st' := Step(st, beat).0;
    if st.session.Some? { RefusedHeartbeatIsInert(st, beat.armJti, beat.seqNo, beat.now); }
    assert AtMost(st', st);
    RunAtMost(st', st, after);
    RunSplit(New, before, after);
    RunSplit(New, before, [beat] + after);
    assert before + [beat] + after == before + ([beat] + after) && ([beat] + after)[1..] == after;
  }

  // ----- Expiry is permanent -----------------------------------------------

  /** Some elapsed limit of the arm has been reached at `now`, on either elapsed clock. */
  predicate ElapsedLimitReached(s: Session, now: ArmTime) {
    || now.monotonic - s.armedAt >= Max(0, s.lifetimeMs) * 1_000_000
    || now.suspendAwareMs - s.armedAtSuspendAwareMs >= s.lifetimeMs
    || now.monotonic - s.lastHeartbeat >= 30_000 * 1_000_000
    || now.suspendAwareMs - s.lastHeartbeatSuspendAwareMs >= 30_000
  }

  /** Neither elapsed clock is earlier; the wall clock may be anywhere. */
  predicate NotEarlier(t0: ArmTime, t: ArmTime) {
    t0.monotonic <= t.monotonic && t0.suspendAwareMs <= t.suspendAwareMs
  }

  predicate SampledAfter(t0: ArmTime, e: Event) {
    match e
    case ArmEvent(_, now) => NotEarlier(t0, now)
    case HeartbeatEvent(_, _, now) => NotEarlier(t0, now)
    case TickEvent(now) => NotEarlier(t0, now)
    case _ => true
  }

  predicate NoArmAccepted(st: State, events: seq<Event>)
    decreases events
  {
    events == [] ||
    (&& !(events[0].ArmEvent? && Accepts(st, events[0].grant, events[0].now))
     && NoArmAccepted(Step(st, events[0]).0, events[1..]))
  }

  lemma ReachedStaysReached(s: Session, t0: ArmTime, now: ArmTime)
    requires ElapsedLimitReached(s, t0) && NotEarlier(t0, now)
    ensures s.ExpiredReason(now).Some?
  {}

  /** Once the lifetime or the silence limit has been reached, with or without a tick, no later sample is
      permitted until an arm is accepted again: no heartbeat, tick, consent or kill event brings it back,
      wherever the wall clock goes. */
  lemma {:induction false} ElapsedExpiryIsPermanent(st: State, t0: ArmTime, events: seq<Event>, now: ArmTime, channel: Channel)
    requires st.session.Some? ==> ElapsedLimitReached(st.session.value, t0)
    requires forall i :: 0 <= i < |events| ==> SampledAfter(t0, events[i])
    requires NoArmAccepted(st, events) && NotEarlier(t0, now)
    ensures !Run(st, events).TxPermitted(now, channel)
    decreases events
  {
    if events == [] {
      if st.session.Some? { ReachedStaysReached(st.session.value, t0, now); }
    } else {
      var e := events[0];
      assert SampledAfter(t0, e);
      if st.session.Some? && (e.HeartbeatEvent? || e.TickEvent?) {
        ReachedStaysReached(st.session.value, t0, e.now);
      }
      ElapsedExpiryIsPermanent(Step(st, e).0, t0, events[1..], now, channel);
    }
  }

  /** With no arm stored, no run permits TX until an arm is accepted. */
  lemma {:induction false} DisarmedStaysDenied(st: State, events: seq<Event>, now: ArmTime, channel: Channel)
    requires st.session.None? && NoArmAccepted(st, events)
    ensures !Run(st, events).TxPermitted(now, channel)
    decreases events
  {
    if events != [] {
      DisarmedStaysDenied(Step(st, events[0]).0, events[1..], now, channel);
    }
  }

  /** A signed wall-clock horizon is permanent once a tick or heartbeat has observed it, even if the wall
      clock and both elapsed clocks then run backwards. */
  lemma ObservedHorizonIsPermanent(st: State, seen: Event, events: seq<Event>, now: ArmTime, channel: Channel)
    requires seen.TickEvent? || seen.HeartbeatEvent?
    requires st.session.Some? ==>
               var s := st.session.value;
               seen.now.unixMs >= Min(s.armedUntilMs, Min(s.capabilityExpMs, s.txEnabledUntilMs))
    requires NoArmAccepted(Step(st, seen).0, events)
    ensures !Run(st, [seen] + events).TxPermitted(now, channel)
  {
    var st' := Step(st, seen).0;
    assert st'.session.None?;
    DisarmedStaysDenied(st', events, now, channel);
    assert ([seen] + events)[1..] == events;
  }

  /** The clock readings an arm stores are not after `now`. */
  predicate ReadingsBefore(s: Session, now: ArmTime) {
    && s.armedAt <= now.monotonic && s.armedAtSuspendAwareMs <= now.suspendAwareMs
    && s.lastHeartbeat <= now.monotonic && s.lastHeartbeatSuspendAwareMs <= now.suspendAwareMs
  }

  function Horizon(s: Session): int { Min(s.armedUntilMs, Min(s.capabilityExpMs, s.txEnabledUntilMs)) }

  /** Some later sample of the elapsed clocks, with the wall clock anywhere, is permitted. */
  ghost predicate CanReopen(st: State, late: ArmTime, channel: Channel) {
    exists back: ArmTime :: NotEarlier(late, back) && st.TxPermitted(back, channel)
  }

  /** A horizon that has passed unobserved at `late` holds back no later sample by itself: stepping the wall
      clock back restores the permit exactly when no elapsed limit has been reached and the other gates are
      open. Only observation, or an elapsed limit, makes the expiry permanent. */
  lemma UnobservedHorizonReopensExactlyWhen(st: State, late: ArmTime, channel: Channel)
    requires st.session.Some? && ReadingsBefore(st.session.value, late) && late.unixMs >= Horizon(st.session.value)
    ensures !st.TxPermitted(late, channel)
    ensures CanReopen(st, late, channel) <==>
              var s := st.session.value;
              && s.scopeTx && Horizon(s) > I64_MIN && !ElapsedLimitReached(s, late)
              && st.Consent(channel) && !st.localKill
  {
    var s := st.session.value;
    if CanReopen(st, late, channel) {
      var back: ArmTime :| NotEarlier(late, back) && st.TxPermitted(back, channel);
      if ElapsedLimitReached(s, late) { ReachedStaysReached(s, late, back); }
    }
    if Horizon(s) > I64_MIN && !ElapsedLimitReached(s, late) {
      var back := late.(unixMs := Horizon(s) - 1);
      assert NotEarlier(late, back) && s.ExpiredReason(back).None?;
    }
  }

  /** Unobserved, it is not: a wall clock stepped past the horizon and back is permitted again. */
  lemma UnobservedHorizonIsNot()
    ensures exists events: seq<Event>, late: ArmTime, back: ArmTime ::
              && NotEarlier(late, back)
              && !Run(New, events).TxPermitted(late, StationAgent)
              && Run(New, events).TxPermitted(back, StationAgent)
  {
    var t := ArmTime(0, 0, 0);
    var g := Grant("N0CALL", 60_000, 60_000, 90_000, 90_000, 60_000, 10, true, "arm-1", "client");
    var events := [ConsentEvent(StationAgent, true, 0), ArmEvent(g, t)];
    var late, back := ArmTime(60_000, 1, 1), ArmTime(1, 1, 1);
    var consented := State(None, true, false, false);
    var armed := State(Some(ArmedBy(g, t)), true, false, false);
    assert events[1..] == [ArmEvent(g, t)] && [ArmEvent(g, t)][1..] == [];
    assert Step(New, events[0]).0 == consented && Step(consented, ArmEvent(g, t)).0 == armed;
    assert Run(consented, [ArmEvent(g, t)]) == Run(armed, []) == armed;
    var st := Run(New, events);
    assert st == armed;
    assert NotEarlier(late, back) && !st.TxPermitted(late, StationAgent) && st.TxPermitted(back, StationAgent);
  }

  // ----- The two channels --------------------------------------------------

  predicate IsWsjtxConsent(e: Event) { e.ConsentEvent? && e.channel == WsjtxUdp }

  /** A run without its WSJT-X consent events. */
  function WithoutWsjtx(events: seq<Event>): seq<Event> {
    if events == [] then []
    else if IsWsjtxConsent(events[0]) then WithoutWsjtx(events[1..])
    else [events[0]] + WithoutWsjtx(events[1..])
  }

  ghost predicate SameButWsjtx(a: State, b: State) { a.(wsjtxConsent := b.wsjtxConsent) == b }

  lemma StepSameButWsjtx(a: State, b: State, e: Event)
    requires SameButWsjtx(a, b)
    ensures IsWsjtxConsent(e) ==> SameButWsjtx(Step(a, e).0, b)
    ensures !IsWsjtxConsent(e) ==> SameButWsjtx(Step(a, e).0, Step(b, e).0)
  {
    match e {
      case HeartbeatEvent(_, _, now) => assert SameButWsjtx(TickStep(a, now).0, TickStep(b, now).0);
      case _ =>
    }
  }

  lemma {:induction false} WsjtxDoesNotReach(a: State, b: State, events: seq<Event>)
    requires SameButWsjtx(a, b)
    ensures SameButWsjtx(Run(a, events), Run(b, WithoutWsjtx(events)))
    decreases events
  {
    if events != [] {
      var e, rest := events[0], WithoutWsjtx(events[1..]);
      StepSameButWsjtx(a, b, e);
      if IsWsjtxConsent(e) {
        WsjtxDoesNotReach(Step(a, e).0, b, events[1..]);
      } else {
        WsjtxDoesNotReach(Step(a, e).0, Step(b, e).0, events[1..]);
        assert ([e] + rest)[1..] == rest;
      }
    }
  }

  /** Two runs that differ only in WSJT-X consent hold the same arm and answer the same on the
      station-agent channel at every sample. */
  lemma ChannelsDoNotInterfere(a: seq<Event>, b: seq<Event>, now: ArmTime)
    requires WithoutWsjtx(a) == WithoutWsjtx(b)
    ensures Run(New, a).session == Run(New, b).session
    ensures Run(New, a).TxPermitReason(now, StationAgent) == Run(New, b).TxPermitReason(now, StationAgent)
  {
    WsjtxDoesNotReach(New, New, a);
    WsjtxDoesNotReach(New, New, b);
  }

  /** Without the station-agent bit no arm is ever stored, whatever WSJT-X consents to. */
  lemma {:induction false} WsjtxAloneNeverArms(st: State, events: seq<Event>)
    requires st.session.None? && !st.stationAgentConsent
    requires forall i :: 0 <= i < |events| ==> !(events[i].ConsentEvent? && events[i].channel == StationAgent)
    ensures Run(st, events).session.None?
    decreases events
  {
    if events != [] {
      WsjtxAloneNeverArms(Step(st, events[0]).0, events[1..]);
    }
  }

  // ----- Every arm ends once ------------------------------------------------

  /** Disarm announcements among the effects of one step. */
  function Announced(effects: seq<Effect>): nat {
    if effects == [] then 0 else (if effects[0].Disarmed? then 1 else 0) + Announced(effects[1..])
  }

  function Count(b: bool): nat { if b then 1 else 0 }

  /** Over a run: arms stored where none was, and disarms announced. */
  function Started(st: State, events: seq<Event>): nat
    decreases events
  {
    if events == [] then 0
    else
      var st' := Step(st, events[0]).0;
      Count(st.session.None? && st'.session.Some?) + Started(st', events[1..])
  }

  function Ended(st: State, events: seq<Event>): nat
    decreases events
  {
    if events == [] then 0
    else
      var (st', effects) := Step(st, events[0]);
      Announced(effects) + Ended(st', events[1..])
  }

  /** A step announces a disarm exactly when it removes the arm, and then once. */
  lemma DisarmIsAnnounced(st: State, e: Event)
    ensures var (st', effects) := Step(st, e);
            Announced(effects) == Count(st.session.Some? && st'.session.None?)
  {
    var effects := Step(st, e).1;
    AnnouncedFew(effects);
  }

  lemma AnnouncedFew(effects: seq<Effect>)
    requires |effects| <= 2
    ensures Announced(effects) == Count(|effects| > 0 && effects[0].Disarmed?) + Count(|effects| > 1 && effects[1].Disarmed?)
  {
    if |effects| > 0 {
      var rest := effects[1..];
      assert Announced(effects) == Count(effects[0].Disarmed?) + Announced(rest);
      if |rest| > 0 {
        assert rest[0] == effects[1] && rest[1..] == [];
        assert Announced(rest) == Count(rest[0].Disarmed?) + Announced([]);
      }
    }
  }

  /** In every run the disarms announced are the arms started, less the one still stored: no arm ends silently
      and none is announced twice. */
  lemma {:induction false} EveryArmEndsOnce(st: State, events: seq<Event>)
    ensures Count(st.session.Some?) + Started(st, events) == Ended(st, events) + Count(Run(st, events).session.Some?)
    decreases events
  {
    if events != [] {
      DisarmIsAnnounced(st, events[0]);
      EveryArmEndsOnce(Step(st, events[0]).0, events[1..]);
    }
  }
}

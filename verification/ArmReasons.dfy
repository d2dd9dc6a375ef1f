/** Which reason every denial gives and what every event announces, from a log that only remembers events. */
module ArmReasons {
  import opened Prelude
  import opened Arm
  import opened ArmRuns

  // ----- What the log prescribes -------------------------------------------

  function EarliestHorizon(g: Grant): int { Min(g.capabilityExpMs, Min(g.txEnabledUntilMs, g.armedUntilMs)) }

  /** The horizon that comes first; of equal ones the token's expiry, then its enablement, then the window. */
  function HorizonCause(g: Grant): DisarmReason {
    if g.capabilityExpMs == EarliestHorizon(g) then CapabilityExpired
    else if g.txEnabledUntilMs == EarliestHorizon(g) then TxEnablementExpired
    else TtlExpired
  }

  /** Why the lifetime granted at `at` is as short as it is: the requested time, or a horizon. */
  function LifetimeCause(g: Grant, at: ArmTime): DisarmReason {
    if g.ttlMs < g.effectiveTtlMs && g.ttlMs < EarliestHorizon(g) - at.unixMs then TtlExpired else HorizonCause(g)
  }

  /** Why an arm has ended at `now`: a horizon on the wall clock, then the lifetime, then 30 seconds of silence. */
  function Ended(a: Armed, now: ArmTime): Option<DisarmReason> {
    if now.unixMs >= EarliestHorizon(a.grant) then Some(HorizonCause(a.grant))
    else if !ArmRuns.Within(a.at, now, Lifetime(a.grant, a.at)) then Some(LifetimeCause(a.grant, a.at))
    else if !ArmRuns.Within(a.LastHeard(), now, 30_000) then Some(HeartbeatLost)
    else None
  }

  function Denial(r: DisarmReason): DenyReason {
    match r
    case TtlExpired => Expired
    case CapabilityExpired => CapabilityExpiredDenied
    case TxEnablementExpired => TxEnablementExpiredDenied
    case HeartbeatLost => HeartbeatLostDenied
    case _ => NotArmed
  }

  /** The answer at the gate: the first of its conditions that fails. */
  function Answer(l: Log, now: ArmTime, channel: Channel): TxPermit {
    if l.arm.None? then Denied(NotArmed)
    else if Ended(l.arm.value, now).Some? then Denied(Denial(Ended(l.arm.value, now).value))
    else if !(if channel == StationAgent then l.stationAgent else l.wsjtx) then Denied(NoLocalConsent)
    else if l.killed then Denied(LocallyKilled)
    else Permitted
  }

  function Holder(l: Log): Option<string> { if l.arm.Some? then Some(l.arm.value.grant.operator) else None }

  /** The end of an arm, on record and announced. */
  function EndEffects(a: Armed, now: ArmTime): seq<Effect> {
    if Ended(a, now).None? then []
    else [Audit(now.unixMs, Some(a.grant.operator), AutoDisarmed(Ended(a, now).value)), Disarmed(Ended(a, now).value)]
  }

  function Refusal(a: Armed, refusal: RejectReason, now: ArmTime): seq<Effect> {
    [Audit(now.unixMs, Some(a.grant.operator), HeartbeatRefused(refusal)), HeartbeatRejected(refusal)]
  }

  /** Everything an event puts on record and announces. */
  function Effects(l: Log, e: Event): seq<Effect> {
    match e
    case ArmEvent(g, now) =>
      [Audit(now.unixMs, Some(g.operator),
             if !g.scopeTx then ArmRejectedScope
             else if !l.stationAgent then ArmRejectedConsent
             else if Lifetime(g, now) <= 0 then ArmRejectedExpired(LifetimeCause(g, now))
             else ArmAccepted(Lifetime(g, now), g.heartbeatIntervalSec))]
    case HeartbeatEvent(jti, seqNo, now) =>
      if l.arm.None? then []
      else
        var a := l.arm.value;
        if Ended(a, now).Some? then EndEffects(a, now)
        else if jti != a.grant.jti then Refusal(a, JtiMismatch, now)
        else if a.beats != [] && seqNo <= a.beats[|a.beats| - 1].seqNo then Refusal(a, NonMonotonicSeq, now)
        else []
    case DisarmEvent(reason, ms) =>
      if l.arm.None? then [] else [Audit(ms, Holder(l), DisarmedBy(reason)), Disarmed(reason)]
    case ConsentEvent(channel, enabled, ms) =>
      if (if channel == StationAgent then l.stationAgent else l.wsjtx) == enabled then []
      else [Audit(ms, Holder(l), ConsentSet(channel, enabled))]
    case KillEvent(engaged, ms) => if l.killed == engaged then [] else [Audit(ms, Holder(l), KillSet(engaged))]
    case TickEvent(now) => if l.arm.None? then [] else EndEffects(l.arm.value, now)
  }

  // ----- The state machine does that ---------------------------------------

  /** The session also keeps who armed it and why its lifetime is what it is. */
  ghost predicate Tracks(st: State, l: Log) {
    && Matches(st, l)
    && (st.session.Some? ==>
          var s, g := st.session.value, l.arm.value.grant;
          && s.operator == g.operator && s.clientKeyId == g.clientKeyId && s.heartbeatIntervalSec == g.heartbeatIntervalSec
          && s.lifetimeReason == LifetimeCause(g, l.arm.value.at))
  }

  lemma LifetimeCaused(g: Grant, now: ArmTime)
    ensures GrantLifetime(g, now).1 == LifetimeCause(g, now)
    ensures AuthorityDeadline(g.armedUntilMs, g.capabilityExpMs, g.txEnabledUntilMs) == (EarliestHorizon(g), HorizonCause(g))
  {}

  /** The stored session ends for the reason the log gives, and at no other time. */
  lemma EndsForReason(st: State, l: Log, now: ArmTime)
    requires Tracks(st, l) && st.session.Some?
    ensures st.session.value.ExpiredReason(now) == Ended(l.arm.value, now)
  {
    LifetimeCaused(l.arm.value.grant, l.arm.value.at);
    hide GrantLifetime, AuthorityDeadline, LifetimeCause, HorizonCause, Lifetime;
  }

  lemma StepTracks(st: State, l: Log, e: Event)
    requires Tracks(st, l)
    ensures Tracks(Step(st, e).0, LogStep(l, e))
  {
    StepMatches(st, l, e);
    match e {
      case ArmEvent(g, now) =>
        LifetimeIsExact(g, now);
        LifetimeCaused(g, now);
        hide GrantLifetime, LifetimeCause, Lifetime;
      case _ =>
        KeepsHolder(st, e);
        hide Step, LifetimeCause, Matches;
        LogKeepsGrant(l, e);
    }
  }

  /** Only an arm event changes who holds the session. */
  lemma KeepsHolder(st: State, e: Event)
    requires !e.ArmEvent?
    ensures var st' := Step(st, e).0;
            st'.session.Some? ==>
              && st.session.Some?
              && st'.session.value == st.session.value.(lastHeartbeat := st'.session.value.lastHeartbeat,
                   lastHeartbeatSuspendAwareMs := st'.session.value.lastHeartbeatSuspendAwareMs,
                   lastHeartbeatSeq := st'.session.value.lastHeartbeatSeq)
  {}

  lemma LogKeepsGrant(l: Log, e: Event)
    requires !e.ArmEvent?
    ensures var l' := LogStep(l, e);
            l'.arm.Some? ==> l.arm.Some? && l'.arm.value.grant == l.arm.value.grant && l'.arm.value.at == l.arm.value.at
  {}

  lemma StepEffects(st: State, l: Log, e: Event)
    requires Tracks(st, l)
    ensures Step(st, e).1 == Effects(l, e)
  {
    match e {
      case ArmEvent(g, now) =>
        LifetimeIsExact(g, now);
        LifetimeCaused(g, now);
        hide GrantLifetime, LifetimeCause, Lifetime, Records;
      case HeartbeatEvent(_, _, now) =>
        if st.session.Some? { EndsForReason(st, l, now); }
        hide Session.ExpiredReason, Ended;
      case TickEvent(now) =>
        if st.session.Some? { EndsForReason(st, l, now); }
        hide Session.ExpiredReason, Ended;
      case _ => hide Records;
    }
  }

  lemma {:induction false} RunTracks(st: State, l: Log, events: seq<Event>)
    requires Tracks(st, l)
    ensures Tracks(Run(st, events), LogRun(l, events))
    decreases events
  {
    hide Tracks, Step, LogStep;
    if events != [] {
      StepTracks(st, l, events[0]);
      RunTracks(Step(st, events[0]).0, LogStep(l, events[0]), events[1..]);
    }
  }

  /** After every run the gate gives, at every sample of the three clocks, exactly the answer the event log
      prescribes: a permit, or the first condition that fails, by name. */
  lemma EveryAnswerIsPrescribed(events: seq<Event>, now: ArmTime, channel: Channel)
    ensures Run(New, events).TxPermitReason(now, channel) == Answer(LogRun(EmptyLog, events), now, channel)
  {
    RunTracks(New, EmptyLog, events);
    var st, l := Run(New, events), LogRun(EmptyLog, events);
    if st.session.Some? { EndsForReason(st, l, now); }
    hide Run, LogRun, Session.ExpiredReason, Ended;
  }

  /** In every run each event has exactly the effects the event log prescribes: who, when, what and why. */
  lemma EveryEffectIsPrescribed(events: seq<Event>, e: Event)
    ensures Step(Run(New, events), e).1 == Effects(LogRun(EmptyLog, events), e)
  {
    RunTracks(New, EmptyLog, events);
    hide Run, LogRun, Step, Effects;
    StepEffects(Run(New, events), LogRun(EmptyLog, events), e);
  }
}

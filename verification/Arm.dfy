/** The armed-TX state machine: one question, "is remote TX permitted right now?", answered from a
    stored arm, three clocks, two consent bits and a kill switch. */
module Arm {
  import opened Prelude

  const HEARTBEAT_TIMEOUT_MS: I64 := 30_000
  /** Nanoseconds per millisecond: monotonic instants are in nanoseconds, everything else in milliseconds. */
  const NS_PER_MS: int := 1_000_000

  /** One sample of the three clocks. The monotonic instant is in nanoseconds from an arbitrary origin. */
  datatype ArmTime = ArmTime(unixMs: I64, monotonic: nat, suspendAwareMs: I64)

  datatype Grant = Grant(
    operator: string,
    ttlMs: I64,
    armedUntilMs: I64,
    capabilityExpMs: I64,
    txEnabledUntilMs: I64,
    effectiveTtlMs: I64,
    heartbeatIntervalSec: I64,
    scopeTx: bool,
    jti: string,
    clientKeyId: string)

  datatype DisarmReason =
    | OperatorDisarm | TtlExpired | CapabilityExpired | TxEnablementExpired
    | HeartbeatLost | ComponentCrash | AuthorizationRevoked

  datatype DenyReason =
    | NotArmed | Expired | CapabilityExpiredDenied | TxEnablementExpiredDenied
    | HeartbeatLostDenied | NoLocalConsent | LocallyKilled | NoTxScope

  datatype TxPermit = Permitted | Denied(reason: DenyReason)

  datatype Channel = StationAgent | WsjtxUdp

  datatype RejectReason = JtiMismatch | NonMonotonicSeq

  /** What an audit record says, in place of its rendered text. */
  datatype Detail =
    | ArmRejectedScope
    | ArmRejectedConsent
    | ArmRejectedExpired(reason: DisarmReason)
    | ArmAccepted(lifetimeMs: int, heartbeatIntervalSec: int)
    | HeartbeatRefused(refusal: RejectReason)
    | DisarmedBy(reason: DisarmReason)
    | AutoDisarmed(reason: DisarmReason)
    | ConsentSet(channel: Channel, enabled: bool)
    | KillSet(engaged: bool)

  datatype Effect =
    | Audit(unixMs: I64, operator: Option<string>, detail: Detail)
    | Disarmed(reason: DisarmReason)
    | HeartbeatRejected(refusal: RejectReason)

  /** Earliest signed horizon and its cause; ties prefer capability, then enablement, then the arm. */
  function AuthorityDeadline(arm: I64, capability: I64, enablement: I64): (I64, DisarmReason) {
    if capability <= enablement && capability <= arm then (capability, CapabilityExpired)
    else if enablement <= arm then (enablement, TxEnablementExpired)
    else (arm, TtlExpired)
  }

  /** Whether `now - since` on the suspend-aware clock has reached `limit`; an earlier reading fails closed. */
  function SuspendAwareReaches(now: I64, since: I64, limit: I64): bool {
    now < since || SatSub64(now, since) >= limit
  }

  /** Whether the monotonic clock has reached `limit` nanoseconds past `since`; an earlier reading fails closed. */
  function MonotonicReaches(now: nat, since: nat, limit: nat): bool {
    now < since || now - since >= limit
  }

  datatype Session = Session(
    operator: string,
    armedAt: nat,
    armedAtSuspendAwareMs: I64,
    lifetimeMs: I64,
    armedUntilMs: I64,
    capabilityExpMs: I64,
    txEnabledUntilMs: I64,
    lifetimeReason: DisarmReason,
    lastHeartbeat: nat,
    lastHeartbeatSuspendAwareMs: I64,
    heartbeatIntervalSec: I64,
    scopeTx: bool,
    currentJti: string,
    clientKeyId: string,
    lastHeartbeatSeq: Option<U64>)
  {
    predicate LifetimeOver(now: ArmTime)
    {
      || MonotonicReaches(now.monotonic, armedAt, Max(0, lifetimeMs) * NS_PER_MS)
      || SuspendAwareReaches(now.suspendAwareMs, armedAtSuspendAwareMs, lifetimeMs)
    }

    predicate SilenceOver(now: ArmTime)
    {
      || MonotonicReaches(now.monotonic, lastHeartbeat, HEARTBEAT_TIMEOUT_MS * NS_PER_MS)
      || SuspendAwareReaches(now.suspendAwareMs, lastHeartbeatSuspendAwareMs, HEARTBEAT_TIMEOUT_MS)
    }

    /** The deadline that has passed at `now`, if any. */
    function ExpiredReason(now: ArmTime): Option<DisarmReason> {
      var (deadline, reason) := AuthorityDeadline(armedUntilMs, capabilityExpMs, txEnabledUntilMs);
      if now.unixMs >= deadline then Some(reason)
      else if LifetimeOver(now) then Some(lifetimeReason)
      else if SilenceOver(now) then Some(HeartbeatLost)
      else None
    }
  }

  datatype State = State(session: Option<Session>, stationAgentConsent: bool, wsjtxConsent: bool, localKill: bool) {
    function Consent(channel: Channel): bool {
      match channel case StationAgent => stationAgentConsent case WsjtxUdp => wsjtxConsent
    }

    function Operator(): Option<string> {
      if session.Some? then Some(session.value.operator) else None
    }

    /** The gate, and the first closed one when it denies. */
    function TxPermitReason(now: ArmTime, channel: Channel): TxPermit {
      if session.None? then Denied(NotArmed)
      else if !session.value.scopeTx then Denied(NoTxScope)
      else
        match session.value.ExpiredReason(now)
        case Some(TtlExpired) => Denied(Expired)
        case Some(CapabilityExpired) => Denied(CapabilityExpiredDenied)
        case Some(TxEnablementExpired) => Denied(TxEnablementExpiredDenied)
        case Some(HeartbeatLost) => Denied(HeartbeatLostDenied)
        case Some(_) => Denied(NotArmed)
        case None =>
          if !Consent(channel) then Denied(NoLocalConsent)
          else if localKill then Denied(LocallyKilled)
          else Permitted
    }

    predicate TxPermitted(now: ArmTime, channel: Channel) { TxPermitReason(now, channel) == Permitted }
  }

  const New: State := State(None, false, false, false)

  /** Elapsed lifetime an arm would get at `now`; not positive means the arm is refused. */
  function GrantLifetime(g: Grant, now: ArmTime): (I64, DisarmReason) {
    var (deadline, reason) := AuthorityDeadline(g.armedUntilMs, g.capabilityExpMs, g.txEnabledUntilMs);
    var authority := Min(g.effectiveTtlMs, SatSub64(deadline, now.unixMs));
    (Min(g.ttlMs, authority), if g.ttlMs < authority then TtlExpired else reason)
  }

  predicate Accepts(st: State, g: Grant, now: ArmTime) {
    g.scopeTx && st.stationAgentConsent && GrantLifetime(g, now).0 > 0
  }

  function ArmedBy(g: Grant, now: ArmTime): Session {
    var (lifetime, reason) := GrantLifetime(g, now);
    Session(g.operator, now.monotonic, now.suspendAwareMs, lifetime, g.armedUntilMs, g.capabilityExpMs,
            g.txEnabledUntilMs, reason, now.monotonic, now.suspendAwareMs, g.heartbeatIntervalSec, true,
            g.jti, g.clientKeyId, None)
  }

  datatype Event =
    | ArmEvent(grant: Grant, now: ArmTime)
    | HeartbeatEvent(armJti: string, seqNo: U64, now: ArmTime)
    | DisarmEvent(reason: DisarmReason, nowMs: I64)
    | ConsentEvent(channel: Channel, enabled: bool, nowMs: I64)
    | KillEvent(engaged: bool, nowMs: I64)
    | TickEvent(now: ArmTime)

  function TickStep(st: State, now: ArmTime): (State, seq<Effect>) {
    if st.session.Some? && st.session.value.ExpiredReason(now).Some? then
      var reason := st.session.value.ExpiredReason(now).value;
      (st.(session := None),
       [Audit(now.unixMs, Some(st.session.value.operator), AutoDisarmed(reason)), Disarmed(reason)])
    else (st, [])
  }

  function HeartbeatStep(st: State, armJti: string, seqNo: U64, now: ArmTime): (State, seq<Effect>) {
    var (st', expired) := TickStep(st, now);
    if expired != [] then (st', expired)
    else if st'.session.None? then (st', [])
    else
      var s := st'.session.value;
      if armJti != s.currentJti then
        (st', [Audit(now.unixMs, Some(s.operator), HeartbeatRefused(JtiMismatch)), HeartbeatRejected(JtiMismatch)])
      else if s.lastHeartbeatSeq.Some? && seqNo <= s.lastHeartbeatSeq.value then
        (st', [Audit(now.unixMs, Some(s.operator), HeartbeatRefused(NonMonotonicSeq)), HeartbeatRejected(NonMonotonicSeq)])
      else
        (st'.(session := Some(s.(lastHeartbeatSeq := Some(seqNo), lastHeartbeat := now.monotonic,
                                 lastHeartbeatSuspendAwareMs := now.suspendAwareMs))), [])
  }

  function ArmStep(st: State, g: Grant, now: ArmTime): (State, seq<Effect>) {
    if !g.scopeTx then (st, [Audit(now.unixMs, Some(g.operator), ArmRejectedScope)])
    else if !st.stationAgentConsent then (st, [Audit(now.unixMs, Some(g.operator), ArmRejectedConsent)])
    else
      var (lifetime, reason) := GrantLifetime(g, now);
      if lifetime <= 0 then (st, [Audit(now.unixMs, Some(g.operator), ArmRejectedExpired(reason))])
      else (st.(session := Some(ArmedBy(g, now))),
            [Audit(now.unixMs, Some(g.operator), ArmAccepted(lifetime, g.heartbeatIntervalSec))])
  }

  function Step(st: State, e: Event): (State, seq<Effect>) {
    match e
    case ArmEvent(g, now) => ArmStep(st, g, now)
    case HeartbeatEvent(jti, seqNo, now) => HeartbeatStep(st, jti, seqNo, now)
    case DisarmEvent(reason, ms) =>
      if st.session.Some? then
        (st.(session := None), [Audit(ms, st.Operator(), DisarmedBy(reason)), Disarmed(reason)])
      else (st, [])
    case ConsentEvent(channel, enabled, ms) =>
      if st.Consent(channel) == enabled then (st, [])
      else
        var st' := if channel == StationAgent then st.(stationAgentConsent := enabled) else st.(wsjtxConsent := enabled);
        (st', [Audit(ms, st.Operator(), ConsentSet(channel, enabled))])
    case KillEvent(engaged, ms) =>
      if st.localKill == engaged then (st, [])
      else (st.(localKill := engaged), [Audit(ms, st.Operator(), KillSet(engaged))])
    case TickEvent(now) => TickStep(st, now)
  }

  /** The state after a whole run of events. */
  function Run(st: State, events: seq<Event>): State
    decreases events
  {
    if events == [] then st else Run(Step(st, events[0]).0, events[1..])
  }

  lemma {:induction false} RunSplit(st: State, a: seq<Event>, b: seq<Event>)
    ensures Run(st, a + b) == Run(Run(st, a), b)
    decreases a
  {
    if a == [] {
      assert a + b == b;
    } else {
      assert (a + b)[0] == a[0] && (a + b)[1..] == a[1..] + b;
      RunSplit(Step(st, a[0]).0, a[1..], b);
    }
  }

  /** The stored state machine; every event method is the step above on the stored fields. */
  class ArmState {
    var session: Option<Session>
    var stationAgentConsent: bool
    var wsjtxConsent: bool
    var localKill: bool

    function View(): State
      reads this
    {
      State(session, stationAgentConsent, wsjtxConsent, localKill)
    }

    constructor ()
      ensures View() == New
    {
      session := None;
      stationAgentConsent := false;
      wsjtxConsent := false;
      localKill := false;
    }

    method ArmGrant(grant: Grant, now: ArmTime) returns (effects: seq<Effect>)
      modifies this
      ensures (View(), effects) == Step(old(View()), ArmEvent(grant, now))
    {
      if !grant.scopeTx {
        return [Audit(now.unixMs, Some(grant.operator), ArmRejectedScope)];
      }
      if !stationAgentConsent {
        return [Audit(now.unixMs, Some(grant.operator), ArmRejectedConsent)];
      }
      var (deadline, deadlineReason) :=
        AuthorityDeadline(grant.armedUntilMs, grant.capabilityExpMs, grant.txEnabledUntilMs);
      var authorityLifetime := Min(grant.effectiveTtlMs, SatSub64(deadline, now.unixMs));
      var lifetimeReason := if grant.ttlMs < authorityLifetime then TtlExpired else deadlineReason;
      var lifetimeMs := Min(grant.ttlMs, authorityLifetime);
      if lifetimeMs <= 0 {
        return [Audit(now.unixMs, Some(grant.operator), ArmRejectedExpired(lifetimeReason))];
      }
      session := Some(Session(grant.operator, now.monotonic, now.suspendAwareMs, lifetimeMs, grant.armedUntilMs,
                              grant.capabilityExpMs, grant.txEnabledUntilMs, lifetimeReason, now.monotonic,
                              now.suspendAwareMs, grant.heartbeatIntervalSec, true, grant.jti, grant.clientKeyId, None));
      return [Audit(now.unixMs, Some(grant.operator), ArmAccepted(lifetimeMs, grant.heartbeatIntervalSec))];
    }

    method Tick(now: ArmTime) returns (effects: seq<Effect>)
      modifies this
      ensures (View(), effects) == Step(old(View()), TickEvent(now))
    {
      if session.Some? {
        var reason := session.value.ExpiredReason(now);
        if reason.Some? {
          var operator := session.value.operator;
          session := None;
          return [Audit(now.unixMs, Some(operator), AutoDisarmed(reason.value)), Disarmed(reason.value)];
        }
      }
      return [];
    }

    method Heartbeat(armJti: string, seqNo: U64, now: ArmTime) returns (effects: seq<Effect>)
      modifies this
      ensures (View(), effects) == Step(old(View()), HeartbeatEvent(armJti, seqNo, now))
    {
      var expired := Tick(now);
      if expired != [] {
        return expired;
      }
      if session.None? {
        return [];
      }
      var s := session.value;
      if armJti != s.currentJti {
        return [Audit(now.unixMs, Some(s.operator), HeartbeatRefused(JtiMismatch)), HeartbeatRejected(JtiMismatch)];
      }
      if s.lastHeartbeatSeq.Some? {
        if seqNo <= s.lastHeartbeatSeq.value {
          return [Audit(now.unixMs, Some(s.operator), HeartbeatRefused(NonMonotonicSeq)), HeartbeatRejected(NonMonotonicSeq)];
        }
      }
      session := Some(s.(lastHeartbeatSeq := Some(seqNo), lastHeartbeat := now.monotonic,
                         lastHeartbeatSuspendAwareMs := now.suspendAwareMs));
      return [];
    }

    method DisarmWithReason(reason: DisarmReason, nowMs: I64) returns (effects: seq<Effect>)
      modifies this
      ensures (View(), effects) == Step(old(View()), DisarmEvent(reason, nowMs))
    {
      if session.None? {
        return [];
      }
      var operator := session.value.operator;
      session := None;
      return [Audit(nowMs, Some(operator), DisarmedBy(reason)), Disarmed(reason)];
    }

    method SetChannelConsent(channel: Channel, enabled: bool, nowMs: I64) returns (effects: seq<Effect>)
      modifies this
      ensures (View(), effects) == Step(old(View()), ConsentEvent(channel, enabled, nowMs))
    {
      match channel {
        case StationAgent =>
          if stationAgentConsent == enabled { return []; }
          stationAgentConsent := enabled;
        case WsjtxUdp =>
          if wsjtxConsent == enabled { return []; }
          wsjtxConsent := enabled;
      }
      return [Audit(nowMs, View().Operator(), ConsentSet(channel, enabled))];
    }

    method SetLocalKill(engaged: bool, nowMs: I64) returns (effects: seq<Effect>)
      modifies this
      ensures (View(), effects) == Step(old(View()), KillEvent(engaged, nowMs))
    {
      if localKill == engaged { return []; }
      localKill := engaged;
      return [Audit(nowMs, View().Operator(), KillSet(engaged))];
    }
  }
}

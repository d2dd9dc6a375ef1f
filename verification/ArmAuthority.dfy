/** The verifier and the state machine together: what a permit says about the token and grant behind it. */
module ArmAuthority {
  import opened Prelude
  import opened Arm
  import opened ArmRuns
  import opened Capability

  /** A token and grant that were both accepted, and when. */
  datatype Minting = Minting(
    verifier: Verifier, token: Token, tokenSigned: (string, Token) -> bool, tokenAt: I64,
    request: Request, grantSigned: GrantFields -> bool, seen: set<string>)

  /** `g` was minted from a verified token by a verified grant. */
  ghost predicate Minted(g: Grant, m: Minting) {
    && VerifyToken(m.verifier, m.token, m.tokenSigned, m.tokenAt) == Ok(m.request.capability)
    && VerifyArmGrant(m.verifier, m.request, m.grantSigned, m.seen).0 == Ok(g)
  }

  // ----- Exactly which tokens and grants are accepted -----------------------

  /** What a token must be, in no particular order and without saturating arithmetic. */
  ghost predicate GoodToken(v: Verifier, t: Token, signed: (string, Token) -> bool, nowMs: I64) {
    && t.wellFormed && t.alg == Some("EdDSA")
    && t.kid.Some? && t.kid.value in v.pinnedKids && signed(t.kid.value, t)
    && t.claims.aud == Some(v.agentKeyId)
    && t.claims.exp.Some? && t.claims.iat.Some? && GoodTimes(t.claims, t.claims.exp.value, t.claims.iat.value, nowMs)
    && t.claims.scopes.Some?
    && (forall i :: 0 <= i < |t.claims.scopes.value| ==> t.claims.scopes.value[i].Some?)
    && t.claims.clientKeyId.Some? && t.claims.jti.Some?
  }

  /** Unexpired, issued at most two minutes ahead, and either short-lived or enabled for at most a day. */
  predicate GoodTimes(c: Claims, exp: int, iat: int, nowMs: int) {
    && exp * 1000 > nowMs - nowMs % 1000 && (iat - 120) * 1000 <= nowMs
    && match c.txEnabledUntil
       case Absent => exp - iat <= 900
       case WrongType => false
       case Num(until) => until == exp && until - iat <= 86_400
  }

  lemma {:induction false} AllPresentExactlyWhen(xs: seq<Option<string>>)
    ensures AllPresent(xs).Some? <==> forall i :: 0 <= i < |xs| ==> xs[i].Some?
  {
    if xs != [] {
      AllPresentExactlyWhen(xs[1..]);
      assert (forall i :: 0 <= i < |xs| ==> xs[i].Some?) <==>
             xs[0].Some? && (forall i :: 0 <= i < |xs[1..]| ==> xs[1..][i].Some?) by {
        assert forall i :: 1 <= i < |xs| ==> xs[i] == xs[1..][i - 1];
      }
    }
  }

  /** A token verifies if and only if it is good. */
  lemma TokenAcceptedExactlyWhen(v: Verifier, t: Token, signed: (string, Token) -> bool, nowMs: I64)
    ensures VerifyToken(v, t, signed, nowMs).Ok? <==> GoodToken(v, t, signed, nowMs)
  {
    if t.claims.scopes.Some? { AllPresentExactlyWhen(t.claims.scopes.value); }
  }

  /** What a grant must be before its jti is used up. */
  ghost predicate Admissible(v: Verifier, r: Request, signed: GrantFields -> bool, seen: set<string>) {
    var f, c := r.fields, r.capability;
    && c.txEnabledUntil.Some? && c.txEnabledUntil.value > r.nowMs / 1000 && c.txEnabledUntil.value * 1000 <= I64_MAX
    && c.jti !in r.revoked
    && f.isObject && f.clientSig.Some? && signed(f)
    && f.aud == Some(v.agentKeyId) && f.sessionId == Some(r.sessionId) && f.capabilityJti == Some(c.jti)
    && f.clientKeyId == Some(c.clientKeyId) && c.clientKeyId in r.allowList
    && "tx" in c.scopes
    && f.heartbeatIntervalSec.Some? && 5 <= f.heartbeatIntervalSec.value <= 15
    && f.armedUntil.Some? && r.nowMs < f.armedUntil.value <= r.nowMs + 3_600_000
    && r.nowMs < c.expMs && r.nowMs < c.txEnabledUntil.value * 1000
    && f.jti.Some? && f.jti.value !in seen
  }

  /** A grant uses up its jti if and only if it is admissible, and is minted if and only if its callsign also
      matches the token's; a replay or any other refusal leaves the set as it was. */
  lemma GrantMintedExactlyWhen(v: Verifier, r: Request, signed: GrantFields -> bool, seen: set<string>)
    ensures var (res, seen') := VerifyArmGrant(v, r, signed, seen);
            && seen' == (if Admissible(v, r, signed, seen) then seen + {r.fields.jti.value} else seen)
            && (res.Ok? <==> && Admissible(v, r, signed, seen) && r.fields.operatorCallsign.Some?
                             && (r.capability.operatorCallsign.None?
                                 || r.capability.operatorCallsign == r.fields.operatorCallsign))
  {
    BoundAlone(v, r, signed);
    WindowAlone(r);
  }

  lemma BoundAlone(v: Verifier, r: Request, signed: GrantFields -> bool)
    ensures var f, c := r.fields, r.capability;
            CheckBindings(v, r, signed).None? <==>
              && c.txEnabledUntil.Some? && c.txEnabledUntil.value > r.nowMs / 1000
              && c.jti !in r.revoked && f.isObject && f.clientSig.Some? && signed(f)
              && f.aud == Some(v.agentKeyId) && f.sessionId == Some(r.sessionId) && f.capabilityJti == Some(c.jti)
              && f.clientKeyId == Some(c.clientKeyId) && c.clientKeyId in r.allowList
  {}

  lemma WindowAlone(r: Request)
    ensures var f := r.fields;
            CheckWindow(r).None? <==>
              && f.armedUntil.Some? && r.nowMs < f.armedUntil.value <= r.nowMs + 3_600_000
              && f.heartbeatIntervalSec.Some? && 5 <= f.heartbeatIntervalSec.value <= 15
              && "tx" in r.capability.scopes
  {}

  // ----- Every refusal is true ---------------------------------------------

  /** What a refusal of a token says is so. */
  ghost predicate TokenFault(e: CapError, v: Verifier, t: Token, signed: (string, Token) -> bool, nowMs: int) {
    var k := t.claims;
    match e
    case MalformedJws => !t.wellFormed || t.kid.None?
    case BadAlg => t.alg != Some("EdDSA")
    case NotPinned => t.kid.Some? && t.kid.value !in v.pinnedKids
    case BadSignature => t.kid.Some? && !signed(t.kid.value, t)
    case AudMismatch => k.aud.Some? && k.aud.value != v.agentKeyId
    case ExpiredError => k.exp.Some? && k.exp.value * 1000 <= nowMs
    case FutureIat => k.iat.Some? && (k.iat.value - 120) * 1000 > nowMs
    case TtlTooLong => k.txEnabledUntil.Absent? && k.exp.Some? && k.iat.Some? && k.exp.value - k.iat.value > 900
    case EnablementMismatch => k.txEnabledUntil.Num? && k.exp != Some(k.txEnabledUntil.value)
    case EnablementTooLong => k.txEnabledUntil.Num? && k.iat.Some? && k.txEnabledUntil.value - k.iat.value > 86_400
    case MalformedClaim(name) =>
      || (name == "aud" && k.aud.None?) || (name == "exp" && k.exp.None?) || (name == "iat" && k.iat.None?)
      || (name == "txEnabledUntil" && k.txEnabledUntil.WrongType?) || (name == "scopes" && k.scopes.None?)
      || (name == "scopes[]" && k.scopes.Some? && None in k.scopes.value)
      || (name == "clientKeyId" && k.clientKeyId.None?) || (name == "jti" && k.jti.None?)
    case _ => false
  }

  /** A token is refused only for a fault it has, and the refusal names that fault. */
  lemma TokenRefusalIsTrue(v: Verifier, t: Token, signed: (string, Token) -> bool, nowMs: I64)
    ensures var r := VerifyToken(v, t, signed, nowMs); r.Err? ==> TokenFault(r.error, v, t, signed, nowMs)
  {
    if t.claims.scopes.Some? { AllPresentExactlyWhen(t.claims.scopes.value); }
  }

  /** What a refusal of a grant says is so. */
  ghost predicate GrantFault(e: CapError, v: Verifier, r: Request, signed: GrantFields -> bool, seen: set<string>) {
    var f, c := r.fields, r.capability;
    match e
    case NotTxEnabled => c.txEnabledUntil.None? || c.txEnabledUntil.value * 1000 <= r.nowMs
    case Revoked => c.jti in r.revoked
    case BadSignature => !signed(f)
    case AudMismatch => f.aud.Some? && f.aud.value != v.agentKeyId
    case ClientNotAllowed => f.clientKeyId.Some? && f.clientKeyId.value !in r.allowList
    case ClientMismatch => f.clientKeyId.Some? && f.clientKeyId.value != c.clientKeyId
    case CapabilityMismatch => f.capabilityJti.Some? && f.capabilityJti.value != c.jti
    case SessionMismatch => f.sessionId.Some? && f.sessionId.value != r.sessionId
    case ExpiredError =>
      || (f.armedUntil.Some? && f.armedUntil.value <= r.nowMs) || c.expMs <= r.nowMs
      || (c.txEnabledUntil.Some? && c.txEnabledUntil.value * 1000 <= r.nowMs)
    case ArmTooLong => f.armedUntil.Some? && f.armedUntil.value - r.nowMs > 3_600_000
    case BadHeartbeat =>
      f.heartbeatIntervalSec.Some? && (f.heartbeatIntervalSec.value < 5 || f.heartbeatIntervalSec.value > 15)
    case NoTxScopeError => "tx" !in c.scopes
    case ReplayedJti => f.jti.Some? && f.jti.value in seen
    case CallsignMismatch => c.operatorCallsign.Some? && c.operatorCallsign != f.operatorCallsign
    case MalformedClaim(name) =>
      || (name == "grant" && !f.isObject) || (name == "clientSig" && f.clientSig.None?) || (name == "aud" && f.aud.None?)
      || (name == "clientKeyId" && f.clientKeyId.None?) || (name == "capabilityJti" && f.capabilityJti.None?)
      || (name == "sessionId" && f.sessionId.None?) || (name == "armedUntil" && f.armedUntil.None?)
      || (name == "heartbeatIntervalSec" && f.heartbeatIntervalSec.None?) || (name == "jti" && f.jti.None?)
      || (name == "operatorCallsign" && f.operatorCallsign.None?)
      || (name == "txEnabledUntil" && c.txEnabledUntil.Some? && c.txEnabledUntil.value * 1000 > I64_MAX)
    case _ => false
  }

  lemma BindingsFault(v: Verifier, r: Request, signed: GrantFields -> bool, seen: set<string>)
    ensures CheckBindings(v, r, signed).Some? ==> GrantFault(CheckBindings(v, r, signed).value, v, r, signed, seen)
  {}

  lemma WindowFault(v: Verifier, r: Request, signed: GrantFields -> bool, seen: set<string>)
    ensures CheckWindow(r).Some? ==> GrantFault(CheckWindow(r).value, v, r, signed, seen)
  {}

  /** A grant is refused only for a fault it has, and the refusal names that fault. */
  lemma GrantRefusalIsTrue(v: Verifier, r: Request, signed: GrantFields -> bool, seen: set<string>)
    ensures var res := VerifyArmGrant(v, r, signed, seen).0; res.Err? ==> GrantFault(res.error, v, r, signed, seen)
  {
    BoundAlone(v, r, signed);
    WindowAlone(r);
    BindingsFault(v, r, signed, seen);
    WindowFault(v, r, signed, seen);
    hide CheckBindings, CheckWindow;
  }

  /** Everything a minted grant guarantees, whatever the inputs were. */
  lemma MintedGrantIsBounded(g: Grant, m: Minting)
    requires Minted(g, m)
    ensures var v := m.request.nowMs;
            && g.scopeTx
            && v < g.armedUntilMs && g.ttlMs == g.armedUntilMs - v <= MAX_ARM_MS
            && g.capabilityExpMs == g.txEnabledUntilMs
            && g.effectiveTtlMs == Min(g.armedUntilMs, Min(g.capabilityExpMs, g.txEnabledUntilMs)) - v > 0
            && m.token.claims.iat.Some?
            && g.txEnabledUntilMs <= (m.token.claims.iat.value + MAX_ENABLEMENT_SEC) * 1000
            && MIN_HEARTBEAT_SEC <= g.heartbeatIntervalSec <= MAX_HEARTBEAT_SEC
    ensures g.clientKeyId in m.request.allowList && g.clientKeyId == m.request.capability.clientKeyId
    ensures g.jti !in m.seen && g.jti in VerifyArmGrant(m.verifier, m.request, m.grantSigned, m.seen).1
  {
    var c := m.token.claims;
    assert VerifyClaims(m.verifier, c, m.tokenAt) == Ok(m.request.capability);
    var e := Enablement(c, c.exp.value, c.iat.value);
    assert e == Ok(Some(c.exp.value));
  }

  /** What a verified capability says is what the token's claims say. */
  lemma VerifiedCarriesClaims(v: Verifier, t: Token, signed: (string, Token) -> bool, nowMs: I64)
    requires VerifyToken(v, t, signed, nowMs).Ok?
    ensures var c, k := VerifyToken(v, t, signed, nowMs).value, t.claims;
            && k.exp.Some? && k.scopes.Some?
            && Some(c.clientKeyId) == k.clientKeyId && Some(c.jti) == k.jti && c.operatorCallsign == k.operatorCallsign
            && c.expMs == Max(I64_MIN, Min(I64_MAX, k.exp.value * 1000))
            && c.txEnabledUntil == (if k.txEnabledUntil.Num? then Some(k.txEnabledUntil.value) else None)
            && |c.scopes| == |k.scopes.value|
            && forall i :: 0 <= i < |c.scopes| ==> Some(c.scopes[i]) == k.scopes.value[i]
  {
    PresentInOrder(t.claims.scopes.value);
  }

  lemma {:induction false} PresentInOrder(xs: seq<Option<string>>)
    ensures AllPresent(xs).Some? ==>
              && |AllPresent(xs).value| == |xs|
              && forall i :: 0 <= i < |xs| ==> Some(AllPresent(xs).value[i]) == xs[i]
  {
    if xs != [] { PresentInOrder(xs[1..]); }
  }

  /** A minted grant is what the client signed, under the horizons of the token: window, cadence, callsign, jti and
      key are the request's own fields, and the token lists the TX scope. */
  lemma MintedGrantIsSigned(g: Grant, m: Minting)
    requires Minted(g, m)
    ensures var f, k := m.request.fields, m.token.claims;
            && Some(g.armedUntilMs) == f.armedUntil && Some(g.heartbeatIntervalSec) == f.heartbeatIntervalSec
            && Some(g.operator) == f.operatorCallsign && Some(g.jti) == f.jti
            && Some(g.clientKeyId) == f.clientKeyId == k.clientKeyId && f.capabilityJti == k.jti
            && k.exp.Some? && g.capabilityExpMs == g.txEnabledUntilMs == k.exp.value * 1000
            && k.txEnabledUntil == Num(k.exp.value)
            && k.scopes.Some? && Some("tx") in k.scopes.value
            && (k.operatorCallsign.Some? ==> k.operatorCallsign == f.operatorCallsign)
            && m.grantSigned(f) && f.sessionId == Some(m.request.sessionId) && f.aud == Some(m.verifier.agentKeyId)
  {
    VerifiedCarriesClaims(m.verifier, m.token, m.tokenSigned, m.tokenAt);
    var c := m.token.claims;
    assert VerifyClaims(m.verifier, c, m.tokenAt) == Ok(m.request.capability);
    assert Enablement(c, c.exp.value, c.iat.value) == Ok(Some(c.exp.value));
    var i :| 0 <= i < |m.request.capability.scopes| && m.request.capability.scopes[i] == "tx";
    assert c.scopes.value[i] == Some("tx");
  }

  /** A call reports a replay exactly when nothing but the used jti stands against it. */
  lemma ReplayReportedExactlyWhen(v: Verifier, r: Request, signed: GrantFields -> bool, seen: set<string>)
    ensures VerifyArmGrant(v, r, signed, seen).0 == Err(ReplayedJti)
            <==> Admissible(v, r, signed, {}) && r.fields.jti.value in seen
  {
    BoundAlone(v, r, signed);
    WindowAlone(r);
  }

  /** Verifier and state machine compose. If TX is permitted while a minted grant is in force, then on both
      elapsed clocks less time has passed since the arm was accepted than was left at verification until the
      window the client signed or the token's expiry, itself at most an hour, and the wall clock is before both,
      the token's at most 24 hours after its issue; the wall clock may have been stepped anywhere in between. */
  lemma PermitStaysWithinAuthority(events: seq<Event>, now: ArmTime, channel: Channel, m: Minting)
    requires Run(New, events).TxPermitted(now, channel)
    requires LogRun(EmptyLog, events).arm.Some? ==> Minted(LogRun(EmptyLog, events).arm.value.grant, m)
    ensures var l, f, k, v := LogRun(EmptyLog, events), m.request.fields, m.token.claims, m.request.nowMs;
            && l.arm.Some? && f.armedUntil.Some? && k.exp.Some? && k.iat.Some?
            && var left := Min(f.armedUntil.value, k.exp.value * 1000) - v;
            && left <= 3_600_000
            && Within(l.arm.value.at, now, left)
            && now.unixMs < f.armedUntil.value && now.unixMs < k.exp.value * 1000
            && k.exp.value <= k.iat.value + 86_400
  {
    GateIsConjunction(events, now, channel);
    var g := LogRun(EmptyLog, events).arm.value.grant;
    MintedGrantIsBounded(g, m);
    MintedGrantIsSigned(g, m);
  }

  // ----- Enablement expiry is never the reported cause ---------------------

  /** The enablement horizon is not the earliest one. */
  predicate HorizonsTied(g: Grant) { g.capabilityExpMs <= g.txEnabledUntilMs || g.armedUntilMs < g.txEnabledUntilMs }

  ghost predicate NeverBlamesEnablement(st: State) {
    st.session.Some? ==>
      var s := st.session.value;
      && s.lifetimeReason != TxEnablementExpired
      && AuthorityDeadline(s.armedUntilMs, s.capabilityExpMs, s.txEnabledUntilMs).1 != TxEnablementExpired
  }

  /** For an arm the station accepts, the enablement horizon can be the reported cause exactly when it is
      strictly the earliest token horizon and not after the arm window. */
  lemma EnablementBlamedExactlyWhen(st: State, g: Grant, now: ArmTime)
    requires Accepts(st, g, now)
    ensures NeverBlamesEnablement(Step(st, ArmEvent(g, now)).0) <==> HorizonsTied(g)
  {}

  lemma {:induction false} TiedRunNeverBlamesEnablement(st: State, events: seq<Event>)
    requires NeverBlamesEnablement(st)
    requires forall i :: 0 <= i < |events| && events[i].ArmEvent? ==> HorizonsTied(events[i].grant)
    ensures NeverBlamesEnablement(Run(st, events))
    decreases events
  {
    if events != [] {
      assert events[0].ArmEvent? ==> HorizonsTied(events[0].grant);
      StepNeverBlamesEnablement(st, events[0]);
      TiedRunNeverBlamesEnablement(Step(st, events[0]).0, events[1..]);
    }
  }

  lemma StepNeverBlamesEnablement(st: State, e: Event)
    requires NeverBlamesEnablement(st) && (e.ArmEvent? ==> HorizonsTied(e.grant))
    ensures NeverBlamesEnablement(Step(st, e).0)
  {
    match e {
      case ArmEvent(g, now) =>
        if Accepts(st, g, now) { EnablementBlamedExactlyWhen(st, g, now); }
      case _ =>
    }
  }

  /** In a run whose arms all carry minted grants, no denial and no automatic disarm ever names the
      enablement horizon: the capability horizon ties with it and wins. */
  lemma EnablementExpiryUnreachable(events: seq<Event>, mintings: seq<Minting>, now: ArmTime, channel: Channel)
    requires |mintings| == |events|
    requires forall i :: 0 <= i < |events| && events[i].ArmEvent? ==> Minted(events[i].grant, mintings[i])
    ensures Run(New, events).TxPermitReason(now, channel) != Denied(TxEnablementExpiredDenied)
    ensures Disarmed(TxEnablementExpired) !in TickStep(Run(New, events), now).1
  {
    forall i | 0 <= i < |events| && events[i].ArmEvent? ensures HorizonsTied(events[i].grant) {
      MintedGrantIsBounded(events[i].grant, mintings[i]);
    }
    TiedRunNeverBlamesEnablement(New, events);
    UnblamedIsUnreported(Run(New, events), now, channel);
  }

  lemma UnblamedIsUnreported(st: State, now: ArmTime, channel: Channel)
    requires NeverBlamesEnablement(st)
    ensures st.TxPermitReason(now, channel) != Denied(TxEnablementExpiredDenied)
    ensures Disarmed(TxEnablementExpired) !in TickStep(st, now).1
  {
    if st.session.Some? {
      assert st.session.value.ExpiredReason(now) != Some(TxEnablementExpired);
    }
  }

  // ----- One replay set mints each jti once --------------------------------

  /** One call: the request, and which fields its client key signs. */
  datatype Attempt = Attempt(request: Request, signed: GrantFields -> bool)

  function MintAll(v: Verifier, attempts: seq<Attempt>, seen: set<string>): (r: seq<Result<Grant, CapError>>)
    ensures |r| == |attempts|
    decreases attempts
  {
    if attempts == [] then []
    else
      var (res, seen') := VerifyArmGrant(v, attempts[0].request, attempts[0].signed, seen);
      [res] + MintAll(v, attempts[1..], seen')
  }

  lemma {:induction false} MintedIsUnseen(v: Verifier, attempts: seq<Attempt>, seen: set<string>, j: nat)
    requires j < |attempts| && MintAll(v, attempts, seen)[j].Ok?
    ensures MintAll(v, attempts, seen)[j].value.jti !in seen
    decreases attempts
  {
    var (res, seen') := VerifyArmGrant(v, attempts[0].request, attempts[0].signed, seen);
    if j > 0 {
      assert MintAll(v, attempts, seen)[j] == MintAll(v, attempts[1..], seen')[j - 1];
      MintedIsUnseen(v, attempts[1..], seen', j - 1);
      assert seen <= seen';
    }
  }

  /** Over any sequence of calls sharing one replay set, each with a client key of its own, no jti is minted
      twice. */
  lemma {:induction false} EachJtiMintsOnce(v: Verifier, attempts: seq<Attempt>, seen: set<string>, i: nat, j: nat)
    requires i < j < |attempts|
    requires MintAll(v, attempts, seen)[i].Ok? && MintAll(v, attempts, seen)[j].Ok?
    ensures MintAll(v, attempts, seen)[i].value.jti != MintAll(v, attempts, seen)[j].value.jti
    decreases attempts
  {
    var (res, seen') := VerifyArmGrant(v, attempts[0].request, attempts[0].signed, seen);
    var all, rest := MintAll(v, attempts, seen), MintAll(v, attempts[1..], seen');
    assert all == [res] + rest;
    if i == 0 {
      MintedIsUnseen(v, attempts[1..], seen', j - 1);
      assert res.value.jti in seen';
    } else {
      assert all[i] == rest[i - 1] && all[j] == rest[j - 1];
      EachJtiMintsOnce(v, attempts[1..], seen', i - 1, j - 1);
    }
  }
}

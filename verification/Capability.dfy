/** Capability-token and arm-grant verification. Signatures are given predicates; the claim, time,
    binding and single-use checks are the source's, in its order. */
module Capability {
  import opened Prelude
  import Arm

  const MAX_ARM_MS: I64 := 3_600_000
  const MIN_HEARTBEAT_SEC: I64 := 5
  const MAX_HEARTBEAT_SEC: I64 := 15
  const MAX_NON_ENABLED_TTL_SEC: I64 := 900
  const MAX_ENABLEMENT_SEC: I64 := 86_400
  const MAX_IAT_SKEW_SEC: I64 := 120

  datatype CapError =
    | MalformedJws | BadAlg | NotPinned | BadSignature | AudMismatch | ExpiredError
    | MalformedClaim(claim: string) | ClientMismatch | ClientNotAllowed | CapabilityMismatch
    | ArmTooLong | BadHeartbeat | NoTxScopeError | ReplayedJti | TtlTooLong
    | EnablementMismatch | EnablementTooLong | NotTxEnabled | Revoked | FutureIat
    | CallsignMismatch | SessionMismatch

  /** A claim that may be missing or of the wrong JSON type. */
  datatype NumClaim = Absent | WrongType | Num(value: I64)

  datatype Claims = Claims(
    aud: Option<string>,
    exp: Option<I64>,
    iat: Option<I64>,
    txEnabledUntil: NumClaim,
    scopes: Option<seq<Option<string>>>,
    clientKeyId: Option<string>,
    jti: Option<string>,
    operatorCallsign: Option<string>)

  /** A compact token after splitting; `wellFormed` says its segments decoded and parsed. */
  datatype Token = Token(wellFormed: bool, alg: Option<string>, kid: Option<string>, claims: Claims)

  datatype Verified = Verified(
    scopes: seq<string>,
    clientKeyId: string,
    jti: string,
    expMs: I64,
    txEnabledUntil: Option<I64>,
    operatorCallsign: Option<string>)

  datatype Verifier = Verifier(agentKeyId: string, pinnedKids: set<string>)

  /** All strings present, or none. */
  function AllPresent(xs: seq<Option<string>>): Option<seq<string>> {
    if xs == [] then Some([])
    else if xs[0].None? then None
    else
      var rest := AllPresent(xs[1..]);
      if rest.None? then None else Some([xs[0].value] + rest.value)
  }

  /** The enablement horizon of a token, after the short-life and 24-hour bounds. */
  function Enablement(c: Claims, exp: I64, iat: I64): Result<Option<I64>, CapError> {
    match c.txEnabledUntil
    case Absent => if SatSub64(exp, iat) > MAX_NON_ENABLED_TTL_SEC then Err(TtlTooLong) else Ok(None)
    case WrongType => Err(MalformedClaim("txEnabledUntil"))
    case Num(teu) =>
      if exp != teu then Err(EnablementMismatch)
      else if SatSub64(teu, iat) > MAX_ENABLEMENT_SEC then Err(EnablementTooLong)
      else Ok(Some(teu))
  }

  function VerifyToken(v: Verifier, t: Token, signed: (string, Token) -> bool, nowMs: I64): Result<Verified, CapError> {
    if !t.wellFormed then Err(MalformedJws)
    else if t.alg != Some("EdDSA") then Err(BadAlg)
    else if t.kid.None? then Err(MalformedJws)
    else if t.kid.value !in v.pinnedKids then Err(NotPinned)
    else if !signed(t.kid.value, t) then Err(BadSignature)
    else VerifyClaims(v, t.claims, nowMs)
  }

  function VerifyClaims(v: Verifier, c: Claims, nowMs: I64): Result<Verified, CapError> {
    var nowS := nowMs / 1000;
    if c.aud.None? then Err(MalformedClaim("aud"))
    else if c.aud.value != v.agentKeyId then Err(AudMismatch)
    else if c.exp.None? then Err(MalformedClaim("exp"))
    else if c.exp.value <= nowS then Err(ExpiredError)
    else if c.iat.None? then Err(MalformedClaim("iat"))
    else if c.iat.value > SatAdd64(nowS, MAX_IAT_SKEW_SEC) then Err(FutureIat)
    else
      var enabled := Enablement(c, c.exp.value, c.iat.value);
      if enabled.Err? then Err(enabled.error)
      else if c.scopes.None? then Err(MalformedClaim("scopes"))
      else if AllPresent(c.scopes.value).None? then Err(MalformedClaim("scopes[]"))
      else if c.clientKeyId.None? then Err(MalformedClaim("clientKeyId"))
      else if c.jti.None? then Err(MalformedClaim("jti"))
      else Ok(Verified(AllPresent(c.scopes.value).value, c.clientKeyId.value, c.jti.value,
                       SatMul64(c.exp.value, 1000), enabled.value, c.operatorCallsign))
  }

  /** The arm-time enablement gate. */
  predicate TxEnabled(c: Verified, nowMs: I64) {
    c.txEnabledUntil.Some? && c.txEnabledUntil.value > nowMs / 1000
  }

  /** The fields of an arm grant; `None` is missing or of the wrong type. */
  datatype GrantFields = GrantFields(
    isObject: bool,
    clientSig: Option<string>,
    aud: Option<string>,
    clientKeyId: Option<string>,
    capabilityJti: Option<string>,
    sessionId: Option<string>,
    armedUntil: Option<I64>,
    heartbeatIntervalSec: Option<I64>,
    jti: Option<string>,
    operatorCallsign: Option<string>)

  /** Everything one call is given apart from the shared replay set. */
  datatype Request = Request(
    fields: GrantFields,
    capability: Verified,
    allowList: set<string>,
    revoked: set<string>,
    sessionId: string,
    nowMs: I64)

  /** Steps 0 to 3: enablement, deny-list, signature and bindings. */
  function CheckBindings(v: Verifier, r: Request, signed: GrantFields -> bool): Option<CapError> {
    var f, c := r.fields, r.capability;
    if !TxEnabled(c, r.nowMs) then Some(NotTxEnabled)
    else if c.jti in r.revoked then Some(Revoked)
    else if !f.isObject then Some(MalformedClaim("grant"))
    else if f.clientSig.None? then Some(MalformedClaim("clientSig"))
    else if !signed(f) then Some(BadSignature)
    else if f.aud.None? then Some(MalformedClaim("aud"))
    else if f.aud.value != v.agentKeyId then Some(AudMismatch)
    else if f.clientKeyId.None? then Some(MalformedClaim("clientKeyId"))
    else if f.clientKeyId.value !in r.allowList then Some(ClientNotAllowed)
    else if f.clientKeyId.value != c.clientKeyId then Some(ClientMismatch)
    else if f.capabilityJti.None? then Some(MalformedClaim("capabilityJti"))
    else if f.capabilityJti.value != c.jti then Some(CapabilityMismatch)
    else if f.sessionId.None? then Some(MalformedClaim("sessionId"))
    else if f.sessionId.value != r.sessionId then Some(SessionMismatch)
    else None
  }

  /** Steps 4 and 5: the armed window, the cadence and the scope. */
  function CheckWindow(r: Request): Option<CapError> {
    var f := r.fields;
    if f.armedUntil.None? then Some(MalformedClaim("armedUntil"))
    else if f.armedUntil.value <= r.nowMs then Some(ExpiredError)
    else if f.armedUntil.value - r.nowMs > I64_MAX then Some(ArmTooLong)
    else if f.armedUntil.value - r.nowMs > MAX_ARM_MS then Some(ArmTooLong)
    else if f.heartbeatIntervalSec.None? then Some(MalformedClaim("heartbeatIntervalSec"))
    else if !(MIN_HEARTBEAT_SEC <= f.heartbeatIntervalSec.value <= MAX_HEARTBEAT_SEC) then Some(BadHeartbeat)
    else if "tx" !in r.capability.scopes then Some(NoTxScopeError)
    else None
  }

  /** One `verify_arm_grant` call: its result and the replay set it leaves. */
  function VerifyArmGrant(v: Verifier, r: Request, signed: GrantFields -> bool, seen: set<string>)
    : (Result<Arm.Grant, CapError>, set<string>)
  {
    var f, c := r.fields, r.capability;
    if CheckBindings(v, r, signed).Some? then (Err(CheckBindings(v, r, signed).value), seen)
    else if CheckWindow(r).Some? then (Err(CheckWindow(r).value), seen)
    else if !(I64_MIN <= c.txEnabledUntil.value * 1000 <= I64_MAX) then (Err(MalformedClaim("txEnabledUntil")), seen)
    else
      var armedUntil, enabledMs := f.armedUntil.value, c.txEnabledUntil.value * 1000;
      var left := Arm.AuthorityDeadline(armedUntil, c.expMs, enabledMs).0 - r.nowMs;
      if !(0 < left <= I64_MAX) then (Err(ExpiredError), seen)
      else if f.jti.None? then (Err(MalformedClaim("jti")), seen)
      else if f.jti.value in seen then (Err(ReplayedJti), seen)
      else
        var seen' := seen + {f.jti.value};
        if f.operatorCallsign.None? then (Err(MalformedClaim("operatorCallsign")), seen')
        else if c.operatorCallsign.Some? && c.operatorCallsign.value != f.operatorCallsign.value then
          (Err(CallsignMismatch), seen')
        else
          (Ok(Arm.Grant(f.operatorCallsign.value, armedUntil - r.nowMs, armedUntil, c.expMs, enabledMs, left,
                        f.heartbeatIntervalSec.value, true, f.jti.value, f.clientKeyId.value)), seen')
  }

  /** The desk that mints grants: the pinned verifier and one session's replay set. */
  class ArmDesk {
    const verifier: Verifier
    var seenJtis: set<string>

    constructor (v: Verifier)
      ensures verifier == v && seenJtis == {}
    {
      verifier := v;
      seenJtis := {};
    }

    method Mint(r: Request, signed: GrantFields -> bool) returns (res: Result<Arm.Grant, CapError>)
      modifies this
      ensures (res, seenJtis) == VerifyArmGrant(verifier, r, signed, old(seenJtis))
    {
      var f, c := r.fields, r.capability;
      var refused := CheckBindings(verifier, r, signed);
      if refused.Some? { return Err(refused.value); }
      refused := CheckWindow(r);
      if refused.Some? { return Err(refused.value); }
      var enabledMs := c.txEnabledUntil.value * 1000;
      if enabledMs < I64_MIN || enabledMs > I64_MAX {
        return Err(MalformedClaim("txEnabledUntil"));
      }
      var armedUntil := f.armedUntil.value;
      var verified := Arm.Grant("", armedUntil - r.nowMs, armedUntil, c.expMs, enabledMs, 0,
                                f.heartbeatIntervalSec.value, true, "", f.clientKeyId.value);
      var left := Arm.AuthorityDeadline(armedUntil, c.expMs, enabledMs).0 - r.nowMs;
      if left <= 0 || left > I64_MAX { return Err(ExpiredError); }
      verified := verified.(effectiveTtlMs := left);
      if f.jti.None? { return Err(MalformedClaim("jti")); }
      if f.jti.value in seenJtis { return Err(ReplayedJti); }
      seenJtis := seenJtis + {f.jti.value};
      if f.operatorCallsign.None? { return Err(MalformedClaim("operatorCallsign")); }
      if c.operatorCallsign.Some? && c.operatorCallsign.value != f.operatorCallsign.value {
        return Err(CallsignMismatch);
      }
      return Ok(verified.(operator := f.operatorCallsign.value, jti := f.jti.value));
    }
  }
}

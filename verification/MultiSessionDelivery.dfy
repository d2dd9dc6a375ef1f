/** Who a fan-out reaches, who an allow-list change evicts, and what a peer's receive nonce counts. */
module MultiSessionDelivery {
  import opened Prelude
  import opened MultiSession
  import opened MultiSessionRuns

  // ----- Fan-out -----------------------------------------------------------

  /** Data frames to `p` that the socket accepted. */
  function AcceptedTo(io: seq<Io>, p: Id): nat {
    if io == [] then 0
    else AcceptedTo(io[..|io| - 1], p) + if IsSent(io[|io| - 1], p, Accepted) then 1 else 0
  }

  /** Data frames the socket accepted, to anyone. */
  function AcceptedAll(io: seq<Io>): nat {
    if io == [] then 0
    else
      var e := io[|io| - 1];
      AcceptedAll(io[..|io| - 1]) + if e.SentData? && e.outcome == Accepted then 1 else 0
  }

  lemma AcceptedStep(io: seq<Io>, e: Io, p: Id)
    ensures AcceptedTo(io + [e], p) == AcceptedTo(io, p) + if IsSent(e, p, Accepted) then 1 else 0
    ensures AcceptedAll(io + [e]) == AcceptedAll(io) + if e.SentData? && e.outcome == Accepted then 1 else 0
  {
    assert (io + [e])[..|io|] == io;
  }

  /** The peer after one more send. */
  function Advanced(p: Peer): Peer { p.(sendNonce := p.sendNonce + 1) }

  lemma EncryptOneExact(w: World, s: Session, pt: Bytes, recipient: Id -> bool, peer: Id, p: Id)
    requires p in s.peers
    ensures var r := EncryptOne(w, s, pt, recipient, peer);
            && p in r.session.peers && r.session.transportFailed == s.transportFailed
            && AcceptedTo(r.session.io, p) == AcceptedTo(s.io, p) && AcceptedAll(r.session.io) == AcceptedAll(s.io)
            && (p in To(r.outbound) ==> p == peer && To(r.outbound) == [p] && p !in r.failed)
            && (p == peer && recipient(p) ==> p in To(r.outbound) || p in r.failed)
            && (p != peer || !recipient(p) ==> p !in To(r.outbound) && p !in r.failed)
            && r.session.peers[p] == if p in To(r.outbound) then Advanced(s.peers[p]) else s.peers[p]
  {
    hide AcceptedTo, AcceptedAll;
    var frame := Frame1(w, s, peer, pt);
    if frame.Some? {
      AcceptedStep(s.io, Encrypted(peer, pt, frame.value), p);
      ToOne(peer, frame.value);
    }
    AcceptedStep(s.io, EncryptFailed(peer), p);
  }

  /** Phase 1 queues one frame for each selected peer or marks it failed, and leaves the others alone. */
  lemma {:induction false} EncryptAllExact(w: World, s: Session, pt: Bytes, recipient: Id -> bool, order: seq<Id>, p: Id)
    requires p in s.peers && Distinct(order)
    ensures var r := EncryptAll(w, s, pt, recipient, order);
            && p in r.session.peers && r.session.transportFailed == s.transportFailed
            && AcceptedTo(r.session.io, p) == AcceptedTo(s.io, p) && AcceptedAll(r.session.io) == AcceptedAll(s.io)
            && (p in order && recipient(p) ==> (p in To(r.outbound)) != (p in r.failed))
            && (p !in order || !recipient(p) ==> p !in To(r.outbound) && p !in r.failed)
            && r.session.peers[p] == if p in To(r.outbound) then Advanced(s.peers[p]) else s.peers[p]
    decreases order
  {
    hide AcceptedTo, AcceptedAll, EncryptOne;
    if order != [] {
      assert order[0] !in order[1..];
      EncryptOneExact(w, s, pt, recipient, order[0], p);
      var one := EncryptOne(w, s, pt, recipient, order[0]);
      EncryptAllExact(w, one.session, pt, recipient, order[1..], p);
      ToJoin(one.outbound, EncryptAll(w, one.session, pt, recipient, order[1..]).outbound);
    }
  }

  /** Phase 2 fails exactly the queued peers whose frame the socket did not accept, and counts the accepted. */
  lemma {:induction false} SendAllExact(w: World, s: Session, outbound: seq<Out>, p: Id)
    requires Distinct(To(outbound))
    ensures var (t, failed, sent) := SendAll(w, s, outbound);
            && t.peers == s.peers && sent == AcceptedAll(t.io) - AcceptedAll(s.io)
            && (p in To(outbound) && p !in failed ==> AcceptedTo(t.io, p) == AcceptedTo(s.io, p) + 1)
            && (p !in To(outbound) || p in failed ==> AcceptedTo(t.io, p) == AcceptedTo(s.io, p))
            && (p in failed ==> p in To(outbound))
    decreases outbound
  {
    hide AcceptedTo, AcceptedAll;
    if outbound != [] {
      DistinctRest(outbound);
      var (t, o) := SendFrame(w, s, false, outbound[0].peer, outbound[0].frame);
      AcceptedStep(s.io, SentData(outbound[0].peer, outbound[0].frame, o), p);
      SendAllExact(w, t, outbound[1..], p);
    }
  }

  /** A fan-out in any walking order: a peer not selected keeps its transport as it was; a selected peer stays,
      one nonce further, exactly when the socket accepted its one frame, and is dropped otherwise; the result
      counts the accepted frames. */
  lemma FanOutIsExact(w: World, s: Session, pt: Bytes, recipient: Id -> bool, order: seq<Id>, p: Id)
    requires WalksPeers(order, s.peers) && p in s.peers && !s.transportFailed
    ensures var (t, sent) := Broadcast(w, s, pt, recipient, order);
            && sent == AcceptedAll(t.io) - AcceptedAll(s.io)
            && AcceptedTo(s.io, p) <= AcceptedTo(t.io, p) <= AcceptedTo(s.io, p) + 1
            && (!recipient(p) ==> p in t.peers && t.peers[p] == s.peers[p] && AcceptedTo(t.io, p) == AcceptedTo(s.io, p))
            && (recipient(p) ==> (p in t.peers <==> AcceptedTo(t.io, p) == AcceptedTo(s.io, p) + 1))
            && (recipient(p) && p in t.peers ==> t.peers[p] == Advanced(s.peers[p]))
  {
    hide AcceptedTo, AcceptedAll, EncryptAll, SendAll;
    var enc := EncryptAll(w, s, pt, recipient, order);
    EncryptAllExact(w, s, pt, recipient, order, p);
    EncryptAllSpends(w, s, pt, recipient, order, p);
    SendAllExact(w, enc.session, enc.outbound, p);
  }

  // ----- Eviction ----------------------------------------------------------

  /** An allow-list change keeps exactly the established peers still listed, each with its transport unchanged,
      and touches neither socket nor cipher. */
  lemma ReplaceEvictsExactly(s: Session, allowed: set<Id>, p: Id)
    ensures var t := ReplaceAllowed(s, allowed);
            && (p in t.peers <==> p in s.peers && p in allowed)
            && (p in t.peers ==> t.peers[p] == s.peers[p])
            && (p in Evicted(s, allowed) <==> p in s.peers && p !in t.peers)
            && t.allowed == allowed && t.io == s.io && t.transportFailed == s.transportFailed
  {}

  /** How often `p` has completed a handshake. */
  function Handshakes(io: seq<Io>, p: Id): nat {
    if io == [] then 0 else Handshakes(io[..|io| - 1], p) + if io[|io| - 1] == Established(p) then 1 else 0
  }

  lemma HandshakeStep(io: seq<Io>, e: Io, p: Id)
    ensures Handshakes(io + [e], p) == Handshakes(io, p) + if e == Established(p) then 1 else 0
  {
    assert (io + [e])[..|io|] == io;
  }

  /** `p` is new in `t` only by a handshake since `s`. */
  predicate ByHandshake(s: Session, t: Session, p: Id) {
    && Handshakes(s.io, p) <= Handshakes(t.io, p)
    && (p !in s.peers && p in t.peers ==> Handshakes(s.io, p) < Handshakes(t.io, p))
  }

  lemma SendIsNoHandshake(w: World, s: Session, reply: bool, dst: Id, frame: Bytes, p: Id)
    ensures Handshakes(SendFrame(w, s, reply, dst, frame).0.io, p) == Handshakes(s.io, p)
  {
    hide Handshakes;
    var o := w.net(|s.io|);
    HandshakeStep(s.io, if reply then SentReply(dst, frame, o) else SentData(dst, frame, o), p);
  }

  lemma {:induction false} EncryptIsNoHandshake(w: World, s: Session, pt: Bytes, recipient: Id -> bool, order: seq<Id>, p: Id)
    ensures var t := EncryptAll(w, s, pt, recipient, order).session;
            Handshakes(t.io, p) == Handshakes(s.io, p) && t.peers.Keys == s.peers.Keys
    decreases order
  {
    hide Handshakes;
    if order != [] {
      var frame := Frame1(w, s, order[0], pt);
      if frame.Some? { HandshakeStep(s.io, Encrypted(order[0], pt, frame.value), p); }
      HandshakeStep(s.io, EncryptFailed(order[0]), p);
      EncryptIsNoHandshake(w, EncryptOne(w, s, pt, recipient, order[0]).session, pt, recipient, order[1..], p);
    }
  }

  lemma {:induction false} SendAllIsNoHandshake(w: World, s: Session, outbound: seq<Out>, p: Id)
    ensures var t := SendAll(w, s, outbound).0; Handshakes(t.io, p) == Handshakes(s.io, p) && t.peers == s.peers
    decreases outbound
  {
    hide Handshakes;
    if outbound != [] {
      SendIsNoHandshake(w, s, false, outbound[0].peer, outbound[0].frame, p);
      SendAllIsNoHandshake(w, SendFrame(w, s, false, outbound[0].peer, outbound[0].frame).0, outbound[1..], p);
    }
  }

  lemma BootstrapByHandshake(w: World, s: Session, src: Id, msg1: Bytes, ephemeral: Bytes, p: Id)
    ensures ByHandshake(s, BootstrapPeer(w, s, src, msg1, ephemeral).0, p)
  {
    hide Handshakes;
    var reply := Reply(w, msg1, ephemeral);
    SendIsNoHandshake(w, s, true, src, reply, p);
    HandshakeStep(SendFrame(w, s, true, src, reply).0.io, Established(src), p);
  }

  lemma NextByHandshake(w: World, s: Session, recv: Recv, p: Id)
    ensures ByHandshake(s, ProcessNext(w, s, recv).0, p)
  {
    hide Handshakes, ProcessEnv;
    HandshakeStep(s.io, SocketRead, p);
    if recv.Got? && recv.frame.Env? {
      EnvByHandshake(w, s.Did(SocketRead), recv.frame.payload, recv.frame.src, recv.frame.ephemeral, p);
    }
  }

  lemma EnvByHandshake(w: World, s: Session, payload: string, src: Option<Id>, ephemeral: Bytes, p: Id)
    ensures ByHandshake(s, ProcessEnv(w, s, payload, src, ephemeral).0, p)
  {
    hide Handshakes, BootstrapPeer;
    if src.Some? && w.crypto.decode(payload).Some? {
      BootstrapByHandshake(w, s, src.value, w.crypto.decode(payload).value, ephemeral, p);
    }
  }

  lemma StepByHandshake(w: World, s: Session, op: Op, p: Id)
    ensures ByHandshake(s, Step(w, s, op), p)
  {
    hide Handshakes;
    match op
    case Next(recv) => NextByHandshake(w, s, recv, p);
    case Send(peer, pt) => SendByHandshake(w, s, peer, pt, p);
    case FanOut(pt, recipient, order) => FanOutByHandshake(w, s, pt, recipient, order, p);
    case Replace(_) =>
  }

  lemma SendByHandshake(w: World, s: Session, peer: Id, pt: Bytes, p: Id)
    ensures ByHandshake(s, SendTo(w, s, peer, pt).0, p)
  {
    hide Handshakes;
    HandshakeStep(s.io, EncryptFailed(peer), p);
    var frame := Frame1(w, s, peer, pt);
    if frame.Some? {
      HandshakeStep(s.io, Encrypted(peer, pt, frame.value), p);
      SendIsNoHandshake(w, Spend(s, peer, pt, frame.value), false, peer, frame.value, p);
    }
  }

  lemma FanOutByHandshake(w: World, s: Session, pt: Bytes, recipient: Id -> bool, order: seq<Id>, p: Id)
    ensures ByHandshake(s, Broadcast(w, s, pt, recipient, order).0, p)
  {
    hide Handshakes, EncryptAll, SendAll;
    var enc := EncryptAll(w, s, pt, recipient, order);
    EncryptIsNoHandshake(w, s, pt, recipient, order, p);
    SendAllIsNoHandshake(w, enc.session, enc.outbound, p);
  }

  lemma {:induction false} RunByHandshake(w: World, s: Session, ops: seq<Op>, p: Id)
    ensures ByHandshake(s, Run(w, s, ops), p)
    decreases ops
  {
    if ops != [] {
      StepByHandshake(w, s, ops[0], p);
      RunByHandshake(w, Step(w, s, ops[0]), ops[1..], p);
    }
  }

  /** A peer evicted by an allow-list change is back, after any further operations, only if it has completed a
      new handshake and the list then in force contains it again. */
  lemma EvictedNeedsHandshake(w: World, s: Session, allowed: set<Id>, ops: seq<Op>, p: Id)
    requires Admitted(w, s) && p in Evicted(s, allowed)
    ensures var t := Run(w, ReplaceAllowed(s, allowed), ops);
            p in t.peers ==> Handshakes(t.io, p) > Handshakes(s.io, p) && p in t.allowed
  {
    StepKeepsAdmitted(w, s, Replace(allowed));
    RunKeepsAdmitted(w, ReplaceAllowed(s, allowed), ops);
    RunByHandshake(w, ReplaceAllowed(s, allowed), ops, p);
  }

  // ----- Receive nonces ----------------------------------------------------

  /** The state after a script of frames, and the outcome of each. */
  function Play(w: World, s: Session, script: seq<Frame>): (Session, seq<Result<Poll, SessionError>>)
    decreases script
  {
    if script == [] then (s, [])
    else
      var (s', r) := ProcessNext(w, s, Got(script[0]));
      var (t, rs) := Play(w, s', script[1..]);
      (t, [r] + rs)
  }

  /** Plaintexts from `p` since it was last established, `n` of them before these outcomes. */
  function HeardSince(outs: seq<Result<Poll, SessionError>>, p: Id, n: nat): nat {
    if outs == [] then n
    else
      var next :=
        if outs[0].Err? then n
        else if outs[0].value.PeerEstablished? && outs[0].value.peer == p then 0
        else if outs[0].value.Plaintext? && outs[0].value.peer == p then n + 1
        else n;
      HeardSince(outs[1..], p, next)
  }

  lemma HeardFirst(r: Result<Poll, SessionError>, outs: seq<Result<Poll, SessionError>>, p: Id, n: nat)
    ensures HeardSince([r] + outs, p, n) == HeardSince(outs, p, HeardSince([r], p, n))
  {
    assert ([r] + outs)[0] == r && ([r] + outs)[1..] == outs && [r][1..] == [];
    assert forall m: nat :: HeardSince([], p, m) == m;
  }

  lemma FrameMovesNonce(w: World, s: Session, f: Frame, p: Id, n: nat)
    requires p in s.peers ==> s.peers[p].recvNonce == n
    ensures var (t, r) := ProcessNext(w, s, Got(f));
            p in t.peers ==> t.peers[p].recvNonce == HeardSince([r], p, n)
  {}

  /** In every script a peer's receive nonce is the number of plaintexts delivered from it since it was
      established, so every frame is decrypted at its own position in the peer's stream. */
  lemma {:induction false} RecvNonceLaw(w: World, s: Session, script: seq<Frame>, p: Id, n: nat)
    requires p in s.peers ==> s.peers[p].recvNonce == n
    ensures var (t, outs) := Play(w, s, script);
            p in t.peers ==> t.peers[p].recvNonce == HeardSince(outs, p, n)
    decreases script
  {
    if script != [] {
      var (s', r) := ProcessNext(w, s, Got(script[0]));
      FrameMovesNonce(w, s, script[0], p, n);
      RecvNonceLaw(w, s', script[1..], p, HeardSince([r], p, n));
      HeardFirst(r, Play(w, s', script[1..]).1, p, n);
    }
  }
}

/** What every run of the multi-peer session keeps. */
module MultiSessionRuns {
  import opened Prelude
  import opened MultiSession

  // ----- Who is established ------------------------------------------------

  /** A peer's entry was proven: its handshake authenticated a static key and the proof in it yields `id`. */
  ghost predicate Proven(c: Crypto, id: Id, p: Peer) {
    && c.readMsg1(p.msg1).Some?
    && var m := c.readMsg1(p.msg1).value;
    && c.proof(m.payload, m.remoteStatic) == Ok(id)
    && c.intoTransport(p.msg1, p.ephemeral)
    && p.sessionId == c.handshakeHash(p.msg1, p.ephemeral)
  }

  ghost predicate Admitted(w: World, s: Session) {
    && s.peers.Keys <= s.allowed
    && |s.peers| <= MAX_PEERS
    && forall id :: id in s.peers ==> Proven(w.crypto, id, s.peers[id])
  }

  lemma FewerPeers(m: map<Id, Peer>, gone: set<Id>)
    ensures |m - gone| <= |m|
    ensures (m - gone).Keys <= m.Keys
  {
    assert (m - gone).Keys <= m.Keys;
    SubsetSize((m - gone).Keys, m.Keys);
  }

  lemma SubsetSize(a: set<Id>, b: set<Id>)
    requires a <= b
    ensures |a| <= |b|
    ensures a != b ==> |a| < |b|
  {
    assert b == a + (b - a);
    assert |b| == |a| + |b - a|;
    if a != b { assert b - a != {}; }
  }

  /** The frame a plaintext would become if sent to `peer` next. */
  function Frame1(w: World, s: Session, peer: Id, pt: Bytes): Option<Bytes> {
    if peer !in s.peers then None
    else
      var p := s.peers[peer];
      w.crypto.encrypt(p.msg1, p.ephemeral, p.sendNonce, pt)
  }

  /** The reply to a handshake message. */
  function Reply(w: World, msg1: Bytes, ephemeral: Bytes): Bytes {
    var m := w.crypto.writeMsg2(msg1, ephemeral);
    if m.Some? then m.value else []
  }

  /** Who the queued frames are for, in order. */
  function To(outbound: seq<Out>): (ids: seq<Id>)
    ensures |ids| == |outbound|
  {
    seq(|outbound|, i requires 0 <= i < |outbound| => outbound[i].peer)
  }

  /** Dropping peers keeps everyone else admitted. */
  lemma DropKeepsAdmitted(w: World, s: Session, t: Session, gone: set<Id>)
    requires Admitted(w, s) && t.peers == s.peers - gone && t.allowed == s.allowed
    ensures Admitted(w, t)
  {
    hide Proven;
    FewerPeers(s.peers, gone);
  }

  /** A bootstrap changes the peers only on full success, and then adds exactly the proven one. */
  lemma BootstrapShape(w: World, s: Session, src: Id, msg1: Bytes, ephemeral: Bytes)
    ensures var (t, r) := BootstrapPeer(w, s, src, msg1, ephemeral);
            && t.allowed == s.allowed
            && (r.Err? ==> t.peers == s.peers)
            && (r.Ok? ==>
                  && r.value == w.crypto.handshakeHash(msg1, ephemeral)
                  && t.peers == s.peers[src := Peer(msg1, ephemeral, 0, 0, r.value)]
                  && Proven(w.crypto, src, t.peers[src]))
  {}

  lemma BootstrapKeepsAdmitted(w: World, s: Session, src: Id, msg1: Bytes, ephemeral: Bytes)
    requires Admitted(w, s) && src in s.allowed && src !in s.peers && |s.peers| < MAX_PEERS
    ensures Admitted(w, BootstrapPeer(w, s, src, msg1, ephemeral).0)
  {
    BootstrapShape(w, s, src, msg1, ephemeral);
    var t := BootstrapPeer(w, s, src, msg1, ephemeral).0;
    assert t.peers.Keys == s.peers.Keys || t.peers.Keys == s.peers.Keys + {src};
  }

  lemma EnvKeepsAdmitted(w: World, s: Session, payload: string, src: Option<Id>, ephemeral: Bytes)
    requires Admitted(w, s)
    ensures Admitted(w, ProcessEnv(w, s, payload, src, ephemeral).0)
  {
    var t := ProcessEnv(w, s, payload, src, ephemeral).0;
    if src.Some? && src.value in s.peers {
      DropKeepsAdmitted(w, s, s.Without(src.value), {src.value});
      var p := s.peers[src.value];
      assert s.peers[src.value := p.(recvNonce := p.recvNonce + 1)].Keys == s.peers.Keys;
    } else if src.Some? && src.value in s.allowed && |s.peers| < MAX_PEERS && w.crypto.decode(payload).Some? {
      BootstrapKeepsAdmitted(w, s, src.value, w.crypto.decode(payload).value, ephemeral);
    }
  }

  lemma SpendKeepsAdmitted(w: World, s: Session, peer: Id, pt: Bytes, frame: Bytes)
    requires Admitted(w, s) && peer in s.peers
    ensures Admitted(w, Spend(s, peer, pt, frame))
  {
    assert Spend(s, peer, pt, frame).peers.Keys == s.peers.Keys;
  }

  lemma {:induction false} EncryptAllKeepsAdmitted(w: World, s: Session, pt: Bytes, recipient: Id -> bool, order: seq<Id>)
    requires Admitted(w, s)
    ensures Admitted(w, EncryptAll(w, s, pt, recipient, order).session)
    decreases order
  {
    if order != [] {
      var peer := order[0];
      var frame := Frame1(w, s, peer, pt);
      if frame.Some? { SpendKeepsAdmitted(w, s, peer, pt, frame.value); }
      assert Admitted(w, s.Did(EncryptFailed(peer)));
      EncryptAllKeepsAdmitted(w, EncryptOne(w, s, pt, recipient, peer).session, pt, recipient, order[1..]);
    }
  }

  lemma {:induction false} SendAllKeepsPeers(w: World, s: Session, outbound: seq<Out>)
    ensures SendAll(w, s, outbound).0.peers == s.peers && SendAll(w, s, outbound).0.allowed == s.allowed
    decreases outbound
  {
    if outbound != [] { SendAllKeepsPeers(w, SendFrame(w, s, false, outbound[0].peer, outbound[0].frame).0, outbound[1..]); }
  }

  lemma FrameKeepsAdmitted(w: World, s: Session, f: Frame)
    requires Admitted(w, s)
    ensures Admitted(w, ProcessFrame(w, s, f).0)
  {
    match f {
      case Presence(peer, _) => DropKeepsAdmitted(w, s, s.Without(peer), {peer});
      case Env(payload, src, ephemeral) => EnvKeepsAdmitted(w, s, payload, src, ephemeral);
      case _ =>
    }
  }

  lemma NextKeepsAdmitted(w: World, s: Session, recv: Recv)
    requires Admitted(w, s)
    ensures Admitted(w, ProcessNext(w, s, recv).0)
  {
    var t := s.Did(SocketRead);
    assert Admitted(w, t);
    if recv.Got? { FrameKeepsAdmitted(w, t, recv.frame); }
  }

  lemma FanOutKeepsAdmitted(w: World, s: Session, pt: Bytes, recipient: Id -> bool, order: seq<Id>)
    requires Admitted(w, s)
    ensures Admitted(w, Broadcast(w, s, pt, recipient, order).0)
  {
    if !s.transportFailed {
      var enc := EncryptAll(w, s, pt, recipient, order);
      EncryptAllKeepsAdmitted(w, s, pt, recipient, order);
      SendAllKeepsPeers(w, enc.session, enc.outbound);
      var (t, failed, _) := SendAll(w, enc.session, enc.outbound);
      DropBothKeepsAdmitted(w, enc.session, t, enc.failed, failed);
    }
  }

  lemma MinusTwice(m: map<Id, Peer>, a: set<Id>, b: set<Id>)
    ensures m - a - b == m - (a + b)
  {}

  lemma DropBothKeepsAdmitted(w: World, s: Session, t: Session, gone: set<Id>, more: set<Id>)
    requires Admitted(w, s) && t.peers == s.peers && t.allowed == s.allowed
    ensures Admitted(w, t.(peers := t.peers - gone - more))
  {
    hide Proven;
    MinusTwice(t.peers, gone, more);
    DropKeepsAdmitted(w, s, t.(peers := t.peers - (gone + more)), gone + more);
  }

  lemma SendKeepsAdmitted(w: World, s: Session, peer: Id, pt: Bytes)
    requires Admitted(w, s)
    ensures Admitted(w, SendTo(w, s, peer, pt).0)
  {
    var frame := Frame1(w, s, peer, pt);
    if frame.Some? { SpendKeepsAdmitted(w, s, peer, pt, frame.value); }
  }

  lemma StepKeepsAdmitted(w: World, s: Session, op: Op)
    requires Admitted(w, s)
    ensures Admitted(w, Step(w, s, op))
  {
    hide ProcessNext, SendTo, Broadcast;
    match op {
      case Next(recv) => NextKeepsAdmitted(w, s, recv);
      case Send(peer, pt) => SendKeepsAdmitted(w, s, peer, pt);
      case FanOut(pt, recipient, order) => FanOutKeepsAdmitted(w, s, pt, recipient, order);
      case Replace(allowed) => FewerPeers(s.peers, Evicted(s, allowed));
    }
  }

  /** In every reachable state the established peers are on the current allow-list, are at most eight, and
      each is keyed by the id its proof yielded for the static key its handshake authenticated. */
  lemma {:induction false} RunKeepsAdmitted(w: World, s: Session, ops: seq<Op>)
    requires Admitted(w, s)
    ensures Admitted(w, Run(w, s, ops))
    decreases ops
  {
    if ops != [] {
      StepKeepsAdmitted(w, s, ops[0]);
      RunKeepsAdmitted(w, Step(w, s, ops[0]), ops[1..]);
    }
  }

  lemma FreshSessionAdmitted(w: World, allowed: set<Id>, ops: seq<Op>)
    ensures Admitted(w, Run(w, New(allowed), ops))
  {
    RunKeepsAdmitted(w, New(allowed), ops);
  }

  // ----- Isolation ---------------------------------------------------------

  ghost predicate SameFor(a: Session, b: Session, q: Id) {
    && (q in a.peers <==> q in b.peers)
    && (q in a.peers ==> a.peers[q] == b.peers[q])
  }

  /** An `env` from one peer leaves every other peer's transport as it was. */
  lemma EnvIsIsolated(w: World, s: Session, payload: string, src: Id, ephemeral: Bytes, q: Id)
    requires q != src
    ensures SameFor(s, ProcessEnv(w, s, payload, Some(src), ephemeral).0, q)
    ensures ProcessEnv(w, s, payload, Some(src), ephemeral).0.allowed == s.allowed
  {}

  // ----- The transport latch -----------------------------------------------

  /** Once a send has met a transport error the latch never clears, and nothing more is read, sent or
      encrypted, whatever is asked of the session. */
  lemma {:induction false} LatchIsFinal(w: World, s: Session, ops: seq<Op>)
    requires s.transportFailed
    ensures Run(w, s, ops).transportFailed && Run(w, s, ops).io == s.io
    decreases ops
  {
    if ops != [] { LatchIsFinal(w, Step(w, s, ops[0]), ops[1..]); }
  }

  /** Some send so far met a transport error. */
  predicate Broken(io: seq<Io>) {
    io != [] &&
    (var last := io[|io| - 1];
     || ((last.SentReply? || last.SentData?) && last.outcome == TransportError)
     || Broken(io[..|io| - 1]))
  }

  ghost predicate LatchTrue(s: Session) { s.transportFailed <==> Broken(s.io) }

  lemma DidKeepsLatch(s: Session, e: Io)
    requires LatchTrue(s) && !(e.SentReply? || e.SentData?)
    ensures LatchTrue(s.Did(e))
  {
    assert (s.io + [e])[..|s.io|] == s.io;
  }

  lemma SendKeepsLatch(w: World, s: Session, reply: bool, dst: Id, frame: Bytes)
    requires LatchTrue(s)
    ensures LatchTrue(SendFrame(w, s, reply, dst, frame).0)
  {
    var o := w.net(|s.io|);
    var e := if reply then SentReply(dst, frame, o) else SentData(dst, frame, o);
    assert (s.io + [e])[..|s.io|] == s.io;
  }

  lemma {:induction false} EncryptAllKeepsLatch(w: World, s: Session, pt: Bytes, recipient: Id -> bool, order: seq<Id>)
    requires LatchTrue(s)
    ensures LatchTrue(EncryptAll(w, s, pt, recipient, order).session)
    decreases order
  {
    if order != [] {
      var peer := order[0];
      DidKeepsLatch(s, EncryptFailed(peer));
      var frame := Frame1(w, s, peer, pt);
      if frame.Some? { DidKeepsLatch(s, Encrypted(peer, pt, frame.value)); }
      EncryptAllKeepsLatch(w, EncryptOne(w, s, pt, recipient, peer).session, pt, recipient, order[1..]);
    }
  }

  lemma {:induction false} SendAllKeepsLatch(w: World, s: Session, outbound: seq<Out>)
    requires LatchTrue(s)
    ensures LatchTrue(SendAll(w, s, outbound).0)
    decreases outbound
  {
    if outbound != [] {
      SendKeepsLatch(w, s, false, outbound[0].peer, outbound[0].frame);
      SendAllKeepsLatch(w, SendFrame(w, s, false, outbound[0].peer, outbound[0].frame).0, outbound[1..]);
    }
  }

  lemma BootstrapKeepsLatch(w: World, s: Session, src: Id, msg1: Bytes, ephemeral: Bytes)
    requires LatchTrue(s)
    ensures LatchTrue(BootstrapPeer(w, s, src, msg1, ephemeral).0)
  {
    var reply := Reply(w, msg1, ephemeral);
    SendKeepsLatch(w, s, true, src, reply);
    DidKeepsLatch(SendFrame(w, s, true, src, reply).0, Established(src));
  }

  lemma NextKeepsLatch(w: World, s: Session, recv: Recv)
    requires LatchTrue(s)
    ensures LatchTrue(ProcessNext(w, s, recv).0)
  {
    DidKeepsLatch(s, SocketRead);
    if recv.Got? { FrameKeepsLatch(w, s.Did(SocketRead), recv.frame); }
  }

  lemma FrameKeepsLatch(w: World, s: Session, f: Frame)
    requires LatchTrue(s)
    ensures LatchTrue(ProcessFrame(w, s, f).0)
  {
    match f {
      case Env(payload, src, ephemeral) => EnvKeepsLatch(w, s, payload, src, ephemeral);
      case _ => OnlyPeersChange(s, ProcessFrame(w, s, f).0);
    }
  }

  lemma OnlyPeersChange(s: Session, t: Session)
    requires LatchTrue(s) && t == s.(peers := t.peers)
    ensures LatchTrue(t)
  {}

  lemma EnvKeepsLatch(w: World, s: Session, payload: string, src: Option<Id>, ephemeral: Bytes)
    requires LatchTrue(s)
    ensures LatchTrue(ProcessEnv(w, s, payload, src, ephemeral).0)
  {
    if src.Some? && src.value !in s.peers && w.crypto.decode(payload).Some? {
      BootstrapKeepsLatch(w, s, src.value, w.crypto.decode(payload).value, ephemeral);
    } else {
      OnlyPeersChange(s, ProcessEnv(w, s, payload, src, ephemeral).0);
    }
  }

  /** In every reachable state the latch is set exactly when some send met a transport error. */
  lemma {:induction false} LatchIsExact(w: World, s: Session, ops: seq<Op>)
    requires LatchTrue(s)
    ensures LatchTrue(Run(w, s, ops))
    decreases ops
  {
    if ops != [] {
      match ops[0] {
        case Next(recv) => NextKeepsLatch(w, s, recv);
        case Send(peer, pt) =>
          DidKeepsLatch(s, EncryptFailed(peer));
          var frame := Frame1(w, s, peer, pt);
          if frame.Some? {
            DidKeepsLatch(s, Encrypted(peer, pt, frame.value));
            SendKeepsLatch(w, Spend(s, peer, pt, frame.value), false, peer, frame.value);
          }
        case FanOut(pt, recipient, order) =>
          var enc := EncryptAll(w, s, pt, recipient, order);
          EncryptAllKeepsLatch(w, s, pt, recipient, order);
          SendAllKeepsLatch(w, enc.session, enc.outbound);
        case Replace(_) =>
      }
      LatchIsExact(w, Step(w, s, ops[0]), ops[1..]);
    }
  }

  // ----- Nonces ------------------------------------------------------------

  predicate IsSent(e: Io, p: Id, o: SendOutcome) { e.SentData? && e.dst == p && e.outcome == o }

  /** Data frames to `p` with the given outcome since `p` was last established. */
  function CountSince(io: seq<Io>, p: Id, o: SendOutcome): nat {
    if io == [] then 0
    else
      var last := io[|io| - 1];
      if last == Established(p) then 0
      else CountSince(io[..|io| - 1], p, o) + if IsSent(last, p, o) then 1 else 0
  }

  lemma CountSinceStep(io: seq<Io>, e: Io, p: Id, o: SendOutcome)
    ensures CountSince(io + [e], p, o)
            == if e == Established(p) then 0 else CountSince(io, p, o) + if IsSent(e, p, o) then 1 else 0
  {
    assert (io + [e])[..|io|] == io;
  }

  /** Frames to `p` that used up a nonce: accepted, or refused by the socket for another reason. */
  function Spent(io: seq<Io>, p: Id): nat { CountSince(io, p, Accepted) + CountSince(io, p, OtherError) }

  ghost predicate NoncesCount(s: Session) {
    !s.transportFailed ==> forall p :: p in s.peers ==> s.peers[p].sendNonce == Spent(s.io, p)
  }

  /** Which events move `p`'s count of spent nonces. */
  lemma SpentStep(io: seq<Io>, e: Io, p: Id)
    ensures e == Established(p) ==> Spent(io + [e], p) == 0
    ensures IsSent(e, p, Accepted) || IsSent(e, p, OtherError) ==> Spent(io + [e], p) == Spent(io, p) + 1
    ensures e != Established(p) && !(e.SentData? && e.dst == p && e.outcome != TransportError)
            ==> Spent(io + [e], p) == Spent(io, p)
  {
    CountSinceStep(io, e, p, Accepted);
    CountSinceStep(io, e, p, OtherError);
  }

  lemma SendFrameSpends(w: World, s: Session, reply: bool, dst: Id, frame: Bytes, p: Id)
    requires !SendFrame(w, s, reply, dst, frame).0.transportFailed
    ensures !s.transportFailed
    ensures Spent(SendFrame(w, s, reply, dst, frame).0.io, p) == Spent(s.io, p) + if !reply && dst == p then 1 else 0
  {
    SpentStep(s.io, if reply then SentReply(dst, frame, w.net(|s.io|)) else SentData(dst, frame, w.net(|s.io|)), p);
  }

  lemma BootstrapCounts(w: World, s: Session, src: Id, msg1: Bytes, ephemeral: Bytes)
    requires NoncesCount(s)
    ensures NoncesCount(BootstrapPeer(w, s, src, msg1, ephemeral).0)
  {
    var t := BootstrapPeer(w, s, src, msg1, ephemeral).0;
    BootstrapShape(w, s, src, msg1, ephemeral);
    if !t.transportFailed {
      var reply := Reply(w, msg1, ephemeral);
      var sent := SendFrame(w, s, true, src, reply).0;
      forall p | p in t.peers ensures t.peers[p].sendNonce == Spent(t.io, p) {
        if t.io != s.io {
          SendFrameSpends(w, s, true, src, reply, p);
          SpentStep(sent.io, Established(src), p);
        }
      }
    }
  }

  lemma NextCounts(w: World, s: Session, recv: Recv)
    requires NoncesCount(s)
    ensures NoncesCount(ProcessNext(w, s, recv).0)
  {
    var t := s.Did(SocketRead);
    forall p ensures Spent(t.io, p) == Spent(s.io, p) { SpentStep(s.io, SocketRead, p); }
    assert NoncesCount(t);
    if recv.Got? && recv.frame.Env? && recv.frame.src.Some? && w.crypto.decode(recv.frame.payload).Some? {
      BootstrapCounts(w, t, recv.frame.src.value, w.crypto.decode(recv.frame.payload).value, recv.frame.ephemeral);
    }
  }

  lemma SendCounts(w: World, s: Session, peer: Id, pt: Bytes)
    requires NoncesCount(s)
    ensures NoncesCount(SendTo(w, s, peer, pt).0)
  {
    hide Spent;
    var t := SendTo(w, s, peer, pt).0;
    if !t.transportFailed && peer in s.peers && t != s {
      forall p | p in t.peers ensures t.peers[p].sendNonce == Spent(t.io, p) {
        SpentStep(s.io, EncryptFailed(peer), p);
        var frame := Frame1(w, s, peer, pt);
        if frame.Some? {
          SpentStep(s.io, Encrypted(peer, pt, frame.value), p);
          SendFrameSpends(w, Spend(s, peer, pt, frame.value), false, peer, frame.value, p);
        }
      }
    }
  }

  ghost predicate Distinct(ids: seq<Id>) { forall i, j :: 0 <= i < j < |ids| ==> ids[i] != ids[j] }

  /** Phase 1 of a fan-out uses one nonce of each peer it queues a frame for, and of no other. */
  lemma EncryptOneSpends(w: World, s: Session, pt: Bytes, recipient: Id -> bool, peer: Id, p: Id)
    ensures var r := EncryptOne(w, s, pt, recipient, peer);
            && r.session.peers.Keys == s.peers.Keys && r.session.transportFailed == s.transportFailed
            && (To(r.outbound) == [] || To(r.outbound) == [peer])
            && (p in s.peers ==> r.session.peers[p].sendNonce == s.peers[p].sendNonce + if p in To(r.outbound) then 1 else 0)
            && Spent(r.session.io, p) == Spent(s.io, p)
  {
    hide Spent;
    var frame := Frame1(w, s, peer, pt);
    if frame.Some? { SpentStep(s.io, Encrypted(peer, pt, frame.value), p); }
    SpentStep(s.io, EncryptFailed(peer), p);
  }

  lemma ToJoin(a: seq<Out>, b: seq<Out>)
    ensures To(a + b) == To(a) + To(b)
  {}

  lemma ToRest(a: seq<Out>)
    requires a != []
    ensures To(a) == [a[0].peer] + To(a[1..]) && To(a)[1..] == To(a[1..])
  {}

  lemma ToOne(peer: Id, frame: Bytes)
    ensures To([Out(peer, frame)]) == [peer]
  {}

  lemma DistinctRest(a: seq<Out>)
    requires a != [] && Distinct(To(a))
    ensures To(a) == [a[0].peer] + To(a[1..]) && a[0].peer !in To(a[1..]) && Distinct(To(a[1..]))
  {
    ToRest(a);
    var ids := To(a);
    hide To;
    forall j | 0 <= j < |ids| - 1 ensures ids[1..][j] != ids[0] {
      assert ids[1..][j] == ids[j + 1];
    }
  }

  lemma DistinctJoin(one: seq<Id>, rest: seq<Id>, order: seq<Id>)
    requires order != [] && order[0] !in order[1..] && (one == [] || one == [order[0]])
    requires Distinct(rest) && forall q :: q in rest ==> q in order[1..]
    ensures Distinct(one + rest) && forall q :: q in one + rest ==> q in order
  {
    assert forall j :: 0 <= j < |rest| ==> rest[j] in order[1..];
  }

  lemma {:induction false} EncryptAllSpends(w: World, s: Session, pt: Bytes, recipient: Id -> bool, order: seq<Id>, p: Id)
    requires Distinct(order)
    ensures var r := EncryptAll(w, s, pt, recipient, order);
            && r.session.peers.Keys == s.peers.Keys && r.session.transportFailed == s.transportFailed
            && Distinct(To(r.outbound)) && (forall q :: q in To(r.outbound) ==> q in order)
            && (p in s.peers ==> r.session.peers[p].sendNonce == s.peers[p].sendNonce + if p in To(r.outbound) then 1 else 0)
            && Spent(r.session.io, p) == Spent(s.io, p)
    decreases order
  {
    if order != [] {
      assert order[0] !in order[1..];
      hide Spent, EncryptOne;
      EncryptOneSpends(w, s, pt, recipient, order[0], p);
      var one := EncryptOne(w, s, pt, recipient, order[0]);
      EncryptAllSpends(w, one.session, pt, recipient, order[1..], p);
      var rest := EncryptAll(w, one.session, pt, recipient, order[1..]).outbound;
      ToJoin(one.outbound, rest);
      DistinctJoin(To(one.outbound), To(rest), order);
      hide To, Distinct;
    }
  }

  /** Phase 2, unless it meets a transport error, accounts for each queued frame once. */
  lemma {:induction false} SendAllSpends(w: World, s: Session, outbound: seq<Out>, p: Id)
    requires Distinct(To(outbound)) && !SendAll(w, s, outbound).0.transportFailed
    ensures Spent(SendAll(w, s, outbound).0.io, p) == Spent(s.io, p) + if p in To(outbound) then 1 else 0
    decreases outbound
  {
    if outbound != [] {
      var t := SendFrame(w, s, false, outbound[0].peer, outbound[0].frame).0;
      DistinctRest(outbound);
      if t.transportFailed { SendAllLatched(w, t, outbound[1..]); }
      SendAllSpends(w, t, outbound[1..], p);
      SendFrameSpends(w, s, false, outbound[0].peer, outbound[0].frame, p);
    }
  }

  lemma {:induction false} SendAllLatched(w: World, s: Session, outbound: seq<Out>)
    requires s.transportFailed
    ensures SendAll(w, s, outbound).0 == s
    decreases outbound
  {
    if outbound != [] { SendAllLatched(w, s, outbound[1..]); }
  }

  lemma FanOutCounts(w: World, s: Session, pt: Bytes, recipient: Id -> bool, order: seq<Id>)
    requires NoncesCount(s) && WalksPeers(order, s.peers)
    ensures NoncesCount(Broadcast(w, s, pt, recipient, order).0)
  {
    var t := Broadcast(w, s, pt, recipient, order).0;
    if !s.transportFailed && !t.transportFailed {
      var enc := EncryptAll(w, s, pt, recipient, order);
      forall p | p in t.peers ensures t.peers[p].sendNonce == Spent(t.io, p) {
        EncryptAllSpends(w, s, pt, recipient, order, p);
        SendAllKeepsPeers(w, enc.session, enc.outbound);
        SendAllSpends(w, enc.session, enc.outbound, p);
      }
    }
  }

  lemma {:induction false} RunCounts(w: World, s: Session, ops: seq<Op>)
    requires NoncesCount(s)
    ensures NoncesCount(Run(w, s, ops))
    decreases ops
  {
    if ops != [] {
      match ops[0] {
        case Next(recv) => NextCounts(w, s, recv);
        case Send(peer, pt) => SendCounts(w, s, peer, pt);
        case FanOut(pt, recipient, order) => if WalksPeers(order, s.peers) { FanOutCounts(w, s, pt, recipient, order); }
        case Replace(_) =>
      }
      RunCounts(w, Step(w, s, ops[0]), ops[1..]);
    }
  }

  /** While the transport has not failed, every established peer's send nonce is the number of its data
      frames the socket accepted since its establishment, plus those it refused for a reason other than the
      transport; so it is the accepted ones alone exactly when no such refusal happened. */
  lemma NonceLaw(w: World, allowed: set<Id>, ops: seq<Op>, p: Id)
    requires var s := Run(w, New(allowed), ops); !s.transportFailed && p in s.peers
    ensures var s := Run(w, New(allowed), ops);
            && s.peers[p].sendNonce == CountSince(s.io, p, Accepted) + CountSince(s.io, p, OtherError)
            && (s.peers[p].sendNonce == CountSince(s.io, p, Accepted) <==> CountSince(s.io, p, OtherError) == 0)
  {
    RunCounts(w, New(allowed), ops);
  }

  // ----- Demultiplexing refines independent sessions -----------------------

  /** The frame concerns peer `p`: routed from it, or about its presence. */
  predicate Concerns(f: Frame, p: Id) {
    (f.Env? && f.src == Some(p)) || (f.Presence? && f.peer == p)
  }

  function FramesOf(script: seq<Frame>, p: Id): seq<Frame> {
    if script == [] then []
    else (if Concerns(script[0], p) then [script[0]] else []) + FramesOf(script[1..], p)
  }

  /** Outcomes of the script's frames about `p`, in order. */
  function OutcomesOf(w: World, s: Session, script: seq<Frame>, p: Id): seq<Result<Poll, SessionError>>
    decreases script
  {
    if script == [] then []
    else
      var (s', r) := ProcessNext(w, s, Got(script[0]));
      (if Concerns(script[0], p) then [r] else []) + OutcomesOf(w, s', script[1..], p)
  }

  ghost predicate NetworkUp(w: World) { forall n :: w.net(n) == Accepted }

  /** Two sessions that agree on everything about `p`. */
  ghost predicate Agree(w: World, a: Session, b: Session, p: Id) {
    && Admitted(w, a) && Admitted(w, b) && a.allowed == b.allowed && |a.allowed| <= MAX_PEERS
    && !a.transportFailed && !b.transportFailed
    && SameFor(a, b, p)
  }

  /** With at most eight ids on the list, a listed peer that is not established always has room. */
  lemma RoomForListed(w: World, s: Session, p: Id)
    requires Admitted(w, s) && |s.allowed| <= MAX_PEERS && p in s.allowed && p !in s.peers
    ensures |s.peers| < MAX_PEERS
  {
    SubsetSize(s.peers.Keys, s.allowed);
  }

  /** With the network up a bootstrap never latches, and its verdict does not depend on the session. */
  lemma BootstrapUp(w: World, a: Session, b: Session, src: Id, msg1: Bytes, ephemeral: Bytes)
    requires NetworkUp(w) && !a.transportFailed && !b.transportFailed
    ensures !BootstrapPeer(w, a, src, msg1, ephemeral).0.transportFailed
    ensures BootstrapPeer(w, a, src, msg1, ephemeral).1 == BootstrapPeer(w, b, src, msg1, ephemeral).1
  {
    assert w.net(|a.io|) == Accepted && w.net(|b.io|) == Accepted;
  }

  lemma EnvUp(w: World, s: Session, payload: string, src: Option<Id>, ephemeral: Bytes)
    requires NetworkUp(w) && !s.transportFailed
    ensures var t := ProcessEnv(w, s, payload, src, ephemeral).0;
            !t.transportFailed && t.allowed == s.allowed
  {
    if src.Some? && w.crypto.decode(payload).Some? {
      BootstrapUp(w, s, s, src.value, w.crypto.decode(payload).value, ephemeral);
    }
  }

  /** A frame about another peer does not touch `p`. */
  lemma OtherFrame(w: World, a: Session, f: Frame, p: Id)
    requires NetworkUp(w) && !a.transportFailed && Admitted(w, a) && !Concerns(f, p)
    ensures var a' := ProcessNext(w, a, Got(f)).0;
            Admitted(w, a') && a'.allowed == a.allowed && !a'.transportFailed && SameFor(a, a', p)
  {
    hide Admitted;
    NextKeepsAdmitted(w, a, Got(f));
    var t := a.Did(SocketRead);
    match f {
      case Env(payload, src, ephemeral) =>
        OtherEnv(w, t, payload, src, ephemeral, p);
        hide ProcessEnv;
      case _ =>
    }
  }

  lemma OtherEnv(w: World, s: Session, payload: string, src: Option<Id>, ephemeral: Bytes, p: Id)
    requires NetworkUp(w) && !s.transportFailed && src != Some(p)
    ensures var t := ProcessEnv(w, s, payload, src, ephemeral).0;
            t.allowed == s.allowed && !t.transportFailed && SameFor(s, t, p)
  {
    EnvUp(w, s, payload, src, ephemeral);
    if src.Some? {
      EnvIsIsolated(w, s, payload, src.value, ephemeral, p);
      hide ProcessEnv;
    }
  }

  /** An `env` from `p` has the same outcome and effect on `p` in both sessions. */
  lemma OwnEnv(w: World, a: Session, b: Session, payload: string, ephemeral: Bytes, p: Id)
    requires NetworkUp(w) && Agree(w, a, b, p)
    ensures ProcessEnv(w, a, payload, Some(p), ephemeral).1 == ProcessEnv(w, b, payload, Some(p), ephemeral).1
    ensures ProcessEnv(w, a, payload, Some(p), ephemeral).1 != PeerRefused(p, AtCapacity)
    ensures SameFor(ProcessEnv(w, a, payload, Some(p), ephemeral).0, ProcessEnv(w, b, payload, Some(p), ephemeral).0, p)
  {
    if p in a.peers {
      OwnTransport(w, a, b, payload, ephemeral, p);
    } else if p in a.allowed {
      RoomForListed(w, a, p);
      RoomForListed(w, b, p);
      if w.crypto.decode(payload).Some? {
        OwnBootstrap(w, a, b, p, w.crypto.decode(payload).value, ephemeral);
      }
    }
  }

  lemma OwnTransport(w: World, a: Session, b: Session, payload: string, ephemeral: Bytes, p: Id)
    requires SameFor(a, b, p) && p in a.peers
    ensures var (a', ra) := ProcessEnv(w, a, payload, Some(p), ephemeral);
            var (b', rb) := ProcessEnv(w, b, payload, Some(p), ephemeral);
            ra == rb && !ra.PeerRefused? && SameFor(a', b', p)
  {}

  lemma OwnBootstrap(w: World, a: Session, b: Session, p: Id, msg1: Bytes, ephemeral: Bytes)
    requires NetworkUp(w) && Agree(w, a, b, p) && p !in a.peers
    ensures var (a', ra) := BootstrapPeer(w, a, p, msg1, ephemeral);
            var (b', rb) := BootstrapPeer(w, b, p, msg1, ephemeral);
            ra == rb && ra != Err(AtCapacity) && SameFor(a', b', p)
  {
    BootstrapUp(w, a, b, p, msg1, ephemeral);
    BootstrapShape(w, a, p, msg1, ephemeral);
    BootstrapShape(w, b, p, msg1, ephemeral);
  }

  /** A frame about `p` has the same outcome and effect on `p` in both sessions. */
  lemma OwnFrame(w: World, a: Session, b: Session, f: Frame, p: Id)
    requires NetworkUp(w) && Agree(w, a, b, p) && Concerns(f, p)
    ensures ProcessNext(w, a, Got(f)).1 == ProcessNext(w, b, Got(f)).1
    ensures ProcessNext(w, a, Got(f)).1 != Ok(PeerRefused(p, AtCapacity))
    ensures Agree(w, ProcessNext(w, a, Got(f)).0, ProcessNext(w, b, Got(f)).0, p)
  {
    hide ProcessFrame;
    var a', b' := a.Did(SocketRead), b.Did(SocketRead);
    assert Agree(w, a', b', p);
    FrameKeepsAdmitted(w, a', f);
    FrameKeepsAdmitted(w, b', f);
    OwnFrameProcessed(w, a', b', f, p);
  }

  lemma OwnFrameProcessed(w: World, a: Session, b: Session, f: Frame, p: Id)
    requires NetworkUp(w) && Agree(w, a, b, p) && Concerns(f, p)
    ensures var (a', ra) := ProcessFrame(w, a, f); var (b', rb) := ProcessFrame(w, b, f);
            && ra == rb && ra != Ok(PeerRefused(p, AtCapacity)) && SameFor(a', b', p)
            && !a'.transportFailed && !b'.transportFailed && a'.allowed == a.allowed && b'.allowed == b.allowed
  {
    match f {
      case Env(payload, src, ephemeral) =>
        OwnEnv(w, a, b, payload, ephemeral, p);
        EnvUp(w, a, payload, src, ephemeral);
        EnvUp(w, b, payload, src, ephemeral);
      case _ =>
    }
  }

  /** With a fixed allow-list of at most eight ids and a socket that accepts every send, the outcomes for
      peer `p` in any interleaved script are those of a session that is only ever sent `p`'s frames. */
  lemma {:induction false} DemuxRefinesIndependent(w: World, a: Session, b: Session, script: seq<Frame>, p: Id)
    requires NetworkUp(w) && Agree(w, a, b, p)
    ensures OutcomesOf(w, a, script, p) == OutcomesOf(w, b, FramesOf(script, p), p)
    ensures Ok(PeerRefused(p, AtCapacity)) !in OutcomesOf(w, a, script, p)
    decreases script
  {
    if script != [] {
      var f, rest := script[0], FramesOf(script[1..], p);
      var a' := ProcessNext(w, a, Got(f)).0;
      if Concerns(f, p) {
        var b' := ProcessNext(w, b, Got(f)).0;
        OwnFrame(w, a, b, f, p);
        DemuxRefinesIndependent(w, a', b', script[1..], p);
        assert ([f] + rest)[1..] == rest;
      } else {
        OtherFrame(w, a, f, p);
        DemuxRefinesIndependent(w, a', b, script[1..], p);
        assert [] + rest == rest;
      }
    }
  }

  lemma FreshSessionsIndependent(w: World, allowed: set<Id>, script: seq<Frame>, p: Id)
    requires NetworkUp(w) && |allowed| <= MAX_PEERS
    ensures OutcomesOf(w, New(allowed), script, p) == OutcomesOf(w, New(allowed), FramesOf(script, p), p)
    ensures Ok(PeerRefused(p, AtCapacity)) !in OutcomesOf(w, New(allowed), script, p)
  {
    DemuxRefinesIndependent(w, New(allowed), New(allowed), script, p);
  }
}

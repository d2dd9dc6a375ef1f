/** What is decrypted and encrypted with what: in every run each frame from or to a peer is handled under that peer's
    own handshake at its own position in that peer's stream, and every answer of the session says what happened. */
module MultiSessionCipher {
  import opened Prelude
  import opened MultiSession
  import opened MultiSessionRuns
  import Delivery = MultiSessionDelivery

  // ----- Receiving ---------------------------------------------------------

  /** What a peer's stream of frames means, on its own: the j-th is decrypted at position j, and the stream ends at
      the first that does not decode or decrypt there. */
  function Stream(c: Crypto, p: Id, msg1: Bytes, ephemeral: Bytes, j: nat, payloads: seq<string>): seq<Poll>
    decreases payloads
  {
    if payloads == [] then []
    else if c.decode(payloads[0]).None? then [PeerDown(p)]
    else
      match c.decrypt(msg1, ephemeral, j, c.decode(payloads[0]).value)
      case Some(plaintext) => [Plaintext(p, plaintext)] + Stream(c, p, msg1, ephemeral, j + 1, payloads[1..])
      case None => [PeerDown(p)]
  }

  /** The operation reads a frame from `p` off a working socket. */
  predicate Hears(s: Session, op: Op, p: Id) {
    !s.transportFailed && op.Next? && op.recv.Got? && op.recv.frame.Env? && op.recv.frame.src == Some(p)
  }

  /** Payloads of the frames read from `p` for as long as `p` stays established. */
  function Payloads(w: World, s: Session, ops: seq<Op>, p: Id): seq<string>
    decreases ops
  {
    if ops == [] || p !in s.peers then []
    else
      (if Hears(s, ops[0], p) then [ops[0].recv.frame.payload] else []) + Payloads(w, Step(w, s, ops[0]), ops[1..], p)
  }

  /** What was answered to those frames. */
  function Answers(w: World, s: Session, ops: seq<Op>, p: Id): seq<Result<Poll, SessionError>>
    decreases ops
  {
    if ops == [] || p !in s.peers then []
    else
      (if Hears(s, ops[0], p) then [ProcessNext(w, s, ops[0].recv).1] else []) + Answers(w, Step(w, s, ops[0]), ops[1..], p)
  }

  /** Everything was answered with a poll result, these. */
  predicate AllOk(rs: seq<Result<Poll, SessionError>>, polls: seq<Poll>) {
    |rs| == |polls| && forall i :: 0 <= i < |rs| ==> rs[i] == Ok(polls[i])
  }

  /** An operation that does not read from `p` leaves the receiving half of its transport alone. */
  lemma OthersKeepReceiver(w: World, s: Session, op: Op, p: Id)
    requires p in s.peers && !Hears(s, op, p)
    ensures var t := Step(w, s, op);
            p in t.peers ==> t.peers[p] == s.peers[p].(sendNonce := t.peers[p].sendNonce)
  {
    match op {
      case Next(recv) =>
        if !s.transportFailed && recv.Got? && recv.frame.Env? && recv.frame.src.Some? {
          EnvIsIsolated(w, s.Did(SocketRead), recv.frame.payload, recv.frame.src.value, recv.frame.ephemeral, p);
        }
      case Send(peer, pt) =>
      case FanOut(pt, recipient, order) =>
        if WalksPeers(order, s.peers) && !s.transportFailed {
          hide Broadcast;
          Delivery.FanOutIsExact(w, s, pt, recipient, order, p);
        }
      case Replace(_) =>
    }
  }

  /** A frame from an established peer is decrypted under its handshake at its receive position. */
  lemma HeardFrame(w: World, s: Session, op: Op, p: Id)
    requires p in s.peers && Hears(s, op, p)
    ensures var q, payload := s.peers[p], op.recv.frame.payload;
            var (t, r) := ProcessNext(w, s, op.recv);
            var polls := Stream(w.crypto, p, q.msg1, q.ephemeral, q.recvNonce, [payload]);
            && Step(w, s, op) == t && r == Ok(polls[0])
            && (p in t.peers <==> polls[0].Plaintext?)
            && (p in t.peers ==> t.peers[p] == q.(recvNonce := q.recvNonce + 1))
  {
    assert [op.recv.frame.payload][1..] == [];
  }

  lemma StreamFirst(c: Crypto, p: Id, msg1: Bytes, ephemeral: Bytes, j: nat, first: string, rest: seq<string>)
    ensures var one, all := Stream(c, p, msg1, ephemeral, j, [first]), Stream(c, p, msg1, ephemeral, j, [first] + rest);
            |one| == 1
            && all == one + if one[0].Plaintext? then Stream(c, p, msg1, ephemeral, j + 1, rest) else []
  {
    assert [first][1..] == [] && ([first] + rest)[1..] == rest;
    assert Stream(c, p, msg1, ephemeral, j + 1, []) == [];
  }

  /** From any state with `p` established, whatever other peers send and whatever is sent meanwhile: the answers to
      `p`'s frames, for as long as it stays established, are those of its own stream read on from its position. */
  lemma {:induction false} EveryStreamIsRead(w: World, s: Session, ops: seq<Op>, p: Id)
    requires p in s.peers
    ensures var q := s.peers[p];
            AllOk(Answers(w, s, ops, p), Stream(w.crypto, p, q.msg1, q.ephemeral, q.recvNonce, Payloads(w, s, ops, p)))
    decreases ops
  {
    if ops != [] {
      var q, t, c := s.peers[p], Step(w, s, ops[0]), w.crypto;
      var payloads, answers := Payloads(w, t, ops[1..], p), Answers(w, t, ops[1..], p);
      if p in t.peers { EveryStreamIsRead(w, t, ops[1..], p); }
      if Hears(s, ops[0], p) {
        HeardFrame(w, s, ops[0], p);
        var payload := ops[0].recv.frame.payload;
        StreamFirst(c, p, q.msg1, q.ephemeral, q.recvNonce, payload, payloads);
        hide Step, ProcessNext, Stream;
        assert Payloads(w, s, ops, p) == [payload] + payloads;
      } else {
        OthersKeepReceiver(w, s, ops[0], p);
        hide Step, Stream, Hears;
        assert Payloads(w, s, ops, p) == [] + payloads == payloads && Answers(w, s, ops, p) == [] + answers == answers;
      }
    }
  }

  /** From its establishment on: the first frame a peer sends is decrypted at position 0 of the transport its
      handshake ended in, the next at 1, and so on. */
  lemma EstablishedStreamIsRead(w: World, s: Session, recv: Recv, ops: seq<Op>, p: Id, id: Bytes)
    requires ProcessNext(w, s, recv).1 == Ok(PeerEstablished(p, id))
    ensures recv.Got? && recv.frame.Env? && w.crypto.decode(recv.frame.payload).Some?
    ensures var t := ProcessNext(w, s, recv).0; var msg1 := w.crypto.decode(recv.frame.payload).value;
            && id == w.crypto.handshakeHash(msg1, recv.frame.ephemeral)
            && AllOk(Answers(w, t, ops, p), Stream(w.crypto, p, msg1, recv.frame.ephemeral, 0, Payloads(w, t, ops, p)))
  {
    var t := ProcessNext(w, s, recv).0;
    EstablishedFresh(w, s, recv, p, id);
    hide ProcessNext, Stream;
    EveryStreamIsRead(w, t, ops, p);
  }

  lemma EstablishedFresh(w: World, s: Session, recv: Recv, p: Id, id: Bytes)
    requires ProcessNext(w, s, recv).1 == Ok(PeerEstablished(p, id))
    ensures recv.Got? && recv.frame.Env? && w.crypto.decode(recv.frame.payload).Some?
    ensures var t := ProcessNext(w, s, recv).0; var msg1 := w.crypto.decode(recv.frame.payload).value;
            && p in t.peers && t.peers[p] == Peer(msg1, recv.frame.ephemeral, 0, 0, id)
            && id == w.crypto.handshakeHash(msg1, recv.frame.ephemeral)
  {
    BootstrapShape(w, s.Did(SocketRead), p, w.crypto.decode(recv.frame.payload).value, recv.frame.ephemeral);
  }

  // ----- Sending -----------------------------------------------------------

  /** A plaintext and the frame it was encrypted to. */
  datatype Seal = Seal(plaintext: Bytes, frame: Bytes)

  /** What was encrypted for `p` since it was last established. */
  function Sealed(io: seq<Io>, p: Id): seq<Seal> {
    if io == [] then []
    else
      var e := io[|io| - 1];
      if e == Established(p) then []
      else Sealed(io[..|io| - 1], p) + if e.Encrypted? && e.peer == p then [Seal(e.plaintext, e.frame)] else []
  }

  /** What was handed to the socket for `p` since it was last established. */
  function Sent(io: seq<Io>, p: Id): seq<Bytes> {
    if io == [] then []
    else
      var e := io[|io| - 1];
      if e == Established(p) then []
      else Sent(io[..|io| - 1], p) + if e.SentData? && e.dst == p then [e.frame] else []
  }

  lemma SealStep(io: seq<Io>, e: Io, p: Id)
    ensures e == Established(p) ==> Sealed(io + [e], p) == [] && Sent(io + [e], p) == []
    ensures e != Established(p) ==>
              && Sealed(io + [e], p)
                 == (if e.Encrypted? && e.peer == p then Sealed(io, p) + [Seal(e.plaintext, e.frame)] else Sealed(io, p))
              && Sent(io + [e], p) == (if e.SentData? && e.dst == p then Sent(io, p) + [e.frame] else Sent(io, p))
  {
    assert (io + [e])[..|io|] == io;
    assert Sealed(io, p) + [] == Sealed(io, p) && Sent(io, p) + [] == Sent(io, p);
  }

  function Frames(seals: seq<Seal>): (fs: seq<Bytes>)
    ensures |fs| == |seals|
  {
    seq(|seals|, i requires 0 <= i < |seals| => seals[i].frame)
  }

  function Seals(pt: Bytes, fs: seq<Bytes>): (r: seq<Seal>)
    ensures |r| == |fs|
  {
    seq(|fs|, i requires 0 <= i < |fs| => Seal(pt, fs[i]))
  }

  /** The k-th frame is the k-th plaintext encrypted under the peer's own handshake at position k, and the send
      nonce is their number. */
  ghost predicate InPosition(c: Crypto, q: Peer, seals: seq<Seal>) {
    && |seals| == q.sendNonce
    && forall k :: 0 <= k < |seals| ==> c.encrypt(q.msg1, q.ephemeral, k, seals[k].plaintext) == Some(seals[k].frame)
  }

  /** Everything encrypted for `p` is in position, and while the transport works all of it, in that order and
      nothing else, has been handed to the socket for `p`. */
  ghost predicate SealsRight(w: World, s: Session, p: Id) {
    p in s.peers ==>
      && InPosition(w.crypto, s.peers[p], Sealed(s.io, p))
      && (!s.transportFailed ==> Sent(s.io, p) == Frames(Sealed(s.io, p)))
  }

  lemma OneMore(c: Crypto, q: Peer, seals: seq<Seal>, pt: Bytes, frame: Bytes)
    requires InPosition(c, q, seals) && c.encrypt(q.msg1, q.ephemeral, q.sendNonce, pt) == Some(frame)
    ensures InPosition(c, Delivery.Advanced(q), seals + [Seal(pt, frame)])
    ensures Frames(seals + [Seal(pt, frame)]) == Frames(seals) + [frame]
  {}

  lemma SendSeals(w: World, s: Session, peer: Id, pt: Bytes, p: Id)
    requires SealsRight(w, s, p)
    ensures SealsRight(w, SendTo(w, s, peer, pt).0, p)
  {
    hide Sealed, Sent, InPosition, Frames;
    SealStep(s.io, EncryptFailed(peer), p);
    var frame := Frame1(w, s, peer, pt);
    if frame.Some? && !s.transportFailed {
      var io := s.io + [Encrypted(peer, pt, frame.value)];
      SealStep(s.io, Encrypted(peer, pt, frame.value), p);
      SealStep(io, SentData(peer, frame.value, w.net(|io|)), p);
      if p == peer { OneMore(w.crypto, s.peers[p], Sealed(s.io, p), pt, frame.value); }
    }
  }

  lemma BootstrapSeals(w: World, s: Session, src: Id, msg1: Bytes, ephemeral: Bytes, p: Id)
    requires SealsRight(w, s, p)
    ensures SealsRight(w, BootstrapPeer(w, s, src, msg1, ephemeral).0, p)
  {
    hide Sealed, Sent, Frames;
    var sent := SentReply(src, Reply(w, msg1, ephemeral), w.net(|s.io|));
    SealStep(s.io, sent, p);
    SealStep(s.io + [sent], Established(src), p);
    BootstrapShape(w, s, src, msg1, ephemeral);
    assert Frames([]) == [];
  }

  lemma NextSeals(w: World, s: Session, recv: Recv, p: Id)
    requires SealsRight(w, s, p)
    ensures SealsRight(w, ProcessNext(w, s, recv).0, p)
  {
    hide Sealed, Sent, Frames, InPosition;
    SealStep(s.io, SocketRead, p);
    var t := s.Did(SocketRead);
    assert SealsRight(w, t, p);
    if recv.Got? && recv.frame.Env? && !s.transportFailed {
      EnvSeals(w, t, recv.frame.payload, recv.frame.src, recv.frame.ephemeral, p);
    }
  }

  lemma EnvSeals(w: World, s: Session, payload: string, src: Option<Id>, ephemeral: Bytes, p: Id)
    requires SealsRight(w, s, p)
    ensures SealsRight(w, ProcessEnv(w, s, payload, src, ephemeral).0, p)
  {
    hide Sealed, Sent, Frames;
    if src.Some? && src.value !in s.peers && w.crypto.decode(payload).Some? {
      hide InPosition;
      BootstrapSeals(w, s, src.value, w.crypto.decode(payload).value, ephemeral, p);
    }
  }

  /** Frames queued for `p`. */
  function FramesTo(outbound: seq<Out>, p: Id): seq<Bytes> {
    if outbound == [] then []
    else (if outbound[0].peer == p then [outbound[0].frame] else []) + FramesTo(outbound[1..], p)
  }

  lemma {:induction false} FramesToJoin(a: seq<Out>, b: seq<Out>, p: Id)
    ensures FramesTo(a + b, p) == FramesTo(a, p) + FramesTo(b, p)
  {
    if a == [] {
      assert a + b == b;
    } else {
      FramesToJoin(a[1..], b, p);
      assert (a + b)[0] == a[0] && (a + b)[1..] == a[1..] + b;
      var first, more, rest := if a[0].peer == p then [a[0].frame] else [], FramesTo(a[1..], p), FramesTo(b, p);
      assert FramesTo(a + b, p) == first + FramesTo(a[1..] + b, p) && FramesTo(a, p) == first + more;
      hide FramesTo;
      assert first + (more + rest) == first + more + rest;
    }
  }

  lemma FramesToOne(next: Out, p: Id)
    ensures FramesTo([next], p) == if next.peer == p then [next.frame] else []
  {
    assert [next][1..] == [] && FramesTo([], p) == [];
  }

  /** What phase 1 leaves for `p`: nothing changed, or one more frame in position. */
  ghost predicate Queues(w: World, s: Session, pt: Bytes, r: Fanout, p: Id)
    requires p in s.peers
  {
    var q, fs := s.peers[p], FramesTo(r.outbound, p);
    && p in r.session.peers && |fs| <= 1 && r.session.transportFailed == s.transportFailed
    && Sent(r.session.io, p) == Sent(s.io, p)
    && (fs == [] ==> r.session.peers[p] == q && Sealed(r.session.io, p) == Sealed(s.io, p))
    && (fs != [] ==> && r.session.peers[p] == Delivery.Advanced(q)
                     && w.crypto.encrypt(q.msg1, q.ephemeral, q.sendNonce, pt) == Some(fs[0])
                     && Sealed(r.session.io, p) == Sealed(s.io, p) + [Seal(pt, fs[0])])
  }

  lemma EncryptOneSeals(w: World, s: Session, pt: Bytes, recipient: Id -> bool, peer: Id, p: Id)
    requires p in s.peers
    ensures var r := EncryptOne(w, s, pt, recipient, peer);
            Queues(w, s, pt, r, p) && (peer != p ==> FramesTo(r.outbound, p) == [])
  {
    hide Sealed, Sent;
    SealStep(s.io, EncryptFailed(peer), p);
    var frame := Frame1(w, s, peer, pt);
    if frame.Some? {
      SealStep(s.io, Encrypted(peer, pt, frame.value), p);
      FramesToOne(Out(peer, frame.value), p);
    }
  }

  lemma {:induction false} EncryptAllSeals(w: World, s: Session, pt: Bytes, recipient: Id -> bool, order: seq<Id>, p: Id)
    requires p in s.peers && Distinct(order)
    ensures var r := EncryptAll(w, s, pt, recipient, order);
            Queues(w, s, pt, r, p) && (p !in order ==> FramesTo(r.outbound, p) == [])
    decreases order
  {
    hide Sealed, Sent, EncryptOne;
    if order != [] {
      assert order[0] !in order[1..];
      EncryptOneSeals(w, s, pt, recipient, order[0], p);
      var one := EncryptOne(w, s, pt, recipient, order[0]);
      EncryptAllSeals(w, one.session, pt, recipient, order[1..], p);
      var rest := EncryptAll(w, one.session, pt, recipient, order[1..]);
      FramesToJoin(one.outbound, rest.outbound, p);
      hide EncryptAll;
    }
  }

  lemma {:induction false} SendAllSeals(w: World, s: Session, outbound: seq<Out>, p: Id)
    ensures var t := SendAll(w, s, outbound).0;
            && t.peers == s.peers && Sealed(t.io, p) == Sealed(s.io, p)
            && (!t.transportFailed ==> !s.transportFailed && Sent(t.io, p) == Sent(s.io, p) + FramesTo(outbound, p))
    decreases outbound
  {
    hide Sealed, Sent;
    if outbound != [] {
      var next := outbound[0];
      SealStep(s.io, SentData(next.peer, next.frame, w.net(|s.io|)), p);
      var t := SendFrame(w, s, false, next.peer, next.frame).0;
      SendAllSeals(w, t, outbound[1..], p);
      FramesToOne(next, p);
      if t.transportFailed { SendAllLatched(w, t, outbound[1..]); }
      assert Sent(s.io, p) + (FramesTo([next], p) + FramesTo(outbound[1..], p))
          == Sent(s.io, p) + FramesTo([next], p) + FramesTo(outbound[1..], p);
    }
  }

  lemma FanOutSeals(w: World, s: Session, pt: Bytes, recipient: Id -> bool, order: seq<Id>, p: Id)
    requires SealsRight(w, s, p) && WalksPeers(order, s.peers)
    ensures SealsRight(w, Broadcast(w, s, pt, recipient, order).0, p)
  {
    hide Sealed, Sent, EncryptAll, SendAll, InPosition, Frames, FramesTo;
    if !s.transportFailed {
      var enc := EncryptAll(w, s, pt, recipient, order);
      SendAllSeals(w, enc.session, enc.outbound, p);
      EncryptAllSpends(w, s, pt, recipient, order, p);
      if p in s.peers {
        EncryptAllSeals(w, s, pt, recipient, order, p);
        var fs := FramesTo(enc.outbound, p);
        if fs != [] { OneMore(w.crypto, s.peers[p], Sealed(s.io, p), pt, fs[0]); }
      }
    }
  }

  lemma {:induction false} RunSeals(w: World, s: Session, ops: seq<Op>, p: Id)
    requires SealsRight(w, s, p)
    ensures SealsRight(w, Run(w, s, ops), p)
    decreases ops
  {
    if ops != [] {
      StepSeals(w, s, ops[0], p);
      hide SealsRight, Step;
      RunSeals(w, Step(w, s, ops[0]), ops[1..], p);
    }
  }

  lemma StepSeals(w: World, s: Session, op: Op, p: Id)
    requires SealsRight(w, s, p)
    ensures SealsRight(w, Step(w, s, op), p)
  {
    match op {
      case Next(recv) => hide SealsRight, ProcessNext; NextSeals(w, s, recv, p);
      case Send(peer, pt) => hide SealsRight, SendTo; SendSeals(w, s, peer, pt, p);
      case FanOut(pt, recipient, order) =>
        hide SealsRight, Broadcast;
        if WalksPeers(order, s.peers) { FanOutSeals(w, s, pt, recipient, order, p); }
      case Replace(_) => hide Sealed, Sent, InPosition;
    }
  }

  /** In every run from a new session: the frames sent to an established peer are, in order, its plaintexts encrypted
      under its own handshake at positions 0, 1, 2 and so on. No frame of one peer ever reaches another, and no
      position is used twice. */
  lemma EveryFrameIsInPosition(w: World, allowed: set<Id>, ops: seq<Op>, p: Id)
    requires p in Run(w, New(allowed), ops).peers
    ensures var s := Run(w, New(allowed), ops);
            && InPosition(w.crypto, s.peers[p], Sealed(s.io, p))
            && (!s.transportFailed ==> Sent(s.io, p) == Frames(Sealed(s.io, p)))
  {
    RunSeals(w, New(allowed), ops, p);
  }

  // ----- What the session answers ------------------------------------------

  /** A send succeeds exactly when the socket accepted its frame; a peer is never dropped for a failed send. */
  lemma SendAnswersRight(w: World, s: Session, peer: Id, pt: Bytes)
    ensures var (t, r) := SendTo(w, s, peer, pt);
            && (r.Ok? <==> Delivery.AcceptedTo(t.io, peer) == Delivery.AcceptedTo(s.io, peer) + 1)
            && (!r.Ok? <==> Delivery.AcceptedTo(t.io, peer) == Delivery.AcceptedTo(s.io, peer))
            && (r == Err(RelayTransportFailed) <==> s.transportFailed)
            && (r == Err(UnknownPeer) <==> !s.transportFailed && peer !in s.peers)
            && (r == Err(CipherFailed) <==> !s.transportFailed && peer in s.peers && Frame1(w, s, peer, pt).None?)
            && t.peers.Keys == s.peers.Keys
  {
    hide Delivery.AcceptedTo;
    Delivery.AcceptedStep(s.io, EncryptFailed(peer), peer);
    var frame := Frame1(w, s, peer, pt);
    if frame.Some? && !s.transportFailed {
      var io := s.io + [Encrypted(peer, pt, frame.value)];
      Delivery.AcceptedStep(s.io, Encrypted(peer, pt, frame.value), peer);
      Delivery.AcceptedStep(io, SentData(peer, frame.value, w.net(|io|)), peer);
    }
  }

  /** A handshake from `src` that the identity proof and the reply stand behind. */
  ghost predicate Provable(w: World, src: Id, msg1: Bytes, ephemeral: Bytes) {
    && w.crypto.readMsg1(msg1).Some?
    && w.crypto.proof(w.crypto.readMsg1(msg1).value.payload, w.crypto.readMsg1(msg1).value.remoteStatic) == Ok(src)
    && w.crypto.writeMsg2(msg1, ephemeral).Some?
  }

  /** An unknown peer: refused unlisted, refused as the ninth, or established exactly when its proven handshake was
      answered; before the proof nothing is sent, and a refusal leaves no peer behind. */
  lemma AdmissionAnswersRight(w: World, s: Session, payload: string, src: Id, ephemeral: Bytes)
    requires src !in s.peers && !s.transportFailed
    ensures var (t, r) := ProcessEnv(w, s, payload, Some(src), ephemeral);
            && (r == PeerRefused(src, NotAllowListed) <==> src !in s.allowed)
            && (r == PeerRefused(src, AtCapacity) <==> src in s.allowed && |s.peers| >= 8)
            && (r.PeerEstablished? <==>
                  && src in s.allowed && |s.peers| < 8 && w.crypto.decode(payload).Some?
                  && Provable(w, src, w.crypto.decode(payload).value, ephemeral)
                  && w.net(|s.io|) == Accepted && w.crypto.intoTransport(w.crypto.decode(payload).value, ephemeral))
            && (r.PeerEstablished? || (r.PeerRefused? && t.peers == s.peers))
            && (t.io != s.io ==> w.crypto.decode(payload).Some? && Provable(w, src, w.crypto.decode(payload).value, ephemeral))
  {}

  /** Why a listed peer with room was refused, when it was for its proof. */
  lemma RefusalNamesProof(w: World, s: Session, payload: string, src: Id, ephemeral: Bytes)
    requires src !in s.peers && src in s.allowed && |s.peers| < 8 && w.crypto.decode(payload).Some?
    requires w.crypto.readMsg1(w.crypto.decode(payload).value).Some?
    ensures var m := w.crypto.readMsg1(w.crypto.decode(payload).value).value;
            var proof, r := w.crypto.proof(m.payload, m.remoteStatic), ProcessEnv(w, s, payload, Some(src), ephemeral).1;
            && (r == PeerRefused(src, IdentityProofMissing) <==> proof == Err(ProofMissing))
            && (r == PeerRefused(src, IdentityProofInvalid) <==> proof == Err(ProofBad))
            && (r == PeerRefused(src, IdentityMismatch) <==> proof.Ok? && proof.value != src)
  {}

  /** A presence notice removes exactly the peer it reports as down; every other notice changes nothing. */
  lemma PresenceAnswersRight(w: World, s: Session, peer: Id, state: string)
    requires !s.transportFailed
    ensures var (t, r) := ProcessNext(w, s, Got(Presence(peer, state)));
            if state == "down" && peer in s.peers then r == Ok(PeerDown(peer)) && t.peers == s.peers - {peer}
            else r == Ok(Idle) && t.peers == s.peers
  {}

  /** Everything else on a working socket: errors end the poll with their cause and touch no peer. */
  lemma OtherPollsAnswerRight(w: World, s: Session, recv: Recv)
    requires !s.transportFailed && !(recv.Got? && (recv.frame.Env? || recv.frame.Presence?))
    ensures var (t, r) := ProcessNext(w, s, recv);
            && t == s.Did(SocketRead)
            && (r == Ok(Quiet) <==> recv.NoFrame?) && (r == Ok(Closed) <==> recv.SocketClosed?)
            && (r == Err(RecvFailed) <==> recv.RecvError?) && (r == Err(BadFrame) <==> recv.Unparsable?)
            && (r == Err(Terminal) <==> recv.Got? && recv.frame == ErrorFrame(true))
            && (r == Err(UnexpectedClose) <==> recv.Got? && recv.frame.Bye?)
            && (r == Err(UnexpectedFrame) <==> recv.Got? && (recv.frame.Hello? || recv.frame.Auth?))
            && (r == Ok(Idle) <==> recv.Got? && (recv.frame.Ready? || recv.frame == ErrorFrame(false)))
  {}
}

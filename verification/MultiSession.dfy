/** Many independent Noise sessions over one relay socket: demultiplexing, admission, eviction, fan-out
    and the transport-failure latch. Noise, base64 and the identity proof are given functions. */
module MultiSession {
  import opened Prelude

  const MAX_PEERS: nat := 8

  type Id = string
  type Bytes = seq<int>

  datatype ProofError = ProofMissing | ProofBad

  /** What msg1 yields: the decrypted payload and the static key the handshake authenticated. */
  datatype Msg1 = Msg1(payload: Bytes, remoteStatic: Bytes)

  /** The given cryptography. `keys` names the transport a handshake ends in: the message read and the
      ephemeral drawn for it; each direction of a transport is then driven by its own counter. */
  datatype Crypto = Crypto(
    decode: string -> Option<Bytes>,
    readMsg1: Bytes -> Option<Msg1>,
    proof: (Bytes, Bytes) -> Result<Id, ProofError>,
    writeMsg2: (Bytes, Bytes) -> Option<Bytes>,
    handshakeHash: (Bytes, Bytes) -> Bytes,
    intoTransport: (Bytes, Bytes) -> bool,
    encrypt: (Bytes, Bytes, nat, Bytes) -> Option<Bytes>,
    decrypt: (Bytes, Bytes, nat, Bytes) -> Option<Bytes>)

  /** One peer's transport: its handshake, its two message counters and its channel binding. */
  datatype Peer = Peer(msg1: Bytes, ephemeral: Bytes, sendNonce: nat, recvNonce: nat, sessionId: Bytes)

  datatype SendOutcome = Accepted | TransportError | OtherError

  /** What the session did to the outside, in order. */
  datatype Io =
    | SocketRead
    | SentReply(dst: Id, frame: Bytes, outcome: SendOutcome)
    | Established(peer: Id)
    | Encrypted(peer: Id, plaintext: Bytes, frame: Bytes)
    | EncryptFailed(peer: Id)
    | SentData(dst: Id, frame: Bytes, outcome: SendOutcome)

  datatype RefuseReason =
    | NotAllowListed | AtCapacity | Handshake
    | IdentityProofMissing | IdentityProofInvalid | IdentityMismatch

  datatype Poll =
    | Plaintext(peer: Id, plaintext: Bytes)
    | PeerEstablished(peer: Id, sessionId: Bytes)
    | PeerRefused(peer: Id, reason: RefuseReason)
    | PeerDown(peer: Id)
    | Idle
    | Quiet
    | Closed

  datatype SessionError =
    | RelayTransportFailed | RecvFailed | BadFrame | UnexpectedClose | UnexpectedFrame
    | Terminal | UnknownPeer | CipherFailed | SendFailed

  datatype Frame =
    | Ready
    | Presence(peer: Id, state: string)
    | Env(payload: string, src: Option<Id>, ephemeral: Bytes)
    | ErrorFrame(terminal: bool)
    | Bye
    | Hello
    | Auth

  datatype Recv = RecvError | NoFrame | SocketClosed | Unparsable | Got(frame: Frame)

  datatype Session = Session(allowed: set<Id>, peers: map<Id, Peer>, transportFailed: bool, io: seq<Io>) {
    function Without(p: Id): Session { this.(peers := peers - {p}) }

    function Did(e: Io): Session { this.(io := io + [e]) }
  }

  /** The fixed surroundings: cryptography, and what the socket answers to the n-th thing done. */
  datatype World = World(crypto: Crypto, net: nat -> SendOutcome)

  // ----- Steps -------------------------------------------------------------

  /** The only send on the socket, and the only place the latch is set. */
  function SendFrame(w: World, s: Session, reply: bool, dst: Id, frame: Bytes): (Session, SendOutcome) {
    if s.transportFailed then (s, TransportError)
    else
      var o := w.net(|s.io|);
      var s' := s.Did(if reply then SentReply(dst, frame, o) else SentData(dst, frame, o));
      (if o == TransportError then s'.(transportFailed := true) else s', o)
  }

  function BootstrapPeer(w: World, s: Session, src: Id, msg1: Bytes, ephemeral: Bytes)
    : (Session, Result<Bytes, RefuseReason>)
  {
    var c := w.crypto;
    var m := c.readMsg1(msg1);
    if m.None? then (s, Err(Handshake))
    else
      match c.proof(m.value.payload, m.value.remoteStatic)
      case Err(ProofMissing) => (s, Err(IdentityProofMissing))
      case Err(ProofBad) => (s, Err(IdentityProofInvalid))
      case Ok(proven) =>
        if proven != src then (s, Err(IdentityMismatch))
        else if c.writeMsg2(msg1, ephemeral).None? then (s, Err(Handshake))
        else
          var (s', o) := SendFrame(w, s, true, proven, c.writeMsg2(msg1, ephemeral).value);
          if o != Accepted then (s', Err(Handshake))
          else
            var hash := c.handshakeHash(msg1, ephemeral);
            if !c.intoTransport(msg1, ephemeral) then (s', Err(Handshake))
            else
              (s'.(peers := s'.peers[proven := Peer(msg1, ephemeral, 0, 0, hash)]).Did(Established(proven)), Ok(hash))
  }

  function ProcessEnv(w: World, s: Session, payload: string, src: Option<Id>, ephemeral: Bytes): (Session, Poll) {
    var c := w.crypto;
    if src.None? then (s, Idle)
    else
      var peer := src.value;
      var decoded := c.decode(payload);
      if peer in s.peers then
        if decoded.None? then (s.Without(peer), PeerDown(peer))
        else
          var p := s.peers[peer];
          match c.decrypt(p.msg1, p.ephemeral, p.recvNonce, decoded.value)
          case Some(plaintext) =>
            (s.(peers := s.peers[peer := p.(recvNonce := p.recvNonce + 1)]), Plaintext(peer, plaintext))
          case None => (s.Without(peer), PeerDown(peer))
      else if peer !in s.allowed then (s, PeerRefused(peer, NotAllowListed))
      else if |s.peers| >= MAX_PEERS then (s, PeerRefused(peer, AtCapacity))
      else if decoded.None? then (s, PeerRefused(peer, Handshake))
      else
        match BootstrapPeer(w, s, peer, decoded.value, ephemeral)
        case (s', Ok(sessionId)) => (s', PeerEstablished(peer, sessionId))
        case (s', Err(reason)) => (s', PeerRefused(peer, reason))
  }

  function ProcessFrame(w: World, s: Session, f: Frame): (Session, Result<Poll, SessionError>) {
    match f
    case Ready => (s, Ok(Idle))
    case Presence(peer, state) =>
      if state == "down" && peer in s.peers then (s.Without(peer), Ok(PeerDown(peer))) else (s, Ok(Idle))
    case Env(payload, src, ephemeral) =>
      var (s', poll) := ProcessEnv(w, s, payload, src, ephemeral); (s', Ok(poll))
    case ErrorFrame(terminal) => (s, if terminal then Err(Terminal) else Ok(Idle))
    case Bye => (s, Err(UnexpectedClose))
    case Hello => (s, Err(UnexpectedFrame))
    case Auth => (s, Err(UnexpectedFrame))
  }

  function ProcessNext(w: World, s: Session, recv: Recv): (Session, Result<Poll, SessionError>) {
    if s.transportFailed then (s, Err(RelayTransportFailed))
    else
      var s' := s.Did(SocketRead);
      match recv
      case RecvError => (s', Err(RecvFailed))
      case NoFrame => (s', Ok(Quiet))
      case SocketClosed => (s', Ok(Closed))
      case Unparsable => (s', Err(BadFrame))
      case Got(f) => ProcessFrame(w, s', f)
  }

  function SendTo(w: World, s: Session, peer: Id, plaintext: Bytes): (Session, Result<(), SessionError>) {
    if s.transportFailed then (s, Err(RelayTransportFailed))
    else if peer !in s.peers then (s, Err(UnknownPeer))
    else
      var p := s.peers[peer];
      var frame := w.crypto.encrypt(p.msg1, p.ephemeral, p.sendNonce, plaintext);
      if frame.None? then (s.Did(EncryptFailed(peer)), Err(CipherFailed))
      else
        var (s', o) := SendFrame(w, Spend(s, peer, plaintext, frame.value), false, peer, frame.value);
        (s', if o == Accepted then Ok(()) else Err(SendFailed))
  }

  /** The peer's next send nonce is used up on a plaintext and its frame. */
  function Spend(s: Session, peer: Id, plaintext: Bytes, frame: Bytes): Session
    requires peer in s.peers
  {
    s.(peers := s.peers[peer := s.peers[peer].(sendNonce := s.peers[peer].sendNonce + 1)])
      .Did(Encrypted(peer, plaintext, frame))
  }

  /** What the first phase of a fan-out leaves: the state, the frames to send and the peers to drop. */
  datatype Fanout = Fanout(session: Session, outbound: seq<Out>, failed: set<Id>)

  /** A frame ready to be sent to one peer. */
  datatype Out = Out(peer: Id, frame: Bytes)

  /** Encrypt for one peer, if it is established and selected. */
  function EncryptOne(w: World, s: Session, plaintext: Bytes, recipient: Id -> bool, peer: Id): Fanout {
    if peer !in s.peers || !recipient(peer) then Fanout(s, [], {})
    else
      var p := s.peers[peer];
      var frame := w.crypto.encrypt(p.msg1, p.ephemeral, p.sendNonce, plaintext);
      if frame.Some? then Fanout(Spend(s, peer, plaintext, frame.value), [Out(peer, frame.value)], {})
      else Fanout(s.Did(EncryptFailed(peer)), [], {peer})
  }

  function EncryptAll(w: World, s: Session, plaintext: Bytes, recipient: Id -> bool, order: seq<Id>): Fanout
    decreases order
  {
    if order == [] then Fanout(s, [], {})
    else
      var one := EncryptOne(w, s, plaintext, recipient, order[0]);
      After(one.outbound, one.failed, EncryptAll(w, one.session, plaintext, recipient, order[1..]))
  }

  /** A fan-out with what was queued and refused before it. */
  function After(outbound: seq<Out>, failed: set<Id>, rest: Fanout): Fanout {
    Fanout(rest.session, outbound + rest.outbound, failed + rest.failed)
  }

  lemma AfterJoin(o1: seq<Out>, f1: set<Id>, o2: seq<Out>, f2: set<Id>, rest: Fanout)
    ensures After(o1, f1, After(o2, f2, rest)) == After(o1 + o2, f1 + f2, rest)
  {
    assert o1 + (o2 + rest.outbound) == (o1 + o2) + rest.outbound;
  }

  /** The second phase: the state, the peers whose frame was not accepted, and the count that was. */
  function SendAll(w: World, s: Session, outbound: seq<Out>): (Session, set<Id>, nat)
    decreases outbound
  {
    if outbound == [] then (s, {}, 0)
    else
      var (s', o) := SendFrame(w, s, false, outbound[0].peer, outbound[0].frame);
      var (s'', failed, sent) := SendAll(w, s', outbound[1..]);
      if o == Accepted then (s'', failed, sent + 1) else (s'', failed + {outbound[0].peer}, sent)
  }

  /** `order` is the order in which the peer map happens to be walked. */
  predicate WalksPeers(order: seq<Id>, peers: map<Id, Peer>) {
    && (forall i, j :: 0 <= i < j < |order| ==> order[i] != order[j])
    && (forall p | p in order :: p in peers) && (forall p | p in peers :: p in order)
  }

  function Broadcast(w: World, s: Session, plaintext: Bytes, recipient: Id -> bool, order: seq<Id>): (Session, nat) {
    if s.transportFailed then (s, 0)
    else
      var enc := EncryptAll(w, s, plaintext, recipient, order);
      var (s', failed, sent) := SendAll(w, enc.session, enc.outbound);
      (s'.(peers := s'.peers - enc.failed - failed), sent)
  }

  /** The order of key ids: character by character, a prefix first. */
  predicate Less(a: Id, b: Id) {
    b != [] && (a == [] || a[0] < b[0] || (a[0] == b[0] && Less(a[1..], b[1..])))
  }

  /** Each id before the next. */
  predicate Sorted(ids: seq<Id>) { |ids| <= 1 || (Less(ids[0], ids[1]) && Sorted(ids[1..])) }

  function Insert(ids: seq<Id>, p: Id): seq<Id> {
    if ids == [] || Less(p, ids[0]) then [p] + ids else [ids[0]] + Insert(ids[1..], p)
  }

  lemma {:induction false} LessTotal(a: Id, b: Id)
    ensures a == b || Less(a, b) || Less(b, a)
  {
    if a != [] && b != [] && a[0] == b[0] {
      LessTotal(a[1..], b[1..]);
      if a[1..] == b[1..] { assert a == [a[0]] + a[1..] && b == [b[0]] + b[1..]; }
    }
  }

  /** `a` comes before `b` exactly when, after their longest common beginning, `a` ends first or has the smaller
      character. */
  lemma {:induction false} LessExactlyWhen(a: Id, b: Id)
    ensures Less(a, b) <==>
              exists k :: 0 <= k <= |a| && k < |b| && a[..k] == b[..k] && (k == |a| || a[k] < b[k])
  {
    if a != [] && b != [] && a[0] == b[0] {
      LessExactlyWhen(a[1..], b[1..]);
      if Less(a, b) {
        var k :| 0 <= k <= |a[1..]| && k < |b[1..]| && a[1..][..k] == b[1..][..k] && (k == |a[1..]| || a[1..][k] < b[1..][k]);
        assert a[..k + 1] == [a[0]] + a[1..][..k] && b[..k + 1] == [b[0]] + b[1..][..k];
      }
      if k :| 0 <= k <= |a| && k < |b| && a[..k] == b[..k] && (k == |a| || a[k] < b[k]) {
        assert k > 0;
        assert a[1..][..k - 1] == a[..k][1..] && b[1..][..k - 1] == b[..k][1..];
        assert a[1..][..k - 1] == b[1..][..k - 1];
      }
    } else if Less(a, b) {
      assert a[..0] == b[..0];
    } else if a != [] && b != [] {
      forall k | 0 < k <= |a| && k < |b| ensures a[..k] != b[..k] {
        assert a[..k][0] == a[0] && b[..k][0] == b[0];
      }
    }
  }

  lemma {:induction false} InsertSorted(ids: seq<Id>, p: Id)
    requires Sorted(ids) && p !in ids
    ensures Sorted(Insert(ids, p)) && (forall q :: q in Insert(ids, p) <==> q == p || q in ids)
    ensures Insert(ids, p) != [] && (Insert(ids, p)[0] == p || (ids != [] && Insert(ids, p)[0] == ids[0]))
  {
    if ids != [] && !Less(p, ids[0]) {
      LessTotal(p, ids[0]);
      InsertSorted(ids[1..], p);
      var rest := Insert(ids[1..], p);
      assert Insert(ids, p)[1..] == rest;
      assert forall q :: q in ids <==> q == ids[0] || q in ids[1..];
    } else {
      assert ([p] + ids)[1..] == ids;
    }
  }

  method InOrder(ids: set<Id>) returns (r: seq<Id>)
    ensures Sorted(r) && forall p :: p in r <==> p in ids
  {
    r := [];
    var left := ids;
    while left != {}
      invariant Sorted(r) && left <= ids && forall p :: p in r <==> p in ids && p !in left
      decreases |left|
    {
      var p :| p in left;
      InsertSorted(r, p);
      r, left := Insert(r, p), left - {p};
    }
  }

  function Evicted(s: Session, allowed: set<Id>): set<Id> { set p | p in s.peers && p !in allowed }

  function ReplaceAllowed(s: Session, allowed: set<Id>): Session {
    s.(peers := s.peers - Evicted(s, allowed), allowed := allowed)
  }

  // ----- Runs --------------------------------------------------------------

  datatype Op =
    | Next(recv: Recv)
    | Send(peer: Id, plaintext: Bytes)
    | FanOut(message: Bytes, recipient: Id -> bool, order: seq<Id>)
    | Replace(allowed: set<Id>)

  /** A fan-out whose `order` does not walk the current peers is no step at all. */
  function Step(w: World, s: Session, op: Op): Session {
    match op
    case Next(recv) => ProcessNext(w, s, recv).0
    case Send(peer, plaintext) => SendTo(w, s, peer, plaintext).0
    case FanOut(plaintext, recipient, order) =>
      if WalksPeers(order, s.peers) then Broadcast(w, s, plaintext, recipient, order).0 else s
    case Replace(allowed) => ReplaceAllowed(s, allowed)
  }

  function Run(w: World, s: Session, ops: seq<Op>): Session
    decreases ops
  {
    if ops == [] then s else Run(w, Step(w, s, ops[0]), ops[1..])
  }

  function New(allowed: set<Id>): Session { Session(allowed, map[], false, []) }

  // ----- The session object ------------------------------------------------

  class MultiPeerSession {
    const world: World
    var allowed: set<Id>
    var peers: map<Id, Peer>
    var transportFailed: bool
    var io: seq<Io>

    function View(): Session
      reads this
    {
      Session(allowed, peers, transportFailed, io)
    }

    constructor (w: World, admit: set<Id>)
      ensures world == w && View() == New(admit)
    {
      world := w;
      allowed := admit;
      peers := map[];
      transportFailed := false;
      io := [];
    }

    method TransmitFrame(reply: bool, dst: Id, frame: Bytes) returns (o: SendOutcome)
      modifies this
      ensures (View(), o) == SendFrame(world, old(View()), reply, dst, frame)
    {
      if transportFailed { return TransportError; }
      o := world.net(|io|);
      io := io + [if reply then SentReply(dst, frame, o) else SentData(dst, frame, o)];
      if o == TransportError { transportFailed := true; }
    }

    method Bootstrap(src: Id, msg1: Bytes, ephemeral: Bytes) returns (r: Result<Bytes, RefuseReason>)
      modifies this
      ensures (View(), r) == BootstrapPeer(world, old(View()), src, msg1, ephemeral)
    {
      var m := world.crypto.readMsg1(msg1);
      if m.None? { return Err(Handshake); }
      var proof := world.crypto.proof(m.value.payload, m.value.remoteStatic);
      if proof.Err? {
        return Err(if proof.error == ProofMissing then IdentityProofMissing else IdentityProofInvalid);
      }
      var proven := proof.value;
      if proven != src { return Err(IdentityMismatch); }
      var msg2 := world.crypto.writeMsg2(msg1, ephemeral);
      if msg2.None? { return Err(Handshake); }
      var o := TransmitFrame(true, proven, msg2.value);
      if o != Accepted { return Err(Handshake); }
      var hash := world.crypto.handshakeHash(msg1, ephemeral);
      if !world.crypto.intoTransport(msg1, ephemeral) { return Err(Handshake); }
      peers := peers[proven := Peer(msg1, ephemeral, 0, 0, hash)];
      io := io + [Established(proven)];
      return Ok(hash);
    }

    method Demux(payload: string, src: Option<Id>, ephemeral: Bytes) returns (poll: Poll)
      modifies this
      ensures (View(), poll) == ProcessEnv(world, old(View()), payload, src, ephemeral)
    {
      if src.None? { return Idle; }
      var peer := src.value;
      if peer in peers {
        var ct := world.crypto.decode(payload);
        if ct.None? {
          peers := peers - {peer};
          return PeerDown(peer);
        }
        var p := peers[peer];
        var pt := world.crypto.decrypt(p.msg1, p.ephemeral, p.recvNonce, ct.value);
        if pt.None? {
          peers := peers - {peer};
          return PeerDown(peer);
        }
        peers := peers[peer := p.(recvNonce := p.recvNonce + 1)];
        return Plaintext(peer, pt.value);
      }
      if peer !in allowed { return PeerRefused(peer, NotAllowListed); }
      if |peers| >= MAX_PEERS { return PeerRefused(peer, AtCapacity); }
      var msg1 := world.crypto.decode(payload);
      if msg1.None? { return PeerRefused(peer, Handshake); }
      var r := Bootstrap(peer, msg1.value, ephemeral);
      return if r.Ok? then PeerEstablished(peer, r.value) else PeerRefused(peer, r.error);
    }

    method PollNext(recv: Recv) returns (r: Result<Poll, SessionError>)
      modifies this
      ensures (View(), r) == ProcessNext(world, old(View()), recv)
    {
      if transportFailed { return Err(RelayTransportFailed); }
      io := io + [SocketRead];
      match recv {
        case RecvError => return Err(RecvFailed);
        case NoFrame => return Ok(Quiet);
        case SocketClosed => return Ok(Closed);
        case Unparsable => return Err(BadFrame);
        case Got(f) =>
          match f {
            case Ready => return Ok(Idle);
            case Presence(peer, state) =>
              if state == "down" && peer in peers {
                peers := peers - {peer};
                return Ok(PeerDown(peer));
              }
              return Ok(Idle);
            case Env(payload, src, ephemeral) =>
              var poll := Demux(payload, src, ephemeral);
              return Ok(poll);
            case ErrorFrame(terminal) => return if terminal then Err(Terminal) else Ok(Idle);
            case Bye => return Err(UnexpectedClose);
            case Hello => return Err(UnexpectedFrame);
            case Auth => return Err(UnexpectedFrame);
          }
      }
    }

    method SendPlaintext(peer: Id, plaintext: Bytes) returns (r: Result<(), SessionError>)
      modifies this
      ensures (View(), r) == SendTo(world, old(View()), peer, plaintext)
    {
      if transportFailed { return Err(RelayTransportFailed); }
      if peer !in peers { return Err(UnknownPeer); }
      var p := peers[peer];
      var ct := world.crypto.encrypt(p.msg1, p.ephemeral, p.sendNonce, plaintext);
      if ct.None? {
        io := io + [EncryptFailed(peer)];
        return Err(CipherFailed);
      }
      peers := peers[peer := p.(sendNonce := p.sendNonce + 1)];
      io := io + [Encrypted(peer, plaintext, ct.value)];
      var o := TransmitFrame(false, peer, ct.value);
      return if o == Accepted then Ok(()) else Err(SendFailed);
    }

    /** Encrypt for one selected peer, under its own transport. */
    method EncryptFor(peer: Id, plaintext: Bytes, recipient: Id -> bool) returns (outbound: seq<Out>, failed: set<Id>)
      modifies this
      ensures Fanout(View(), outbound, failed) == EncryptOne(world, old(View()), plaintext, recipient, peer)
    {
      outbound, failed := [], {};
      if peer in peers && recipient(peer) {
        var p := peers[peer];
        var ct := world.crypto.encrypt(p.msg1, p.ephemeral, p.sendNonce, plaintext);
        if ct.Some? {
          peers := peers[peer := p.(sendNonce := p.sendNonce + 1)];
          io := io + [Encrypted(peer, plaintext, ct.value)];
          outbound := [Out(peer, ct.value)];
        } else {
          io := io + [EncryptFailed(peer)];
          failed := {peer};
        }
      }
    }

    /** Phase 1 of a fan-out: encrypt per selected peer. */
    method EncryptPhase(plaintext: Bytes, recipient: Id -> bool, order: seq<Id>)
      returns (outbound: seq<Out>, failed: set<Id>)
      modifies this
      ensures Fanout(View(), outbound, failed) == EncryptAll(world, old(View()), plaintext, recipient, order)
    {
      outbound, failed := [], {};
      ghost var all := EncryptAll(world, View(), plaintext, recipient, order);
      assert order[0..] == order;
      for i := 0 to |order|
        invariant all == After(outbound, failed, EncryptAll(world, View(), plaintext, recipient, order[i..]))
      {
        assert order[i..][0] == order[i] && order[i..][1..] == order[i + 1..];
        var queued, refused := EncryptFor(order[i], plaintext, recipient);
        AfterJoin(outbound, failed, queued, refused, EncryptAll(world, View(), plaintext, recipient, order[i + 1..]));
        outbound, failed := outbound + queued, failed + refused;
      }
    }

    /** Phase 2: send what was encrypted; after a transport error the rest fails without the socket. */
    method SendPhase(outbound: seq<Out>) returns (unsent: set<Id>, sent: nat)
      modifies this
      ensures (View(), unsent, sent) == SendAll(world, old(View()), outbound)
    {
      unsent, sent := {}, 0;
      ghost var all := SendAll(world, View(), outbound);
      assert outbound[0..] == outbound;
      for i := 0 to |outbound|
        invariant var r := SendAll(world, View(), outbound[i..]);
                  all.0 == r.0 && all.1 == unsent + r.1 && all.2 == sent + r.2
      {
        assert outbound[i..][0] == outbound[i] && outbound[i..][1..] == outbound[i + 1..];
        var o := TransmitFrame(false, outbound[i].peer, outbound[i].frame);
        if o == Accepted { sent := sent + 1; } else { unsent := unsent + {outbound[i].peer}; }
      }
    }

    method BroadcastTo(plaintext: Bytes, recipient: Id -> bool, order: seq<Id>) returns (sent: nat)
      requires WalksPeers(order, peers)
      modifies this
      ensures (View(), sent) == Broadcast(world, old(View()), plaintext, recipient, order)
    {
      if transportFailed { return 0; }
      var outbound, failed := EncryptPhase(plaintext, recipient, order);
      var unsent;
      unsent, sent := SendPhase(outbound);
      peers := peers - failed - unsent;
    }

    /** Replace the admission set and drop the peers it no longer contains; their ids, sorted. */
    method ReplaceAdmission(admit: set<Id>) returns (evicted: seq<Id>)
      modifies this
      ensures View() == ReplaceAllowed(old(View()), admit)
      ensures Sorted(evicted) && forall p :: p in evicted <==> p in Evicted(old(View()), admit)
    {
      var gone := set p | p in peers && p !in admit;
      peers := peers - gone;
      allowed := admit;
      evicted := InOrder(gone);
    }
  }
}

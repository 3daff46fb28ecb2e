/**
 Two honest peers with an encrypted session over the reliable stream that Lossless UDP provides:
 what one end writes to the stream the other reads in order, without loss or repetition
 (`LosslessTheorems.ReliableDelivery`).
 */
module CryptoSystem {
  import opened Bytes
  import opened Wrappers
  import opened Nonce
  import opened CryptoSession

  /**
   One peer with everything it has written to its stream (`log`), the number of packets it has read
   from the other's, and the history of messages and of the random values it drew.
   */
  datatype Peer = Peer(
    secret: Key,
    session: Session,
    log: seq<Text>,
    read: nat,
    sentMsgs: seq<Text>,
    readMsgs: seq<Text>,
    base: Nonce24,
    handshakeNonce: Nonce24,
    killed: bool)

  datatype System = System(x: Peer, y: Peer)

  datatype Event =
    | Connect(base: Nonce24, session: Key, nonce: Nonce24)
    | Accept(base: Nonce24, session: Key, nonce: Nonce24)
    | Poll
    | Send(msg: Text, room: bool)
    | Recv

  /**
   Each peer opens the session once, by connecting or by accepting. A stream refuses a packet only
   when 15 packets are waiting in it.
   */
  predicate Enabled(p: Peer, q: Peer, ev: Event) {
    match ev
    case Connect(_, _, _) => p.session.status == 0 && !p.killed
    case Accept(_, _, _) => p.session.status == 0 && !p.killed && p.read < |q.log|
    case Poll => p.session.status in {1, 2} && p.read < |q.log|
    case Send(_, room) => |p.log| < 15 ==> room
    case Recv => p.session.status == 3 && p.read < |q.log|
  }

  function Act(box: Box, p: Peer, q: Peer, ev: Event): Peer
    requires Enabled(p, q, ev)
    requires forall i :: 0 <= i < |q.log| ==> q.log[i] != []
  {
    match ev
    case Connect(base, session, nonce) =>
      var (s, packet) := CryptoConnect(box, p.secret, box.publicOf(q.secret), base, session, nonce);
      p.(session := s, log := p.log + [packet], base := base, handshakeNonce := nonce)
    case Accept(base, session, nonce) =>
      var hello := HandleCryptoHandshake(box, p.secret, q.log[p.read]);
      if hello.None? then p.(read := p.read + 1)
      else
        var (s, packets) := AcceptCryptoInbound(box, p.secret, hello.value, base, session, nonce);
        p.(session := s, read := p.read + 1, log := p.log + packets, base := base, handshakeNonce := nonce)
    case Poll =>
      var r := ReceiveCrypto(box, p.secret, p.session, q.log[p.read]);
      p.(session := r.session, read := p.read + 1, log := p.log + r.reply, killed := r.killed)
    case Send(msg, room) =>
      if !CanWrite(p.session, msg) || !room then p
      else
        var (s, packet) := WriteCryptPacket(box, p.session, msg);
        p.(session := s, log := p.log + [packet], sentMsgs := p.sentMsgs + [msg])
    case Recv =>
      var (s, msg) := ReadCryptPacket(box, p.session, q.log[p.read]);
      p.(session := s, read := p.read + 1, readMsgs := if msg.Some? then p.readMsgs + [msg.value] else p.readMsgs)
  }

  // ---------- the invariant, one direction at a time ----------

  function SharedKey(box: Box, w: Peer, r: Peer): Key {
    box.beforenm(box.publicOf(r.session.sessionSecret), w.session.sessionSecret)
  }

  /** The message under the j-th data packet: the confirmation comes first. */
  function Message(w: Peer, j: nat): Text
    requires j <= |w.sentMsgs|
  {
    if j == 0 then ZERO else w.sentMsgs[j - 1]
  }

  /** The nonce of the j-th data packet that r receives. */
  function NonceAt(r: Peer, j: nat): Nonce24 {
    IncBy(Inc(r.base), j)
  }

  ghost predicate LogInv(box: Box, w: Peer, r: Peer) {
    && (w.session.status == 0 ==> w.log == [] && w.sentMsgs == [])
    && (w.session.status > 0 ==>
          && |w.log| > 0
          && w.log[0] == HandshakePacket(box, w.secret, box.publicOf(r.secret), w.handshakeNonce, w.base,
                                         box.publicOf(w.session.sessionSecret)))
    && (w.session.status == 1 ==> |w.log| == 1 && w.sentMsgs == [])
    && (w.session.status >= 2 ==>
          && |w.log| == 2 + |w.sentMsgs|
          && (forall j :: 0 <= j <= |w.sentMsgs| ==>
                     w.log[j + 1] == DataPacket(box, SharedKey(box, w, r), NonceAt(r, j), Message(w, j))))
    && (forall i :: 0 <= i < |w.log| ==> w.log[i] != [])
    && (forall i :: 0 <= i < |w.sentMsgs| ==> 0 < |w.sentMsgs[i]| <= 1007)
  }

  ghost predicate WriterInv(box: Box, w: Peer, r: Peer) {
    w.session.status >= 2 ==>
      && r.session.status >= 1
      && |w.log| >= 1
      && w.session.sentNonce == NonceAt(r, |w.log| - 1)
      && w.session.sharedKey == SharedKey(box, w, r)
      && w.session.peerSession == box.publicOf(r.session.sessionSecret)
  }

  ghost predicate ReaderInv(w: Peer, r: Peer) {
    && r.read <= |w.log|
    && r.session.status <= 3
    && !r.killed
    && (r.session.status < 2 ==> r.read == 0)
    && (r.session.status == 2 ==> r.read == 1)
    && (r.session.status < 3 ==> r.readMsgs == [])
    && (r.session.status >= 1 ==> r.session.recvNonce == NonceAt(r, if r.read == 0 then 0 else r.read - 1))
    && (r.session.status == 3 ==> r.read >= 2 && r.read - 2 <= |w.sentMsgs| && r.readMsgs == w.sentMsgs[..r.read - 2])
  }

  ghost predicate Half(box: Box, w: Peer, r: Peer) {
    && LogInv(box, w, r)
    && WriterInv(box, w, r)
    && ReaderInv(w, r)
    && (w.session.status >= 1 ==> w.session.publicKey == box.publicOf(r.secret))
  }

  ghost predicate Inv(box: Box, s: System) {
    Half(box, s.x, s.y) && Half(box, s.y, s.x)
  }

  ghost predicate Kept(box: Box, p: Peer, p': Peer, q: Peer) {
    Half(box, p', q) && Half(box, q, p')
  }

  lemma ConnectKeeps(box: Box, p: Peer, q: Peer, ev: Event)
    requires BoxLaws(box) && Half(box, p, q) && Half(box, q, p) && Enabled(p, q, ev) && ev.Connect?
    ensures Kept(box, p, Act(box, p, q, ev), q)
  {
  }

  lemma AcceptKeeps(box: Box, p: Peer, q: Peer, ev: Event)
    requires BoxLaws(box) && Half(box, p, q) && Half(box, q, p) && Enabled(p, q, ev) && ev.Accept?
    ensures Kept(box, p, Act(box, p, q, ev), q)
  {
    HandshakeRoundTrip(box, q.secret, p.secret, q.handshakeNonce, q.base, box.publicOf(q.session.sessionSecret));
  }

  lemma PollKeeps(box: Box, p: Peer, q: Peer)
    requires BoxLaws(box) && Half(box, p, q) && Half(box, q, p) && Enabled(p, q, Poll)
    ensures Kept(box, p, Act(box, p, q, Poll), q)
  {
    HandshakeRoundTrip(box, q.secret, p.secret, q.handshakeNonce, q.base, box.publicOf(q.session.sessionSecret));
  }

  lemma SendKeepsLog(box: Box, p: Peer, q: Peer, ev: Event)
    requires BoxLaws(box) && LogInv(box, p, q) && LogInv(box, q, p) && WriterInv(box, p, q)
    requires ev.Send? && CanWrite(p.session, ev.msg) && ev.room
    ensures LogInv(box, Act(box, p, q, ev), q)
  {
    var p' := Act(box, p, q, ev);
    forall j | 0 <= j <= |p'.sentMsgs|
      ensures p'.log[j + 1] == DataPacket(box, SharedKey(box, p, q), NonceAt(q, j), Message(p', j))
    {
      if j <= |p.sentMsgs| {
        assert Message(p', j) == Message(p, j);
      }
    }
  }

  lemma SendKeepsWriter(box: Box, p: Peer, q: Peer, ev: Event)
    requires LogInv(box, p, q) && LogInv(box, q, p) && WriterInv(box, p, q) && ReaderInv(p, q) && ReaderInv(q, p)
    requires ev.Send? && CanWrite(p.session, ev.msg) && ev.room
    ensures WriterInv(box, Act(box, p, q, ev), q)
    ensures ReaderInv(Act(box, p, q, ev), q) && ReaderInv(q, Act(box, p, q, ev))
  {
  }

  /** What q wrote depends only on values that p fixes when it opens its session. */
  lemma PeerStays(box: Box, q: Peer, p: Peer, p': Peer)
    requires LogInv(box, q, p) && WriterInv(box, q, p)
    requires p'.secret == p.secret && p'.base == p.base
    requires p'.session.sessionSecret == p.session.sessionSecret && p'.session.status >= p.session.status
    ensures LogInv(box, q, p') && WriterInv(box, q, p')
  {
    forall j: nat
      ensures NonceAt(p', j) == NonceAt(p, j)
    {
    }
  }

  lemma SendKeeps(box: Box, p: Peer, q: Peer, ev: Event)
    requires BoxLaws(box) && Half(box, p, q) && Half(box, q, p) && Enabled(p, q, ev) && ev.Send?
    ensures Kept(box, p, Act(box, p, q, ev), q)
  {
    var p' := Act(box, p, q, ev);
    if CanWrite(p.session, ev.msg) && ev.room {
      SendKeepsLog(box, p, q, ev);
      SendKeepsWriter(box, p, q, ev);
      PeerStays(box, q, p, p');
    } else {
      assert p' == p;
    }
  }

  lemma RecvKeeps(box: Box, p: Peer, q: Peer)
    requires BoxLaws(box) && Half(box, p, q) && Half(box, q, p) && Enabled(p, q, Recv)
    ensures Kept(box, p, Act(box, p, q, Recv), q)
  {
    var p' := Act(box, p, q, Recv);
    ReadsNextHalf(box, q, p);
    assert p'.session == p.session.(recvNonce := Inc(p.session.recvNonce));
    PeerStays(box, q, p, p');
    WriterStays(box, p, p', q);
  }

  lemma WriterStays(box: Box, p: Peer, p': Peer, q: Peer)
    requires LogInv(box, p, q) && WriterInv(box, p, q)
    requires p'.session == p.session.(recvNonce := p'.session.recvNonce)
    requires p'.log == p.log && p'.sentMsgs == p.sentMsgs && p'.secret == p.secret && p'.base == p.base
    requires p'.handshakeNonce == p.handshakeNonce
    ensures LogInv(box, p', q) && WriterInv(box, p', q)
  {
    assert SharedKey(box, p', q) == SharedKey(box, p, q);
    forall j | 0 <= j <= |p.sentMsgs|
      ensures Message(p', j) == Message(p, j)
    {
    }
  }

  lemma EventKeeps(box: Box, p: Peer, q: Peer, ev: Event)
    requires BoxLaws(box) && Half(box, p, q) && Half(box, q, p) && Enabled(p, q, ev)
    ensures Kept(box, p, Act(box, p, q, ev), q)
  {
    match ev
    case Connect(_, _, _) => ConnectKeeps(box, p, q, ev);
    case Accept(_, _, _) => AcceptKeeps(box, p, q, ev);
    case Poll => PollKeeps(box, p, q);
    case Send(_, _) => SendKeeps(box, p, q, ev);
    case Recv => RecvKeeps(box, p, q);
  }

  // ---------- runs ----------

  ghost predicate ActX(box: Box, s: System, s': System, ev: Event) {
    && Enabled(s.x, s.y, ev)
    && (forall i :: 0 <= i < |s.y.log| ==> s.y.log[i] != [])
    && s' == System(Act(box, s.x, s.y, ev), s.y)
  }

  function Swap(s: System): System {
    System(s.y, s.x)
  }

  ghost predicate Next(box: Box, s: System, s': System) {
    exists ev :: ActX(box, s, s', ev) || ActX(box, Swap(s), Swap(s'), ev)
  }

  ghost predicate Fresh(p: Peer) {
    p.session == NO_SESSION && p.log == [] && p.read == 0 && p.sentMsgs == [] && p.readMsgs == [] && !p.killed
  }

  ghost predicate IsRun(box: Box, run: seq<System>) {
    && |run| > 0
    && Fresh(run[0].x) && Fresh(run[0].y)
    && (forall i :: 0 <= i < |run| - 1 ==> Next(box, run[i], run[i + 1]))
  }

  lemma NextKeeps(box: Box, s: System, s': System)
    requires BoxLaws(box) && Inv(box, s) && Next(box, s, s')
    ensures Inv(box, s')
  {
    var ev :| ActX(box, s, s', ev) || ActX(box, Swap(s), Swap(s'), ev);
    if ActX(box, s, s', ev) {
      EventKeeps(box, s.x, s.y, ev);
    } else {
      EventKeeps(box, s.y, s.x, ev);
    }
  }

  lemma {:induction false} RunInv(box: Box, run: seq<System>, i: nat)
    requires BoxLaws(box) && IsRun(box, run) && i < |run|
    ensures Inv(box, run[i])
  {
    if i > 0 {
      RunInv(box, run, i - 1);
      NextKeeps(box, run[i - 1], run[i]);
    }
  }

  /** Every message arrives as it was written, in order, none lost and none repeated. */
  lemma MessagesArriveInOrder(box: Box, run: seq<System>, i: nat)
    requires BoxLaws(box) && IsRun(box, run) && i < |run|
    ensures run[i].y.readMsgs <= run[i].x.sentMsgs
    ensures run[i].x.readMsgs <= run[i].y.sentMsgs
  {
    RunInv(box, run, i);
  }

  /** The branches marked as impossible in receive_crypto are impossible: no session is ever killed. */
  lemma NeverKilled(box: Box, run: seq<System>, i: nat)
    requires BoxLaws(box) && IsRun(box, run) && i < |run|
    ensures !run[i].x.killed && !run[i].y.killed
  {
    RunInv(box, run, i);
  }

  /** While the session is being set up, the end that is behind has a packet to read and it takes that end one status further. */
  ghost predicate CanAdvance(box: Box, p: Peer, q: Peer) {
    && Enabled(p, q, Poll)
    && q.log[p.read] != []
    && ReceiveCrypto(box, p.secret, p.session, q.log[p.read]).session.status == p.session.status + 1
  }

  lemma PollAdvances(box: Box, p: Peer, q: Peer)
    requires BoxLaws(box) && Half(box, p, q) && Half(box, q, p)
    requires q.session.status >= 1 && p.session.status in {1, 2} && p.session.status <= q.session.status
    ensures CanAdvance(box, p, q)
  {
    HandshakeRoundTrip(box, q.secret, p.secret, q.handshakeNonce, q.base, box.publicOf(q.session.sessionSecret));
    if p.session.status == 2 {
      var k := SharedKey(box, q, p);
      assert q.log[0 + 1] == DataPacket(box, k, NonceAt(p, 0), Message(q, 0));
      assert q.log[1][1..] == box.afternm(k, NonceAt(p, 0), ZERO);
    }
  }

  /** Two opened sessions cannot get stuck before both are established. */
  lemma SetupProgresses(box: Box, run: seq<System>, i: nat)
    requires BoxLaws(box) && IsRun(box, run) && i < |run|
    requires run[i].x.session.status >= 1 && run[i].y.session.status >= 1
    ensures || (run[i].x.session.status == 3 && run[i].y.session.status == 3)
            || CanAdvance(box, run[i].x, run[i].y)
            || CanAdvance(box, run[i].y, run[i].x)
  {
    RunInv(box, run, i);
    var x, y := run[i].x, run[i].y;
    if x.session.status <= y.session.status && x.session.status != 3 {
      PollAdvances(box, x, y);
    } else if y.session.status != 3 {
      PollAdvances(box, y, x);
    }
  }

  /** Data packets that w has written and r has not read. */
  function InFlight(w: Peer, r: Peer): int {
    |w.log| - (if r.read == 0 then 1 else r.read)
  }

  ghost predicate Lockstep(w: Peer, r: Peer) {
    w.session.status >= 2 ==>
      && InFlight(w, r) >= 0
      && w.session.sentNonce == IncBy(r.session.recvNonce, InFlight(w, r))
  }

  /** The same, of the numbers the nonces spell. */
  ghost predicate LockstepValue(w: Peer, r: Peer) {
    w.session.status >= 2 ==>
      && InFlight(w, r) >= 0
      && var n := r.session.recvNonce;
         Value(w.session.sentNonce) == (Value(n) + InFlight(w, r)) % Power256(|n|)
  }

  lemma LockstepHalf(box: Box, w: Peer, r: Peer)
    requires Half(box, w, r) && Half(box, r, w)
    ensures Lockstep(w, r)
  {
    if w.session.status >= 2 {
      var done := if r.read == 0 then 0 else r.read - 1;
      IncByAdd(Inc(r.base), done, InFlight(w, r));
    }
  }

  lemma LockstepNumbers(w: Peer, r: Peer)
    requires Lockstep(w, r)
    ensures LockstepValue(w, r)
  {
    if w.session.status >= 2 {
      var n := r.session.recvNonce;
      IncByAdds(n, InFlight(w, r), Power256(|n|));
    }
  }

  /** The sender's nonce is the receiver's plus the number of data packets under way, modulo 256^24. */
  lemma NonceLockstep(box: Box, run: seq<System>, i: nat)
    requires BoxLaws(box) && IsRun(box, run) && i < |run|
    ensures Lockstep(run[i].x, run[i].y) && Lockstep(run[i].y, run[i].x)
    ensures LockstepValue(run[i].x, run[i].y) && LockstepValue(run[i].y, run[i].x)
  {
    RunInv(box, run, i);
    LockstepHalf(box, run[i].x, run[i].y);
    LockstepHalf(box, run[i].y, run[i].x);
    LockstepNumbers(run[i].x, run[i].y);
    LockstepNumbers(run[i].y, run[i].x);
  }

  /** An established reader never discards a packet: the next one yields the next message. */
  ghost predicate ReadsNext(box: Box, w: Peer, r: Peer) {
    r.session.status == 3 && r.read < |w.log| && w.log[r.read] != [] ==>
      && |r.readMsgs| < |w.sentMsgs|
      && ReadCryptPacket(box, r.session, w.log[r.read]).1 == Some(w.sentMsgs[|r.readMsgs|])
  }

  lemma NothingDiscarded(box: Box, run: seq<System>, i: nat)
    requires BoxLaws(box) && IsRun(box, run) && i < |run|
    ensures ReadsNext(box, run[i].x, run[i].y) && ReadsNext(box, run[i].y, run[i].x)
  {
    RunInv(box, run, i);
    ReadsNextHalf(box, run[i].x, run[i].y);
    ReadsNextHalf(box, run[i].y, run[i].x);
  }

  lemma ReadsNextHalf(box: Box, w: Peer, r: Peer)
    requires BoxLaws(box) && Half(box, w, r) && Half(box, r, w)
    ensures ReadsNext(box, w, r)
  {
    if r.session.status == 3 && r.read < |w.log| {
      var j := r.read - 1;
      assert w.log[j + 1] == DataPacket(box, SharedKey(box, w, r), NonceAt(r, j), Message(w, j));
      assert w.log[r.read][1..] == box.afternm(SharedKey(box, w, r), NonceAt(r, j), Message(w, j));
    }
  }

  /** The j-th and the k-th data packet of one direction are sealed with different nonces. */
  ghost predicate NoncesUnique(box: Box, w: Peer, r: Peer) {
    w.session.status >= 2 ==>
      && |w.log| == 2 + |w.sentMsgs|
      && (forall j :: 0 <= j <= |w.sentMsgs| ==>
                 w.log[j + 1] == DataPacket(box, w.session.sharedKey, NonceAt(r, j), Message(w, j)))
      && (forall j, k :: 0 <= j < k < j + Power256(|r.base|) ==> NonceAt(r, j) != NonceAt(r, k))
  }

  lemma NoncesUniqueHalf(box: Box, w: Peer, r: Peer)
    requires Half(box, w, r)
    ensures NoncesUnique(box, w, r)
  {
    forall j, k | 0 <= j < k < j + Power256(|r.base|)
      ensures NonceAt(r, j) != NonceAt(r, k)
    {
      NoncesDistinct(Inc(r.base), j, k);
    }
  }

  /** No nonce serves two packets of one direction unless 256^24 or more packets lie between them. */
  lemma NoNonceReuse(box: Box, run: seq<System>, i: nat)
    requires BoxLaws(box) && IsRun(box, run) && i < |run|
    ensures NoncesUnique(box, run[i].x, run[i].y) && NoncesUnique(box, run[i].y, run[i].x)
  {
    RunInv(box, run, i);
    NoncesUniqueHalf(box, run[i].x, run[i].y);
    NoncesUniqueHalf(box, run[i].y, run[i].x);
  }
}

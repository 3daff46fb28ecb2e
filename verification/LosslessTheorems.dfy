/**
 What holds in every state of every run of two Lossless UDP ends.
 Each statement is made for both directions of the connection.
 */
module LosslessTheorems {
  import opened LosslessProtocol
  import opened LosslessReceive
  import opened LosslessSystem

  /** The payloads that are ready for read_packet, oldest first. */
  function Pending(e: Endpoint): seq<Payload>
    requires e.successfulRead <= e.recvNum
  {
    seq(e.recvNum - e.successfulRead, i requires 0 <= i => At(e.recvRing, e.successfulRead + i))
  }

  /** In order, none lost, none repeated. */
  lemma ReliableDelivery(run: seq<System>, i: nat)
    requires IsRun(run) && i < |run|
    ensures run[i].y.delivered <= run[i].x.written
    ensures run[i].x.delivered <= run[i].y.written
  {
    RunInv(run, i);
  }

  /** Payloads returned by read_packet and payloads waiting for it are together what was received so far. */
  ghost predicate HeldSound(p: Side, q: Side) {
    q.conn.status >= 2 ==>
      && q.conn.successfulRead <= q.conn.recvNum
      && Base(p) <= q.conn.recvNum <= Base(p) + |p.written|
      && q.delivered + Pending(q.conn) == p.written[..q.conn.recvNum - Base(p)]
  }

  lemma HeldSoundHalf(p: Side, q: Side)
    requires Half(p, q)
    ensures HeldSound(p, q)
  {
    var e := q.conn;
    if e.status >= 2 {
      assert Holdings(p, q);
      forall n | e.successfulRead <= n < e.recvNum
        ensures At(e.recvRing, n) == p.written[n - Base(p)]
      {
        assert At(e.recvRing, n) != [];
      }
    }
  }

  lemma HeldInOrder(run: seq<System>, i: nat)
    requires IsRun(run) && i < |run|
    ensures HeldSound(run[i].x, run[i].y) && HeldSound(run[i].y, run[i].x)
  {
    RunInv(run, i);
    HeldSoundHalf(run[i].x, run[i].y);
    HeldSoundHalf(run[i].y, run[i].x);
  }

  ghost predicate AckSound(p: Side, q: Side) {
    p.conn.status >= 1 ==>
      && p.conn.successfulSent <= Received(p, q) <= p.conn.sentNum
      && p.conn.sentNum <= p.conn.sendbuffNum <= p.conn.successfulSent + BUFFER_PACKET_NUM
      && 0 <= SendQueue(p.conn) <= BUFFER_PACKET_NUM
  }

  /** An empty send queue means that the peer has everything that was ever written. */
  ghost predicate EmptyQueueMeansReceived(p: Side, q: Side) {
    p.conn.status >= 1 && SendQueue(p.conn) == 0 && p.written != [] ==>
      && q.conn.status >= 2
      && q.conn.successfulRead <= q.conn.recvNum
      && q.delivered + Pending(q.conn) == p.written
  }

  lemma AckSoundHalf(p: Side, q: Side)
    requires Half(p, q)
    ensures AckSound(p, q) && EmptyQueueMeansReceived(p, q)
  {
    if p.conn.status >= 1 && SendQueue(p.conn) == 0 && q.conn.status >= 2 {
      HeldSoundHalf(p, q);
      assert p.written[..|p.written|] == p.written;
    }
  }

  lemma AcknowledgementsSound(run: seq<System>, i: nat)
    requires IsRun(run) && i < |run|
    ensures AckSound(run[i].x, run[i].y) && AckSound(run[i].y, run[i].x)
    ensures EmptyQueueMeansReceived(run[i].x, run[i].y)
    ensures EmptyQueueMeansReceived(run[i].y, run[i].x)
  {
    RunInv(run, i);
    AckSoundHalf(run[i].x, run[i].y);
    AckSoundHalf(run[i].y, run[i].x);
  }

  /** Every DATA packet numbered n that p ever sent, or will send on request, carries p's n-th payload. */
  ghost predicate DataFaithful(p: Side) {
    && (forall num: nat, payload: Payload :: Data(num, payload) in p.sent ==>
            Base(p) <= num < Base(p) + |p.written| && payload == p.written[num - Base(p)])
    && (forall i :: 0 <= i < |p.conn.requested| ==>
            && Base(p) <= p.conn.successfulSent <= p.conn.requested[i] < Base(p) + |p.written|
            && At(p.conn.sendRing, p.conn.requested[i]) == p.written[p.conn.requested[i] - Base(p)])
  }

  lemma DataPacketsFaithful(run: seq<System>, i: nat)
    requires IsRun(run) && i < |run|
    ensures DataFaithful(run[i].x) && DataFaithful(run[i].y)
  {
    RunInv(run, i);
    DataFaithfulHalf(run[i].x, run[i].y);
    DataFaithfulHalf(run[i].y, run[i].x);
  }

  lemma DataFaithfulHalf(p: Side, q: Side)
    requires Half(p, q)
    ensures DataFaithful(p)
  {
    forall num: nat, payload: Payload | Data(num, payload) in p.sent
      ensures Base(p) <= num < Base(p) + |p.written| && payload == p.written[num - Base(p)]
    {
      assert PacketInv(p, q, Data(num, payload));
    }
  }

  /** A SYNC built now and delivered at once is inside both windows and fits its request array. */
  ghost predicate CurrentSyncFits(p: Side, q: Side) {
    p.conn.status >= 2 && q.conn.status == 3 ==>
      var sync := SendSync(p.conn).1;
      && 0 <= sync.recvNum - q.conn.orecvNum <= BUFFER_PACKET_NUM
      && 0 <= sync.sentNum - q.conn.osentNum <= BUFFER_PACKET_NUM
      && |sync.requested| <= BUFFER_PACKET_NUM
  }

  lemma CurrentSyncFitsHalf(p: Side, q: Side)
    requires Half(p, q) && Half(q, p)
    ensures CurrentSyncFits(p, q)
  {
    MissingKeeps(p.conn);
  }

  lemma CurrentSyncsFit(run: seq<System>, i: nat)
    requires IsRun(run) && i < |run|
    ensures CurrentSyncFits(run[i].x, run[i].y) && CurrentSyncFits(run[i].y, run[i].x)
  {
    RunInv(run, i);
    CurrentSyncFitsHalf(run[i].x, run[i].y);
    CurrentSyncFitsHalf(run[i].y, run[i].x);
  }

  /**
   Whoever opened the connection, or both at once: an end that finished its handshake counts from
   the peer's first number, and stays there until the peer sends data.
   */
  ghost predicate Agreement(p: Side, q: Side) {
    p.conn.status >= 2 ==>
      && (p.conn.status == 2 || Sent(q) == Base(q) ==>
        && p.conn.recvNum == p.conn.osentNum == p.conn.successfulRead == Base(q))
      && (p.conn.status == 2 ==> p.conn.sentNum == p.conn.successfulSent == p.conn.orecvNum == Base(p))
      && (q.conn.status in {1, 2} ==> q.conn.sentNum == q.conn.successfulSent == Base(q))
  }

  lemma HandshakeAgreement(run: seq<System>, i: nat)
    requires IsRun(run) && i < |run|
    ensures Agreement(run[i].x, run[i].y) && Agreement(run[i].y, run[i].x)
    ensures Base(run[i].x) == Base(run[0].x) && Base(run[i].y) == Base(run[0].y)
  {
    RunInv(run, i);
    BaseConstant(run, i);
  }

  lemma {:induction false} BaseConstant(run: seq<System>, i: nat)
    requires IsRun(run) && i < |run|
    ensures Base(run[i].x) == Base(run[0].x) && Base(run[i].y) == Base(run[0].y)
  {
    if i > 0 {
      BaseConstant(run, i - 1);
      RunInv(run, i - 1);
      NextKeepsInv(run[i - 1], run[i]);
    }
  }

  /** How many of p's payloads the peer has acknowledged. */
  function Acknowledged(p: Side): int {
    p.conn.successfulSent - Base(p)
  }

  /** write_packet takes 1 to 1024 bytes while fewer than 15 payloads are unacknowledged, and refuses without effect otherwise. */
  ghost predicate WritesExactly(p: Side, data: Payload) {
    p.conn.status >= 1 ==>
      if 1 <= |data| <= 1024 && |p.written| - Acknowledged(p) < 15
      then Act(p, Write(data)).written == p.written + [data]
      else Act(p, Write(data)) == p
  }

  lemma WritesExactlyHalf(p: Side, q: Side, data: Payload)
    requires Half(p, q)
    ensures WritesExactly(p, data)
  {
  }

  lemma WriteAccepted(run: seq<System>, i: nat, data: Payload)
    requires IsRun(run) && i < |run|
    ensures WritesExactly(run[i].x, data) && WritesExactly(run[i].y, data)
  {
    RunInv(run, i);
    WritesExactlyHalf(run[i].x, run[i].y, data);
    WritesExactlyHalf(run[i].y, run[i].x, data);
  }
}

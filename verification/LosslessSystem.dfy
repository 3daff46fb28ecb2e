/**
 Two honest ends and a network that may lose, duplicate and reorder packets.

 A packet once sent stays in `sent` for ever, and any end may receive any packet the other ever
 sent, at any time and as often as the network likes.
 */
module LosslessSystem {
  import opened LosslessProtocol
  import opened LosslessReceive

  /** One end with the history of payloads write_packet accepted and read_packet returned. */
  datatype Side = Side(conn: Endpoint, written: seq<Payload>, delivered: seq<Payload>, sent: set<Packet>)

  datatype System = System(x: Side, y: Side)

  function Swap(s: System): System {
    System(s.y, s.x)
  }

  predicate CanAct(p: Side, q: Side, ev: Event) {
    Enabled(p.conn, ev) && (ev.Receive? ==> ev.packet in q.sent)
  }

  function Act(p: Side, ev: Event): Side
    requires Enabled(p.conn, ev)
  {
    var (conn, packet) := Apply(p.conn, ev);
    Side(
      conn,
      if ev.Write? && CanWrite(p.conn, ev.data) then p.written + [ev.data] else p.written,
      if ev.Read? && RecvQueue(p.conn) != 0 then p.delivered + [ReadPacket(p.conn).1] else p.delivered,
      if packet.Some? then p.sent + {packet.value} else p.sent)
  }

  predicate ActX(s: System, s': System, ev: Event) {
    CanAct(s.x, s.y, ev) && s' == System(Act(s.x, ev), s.y)
  }

  ghost predicate Next(s: System, s': System) {
    exists ev :: ActX(s, s', ev) || ActX(Swap(s), Swap(s'), ev)
  }

  /** No connection at either end; handshake_id() yields a 32-bit number other than 0. */
  predicate Init(s: System) {
    && s.x == Side(Closed(s.x.conn.handshakeId), [], [], {}) && 0 < s.x.conn.handshakeId < 0x1_0000_0000
    && s.y == Side(Closed(s.y.conn.handshakeId), [], [], {}) && 0 < s.y.conn.handshakeId < 0x1_0000_0000
  }

  ghost predicate IsRun(run: seq<System>) {
    && |run| > 0
    && Init(run[0])
    && (forall i :: 0 <= i < |run| - 1 ==> Next(run[i], run[i + 1]))
  }

  // ---------- the invariant, one direction at a time ----------

  function Base(p: Side): nat {
    p.conn.handshakeId
  }

  /** One past the last number sent, also for an end that has not opened its connection yet. */
  function Sent(p: Side): nat {
    if p.conn.status == 0 then Base(p) else p.conn.sentNum
  }

  function Acked(p: Side): nat {
    if p.conn.status == 0 then Base(p) else p.conn.successfulSent
  }

  /** The number up to which q has everything p sent, also before q learnt p's first number. */
  function Received(p: Side, q: Side): nat {
    if q.conn.status < 2 then Base(p) else q.conn.recvNum
  }

  ghost predicate SendCounts(e: Endpoint, length: nat) {
    && e.handshakeId <= e.successfulSent <= e.sentNum <= e.sendbuffNum <= e.successfulSent + 15
    && e.sendbuffNum == e.handshakeId + length
    && (e.status < 3 ==> e.sentNum == e.handshakeId && e.requested == [])
    && (e.status >= 2 ==> e.orecvNum == e.successfulSent)
    && |e.requested| <= 15
    && (forall i :: 0 <= i < |e.requested| ==> e.successfulSent <= e.requested[i] < e.sentNum)
  }

  ghost predicate SenderInv(p: Side) {
    var e := p.conn;
    && 0 < e.handshakeId < 0x1_0000_0000
    && e.status <= 3
    && (e.status == 0 ==> e == Closed(e.handshakeId) && p.written == [])
    && (e.status > 0 ==> SendCounts(e, |p.written|))
    && (e.status > 0 ==> forall n :: e.successfulSent <= n < e.sendbuffNum ==>
                               At(e.sendRing, n) == p.written[n - e.handshakeId])
    && (forall i :: 0 <= i < |p.written| ==> 0 < |p.written[i]| <= MAX_DATA_SIZE)
  }

  /** What q holds of p's payloads. */
  ghost predicate Holdings(p: Side, q: Side) {
    var e := q.conn;
    && Base(p) <= e.successfulRead <= e.osentNum
    && e.osentNum <= Sent(p) <= Base(p) + |p.written|
    && q.delivered == p.written[..e.successfulRead - Base(p)]
    && (forall n :: e.successfulRead <= n < e.successfulRead + 15 && At(e.recvRing, n) != [] ==>
               n < Sent(p) && At(e.recvRing, n) == p.written[n - Base(p)])
  }

  ghost predicate ReceiverInv(p: Side, q: Side) {
    && ReceiveInv(q.conn)
    && (q.conn.status < 2 ==> q.delivered == [] && q.conn.recvNum == 0)
    && (q.conn.status == 2 ==> q.conn.recvNum == Base(p))
    && (q.conn.status >= 2 ==> Holdings(p, q))
    && (q.conn.status == 3 ==> p.conn.status >= 2)
    && Acked(p) <= Received(p, q)
  }

  ghost predicate PacketInv(p: Side, q: Side, packet: Packet) {
    match packet
    case Handshake(id1, id2) => id1 == Base(p) && (id2 == 0 || id2 == Base(q))
    case Sync(c, r, s, req) =>
      && p.conn.status >= 2
      && Base(p) <= s <= p.conn.sentNum
      && Base(q) <= r <= p.conn.recvNum
      && |req| <= 15
      && (forall i :: 0 <= i < |req| ==> r <= req[i] < Sent(q))
    case Data(num, payload) =>
      Base(p) <= num < Sent(p) && num - Base(p) < |p.written| && payload == p.written[num - Base(p)]
  }

  ghost predicate Half(p: Side, q: Side) {
    && SenderInv(p)
    && ReceiverInv(p, q)
    && (forall packet :: packet in p.sent ==> PacketInv(p, q, packet))
  }

  ghost predicate Inv(s: System) {
    Half(s.x, s.y) && Half(s.y, s.x)
  }

  lemma InitInv(s: System)
    requires Init(s)
    ensures Inv(s)
  {
    FreshRing(s.x.conn);
    FreshRing(s.y.conn);
  }

  // ---------- every event keeps the invariant ----------

  /** Nothing an end tells the other is ever taken back. */
  ghost predicate Grows(p: Side, p': Side) {
    && Base(p) == Base(p')
    && p.conn.status <= p'.conn.status
    && Sent(p) <= Sent(p')
    && (p.conn.status >= 2 ==> p.conn.recvNum <= p'.conn.recvNum)
    && p.written <= p'.written
  }

  lemma PacketStays(p: Side, p': Side, q: Side, packet: Packet)
    requires Grows(p, p')
    ensures PacketInv(p, q, packet) ==> PacketInv(p', q, packet)
    ensures PacketInv(q, p, packet) ==> PacketInv(q, p', packet)
  {
  }

  lemma HoldingsStay(p: Side, p': Side, q: Side)
    requires Grows(p, p') && Holdings(p, q) && Sent(p') <= Base(p) + |p'.written|
    ensures Holdings(p', q)
  {
  }

  /** What remains to show for one event: the acting end's own state and its new packet. */
  ghost predicate Step(p: Side, p': Side, q: Side) {
    && Grows(p, p')
    && SenderInv(p')
    && Acked(p') <= Received(p, q)
    && ReceiverInv(q, p')
    && (forall packet :: packet in p'.sent && packet !in p.sent ==> PacketInv(p', q, packet))
  }

  lemma StepKeeps(p: Side, p': Side, q: Side)
    requires Half(p, q) && Half(q, p) && Step(p, p', q)
    ensures Half(p', q) && Half(q, p')
  {
    if q.conn.status >= 2 {
      HoldingsStay(p, p', q);
    }
    forall packet: Packet
      ensures PacketInv(p, q, packet) ==> PacketInv(p', q, packet)
      ensures PacketInv(q, p, packet) ==> PacketInv(q, p', packet)
    {
      PacketStays(p, p', q, packet);
    }
  }

  ghost predicate SameReceiver(e: Endpoint, e': Endpoint) {
    && e.status == e'.status
    && e.recvRing == e'.recvRing
    && e.recvNum == e'.recvNum
    && e.osentNum == e'.osentNum
    && e.successfulRead == e'.successfulRead
  }

  lemma ReceiverStays(q: Side, p: Side, p': Side)
    requires ReceiverInv(q, p) && SameReceiver(p.conn, p'.conn) && p.delivered == p'.delivered
    ensures ReceiverInv(q, p')
  {
    assert RecvInv(p'.conn);
  }

  ghost predicate SameSender(e: Endpoint, e': Endpoint) {
    && e.handshakeId == e'.handshakeId
    && e.sendRing == e'.sendRing
    && e.orecvNum == e'.orecvNum
    && e.sentNum == e'.sentNum
    && e.sendbuffNum == e'.sendbuffNum
    && e.successfulSent == e'.successfulSent
    && e.requested == e'.requested
  }

  lemma SenderStays(p: Side, p': Side)
    requires SenderInv(p) && p.conn.status >= 1 && SameSender(p.conn, p'.conn) && p.written == p'.written
    requires p'.conn.status == p.conn.status || p.conn.status < p'.conn.status == 3
    requires p'.conn.status >= 2 ==> p.conn.orecvNum == p.conn.successfulSent
    ensures SenderInv(p')
  {
  }

  lemma PacketAdded(p: Side, q: Side, packet: Packet)
    requires Half(p, q) && Half(q, p) && PacketInv(p, q, packet)
    ensures Step(p, p.(sent := p.sent + {packet}), q)
  {
    var p' := p.(sent := p.sent + {packet});
    ReceiverStays(q, p, p');
    PacketStays(p, p', q, packet);
  }

  lemma WriteKeepsRing(p: Side, data: Payload)
    requires SenderInv(p) && p.conn.status >= 1
    ensures SenderInv(Act(p, Write(data)))
  {
    var e, p' := p.conn, Act(p, Write(data));
    if CanWrite(e, data) {
      forall n | e.successfulSent <= n < p'.conn.sendbuffNum
        ensures At(p'.conn.sendRing, n) == p'.written[n - Base(p)]
      {
        PutAt(e.sendRing, e.sendbuffNum, data, n);
      }
    }
  }

  lemma WriteKeeps(p: Side, q: Side, data: Payload)
    requires Half(p, q) && Half(q, p) && p.conn.status >= 1
    ensures Step(p, Act(p, Write(data)), q)
  {
    WriteKeepsRing(p, data);
    ReceiverStays(q, p, Act(p, Write(data)));
  }

  lemma ReadHoldings(q: Side, p: Side)
    requires Holdings(q, p) && RecvInv(p.conn) && RecvQueue(p.conn) != 0
    ensures Holdings(q, p.(conn := ReadPacket(p.conn).0, delivered := p.delivered + [ReadPacket(p.conn).1]))
  {
    var e := p.conn;
    forall n | e.successfulRead < n <= e.successfulRead + 15
      ensures At(ReadPacket(e).0.recvRing, n) == At(e.recvRing, n)
    {
      PutAt(e.recvRing, e.successfulRead, [], n);
    }
    assert At(e.recvRing, e.successfulRead) != [];
  }

  lemma ReadKeepsStep(p: Side, q: Side)
    requires Half(p, q) && Half(q, p) && p.conn.status >= 1
    ensures Step(p, Act(p, Read), q)
  {
    ReadKeeps(p.conn);
    SenderStays(p, Act(p, Read));
    if RecvQueue(p.conn) != 0 {
      ReadHoldings(q, p);
    }
  }

  lemma SyncPacketOk(p: Side, q: Side)
    requires SenderInv(p) && ReceiverInv(q, p) && SenderInv(q) && p.conn.status >= 2
    ensures PacketInv(p, q, SendSync(p.conn).1)
    ensures ReceiverInv(q, p.(conn := SendSync(p.conn).0))
  {
    MissingKeeps(p.conn);
    var req := MissingPackets(p.conn).1;
    forall i | 0 <= i < |req|
      ensures p.conn.recvNum <= req[i] < p.conn.osentNum
    {
      assert req[i] in req;
    }
  }

  lemma EmitSyncKeeps(p: Side, q: Side)
    requires Half(p, q) && Half(q, p) && (p.conn.status == 2 || p.conn.status == 3)
    ensures Step(p, Act(p, EmitSync), q)
  {
    var p' := Act(p, EmitSync);
    var p'' := p.(conn := p'.conn);
    SyncPacketOk(p, q);
    MissingKeeps(p.conn);
    SenderStays(p, p');
    PacketStays(p, p', q, SendSync(p.conn).1);
    ReceiverStays(q, p'', p');
  }

  lemma DataPacketOk(p: Side, q: Side)
    requires SenderInv(p) && p.conn.status == 3 && SendQueue(p.conn) != 0
    ensures SendData(p.conn).1.Some? ==> PacketInv(Act(p, EmitData), q, SendData(p.conn).1.value)
    ensures SenderInv(Act(p, EmitData))
  {
  }

  lemma EmitDataKeeps(p: Side, q: Side)
    requires Half(p, q) && Half(q, p) && p.conn.status == 3 && SendQueue(p.conn) != 0
    ensures Step(p, Act(p, EmitData), q)
  {
    DataPacketOk(p, q);
    ReceiverStays(q, p, Act(p, EmitData));
  }

  lemma EmitHandshakeKeeps(p: Side, q: Side)
    requires Half(p, q) && Half(q, p) && p.conn.status == 1
    ensures Step(p, Act(p, EmitHandshake), q)
  {
    assert Act(p, EmitHandshake) == p.(sent := p.sent + {Handshake(Base(p), 0)});
    PacketAdded(p, q, Handshake(Base(p), 0));
  }

  lemma OpenKeeps(p: Side, q: Side)
    requires Half(p, q) && Half(q, p)
    ensures Step(p, Act(p, Open), q)
  {
    OpeningKeeps(p.conn, 0, 0);
  }

  lemma HandshakeDone(p: Side, q: Side)
    requires Half(p, q) && Half(q, p) && p.conn.status == 1
    ensures Step(p, p.(conn := HandleHandshake(p.conn, Base(q), Base(p)).0), q)
  {
    OpeningKeeps(p.conn, Base(q), Base(p));
    EmptyRings();
    var p' := p.(conn := HandleHandshake(p.conn, Base(q), Base(p)).0);
    assert Holdings(q, p');
    assert SenderInv(p');
  }

  lemma HandshakeKeeps(p: Side, q: Side, id1: nat, id2: nat)
    requires Half(p, q) && Half(q, p) && Handshake(id1, id2) in q.sent
    ensures Step(p, Act(p, Receive(Handshake(id1, id2))), q)
  {
    var p' := Act(p, Receive(Handshake(id1, id2)));
    assert PacketInv(q, p, Handshake(id1, id2));
    if id2 == 0 && p.conn.status < 3 {
      assert p' == p.(sent := p.sent + {Handshake(Base(p), id1)});
      PacketAdded(p, q, Handshake(Base(p), id1));
    } else if p.conn.status == 1 {
      assert p' == p.(conn := HandleHandshake(p.conn, Base(q), Base(p)).0);
      HandshakeDone(p, q);
    } else {
      assert p' == p;
    }
  }

  lemma Sync1Keeps(p: Side, q: Side, c: nat, r: nat, s: nat, req: seq<nat>)
    requires Half(p, q) && Half(q, p) && Sync(c, r, s, req) in q.sent && p.conn.status == 0
    ensures Step(p, Act(p, Receive(Sync(c, r, s, req))), q)
  {
    SyncKeeps(p.conn, c, r, s, req);
    assert PacketInv(q, p, Sync(c, r, s, req));
    EmptyRings();
  }

  lemma Establish(p: Side, q: Side, c: nat)
    requires Half(p, q) && Half(q, p) && p.conn.status == 2 && q.conn.status >= 2
    ensures Step(p, p.(conn := p.conn.(status := 3, recvCounter := c, sendCounter := p.conn.sendCounter + 1)), q)
  {
    SenderStays(p, p.(conn := p.conn.(status := 3, recvCounter := c, sendCounter := p.conn.sendCounter + 1)));
  }

  lemma Sync2IsEmit(p: Side, c: nat, r: nat, s: nat, req: seq<nat>)
    requires p.conn.status == 2 && r == p.conn.orecvNum && |req| <= 15
    ensures var e := p.conn.(status := 3, recvCounter := c, sendCounter := p.conn.sendCounter + 1);
      Act(p, Receive(Sync(c, r, s, req))) == Act(p.(conn := e), EmitSync)
  {
  }

  lemma Sync2Keeps(p: Side, q: Side, c: nat, r: nat, s: nat, req: seq<nat>)
    requires Half(p, q) && Half(q, p) && Sync(c, r, s, req) in q.sent && p.conn.status == 2
    ensures Step(p, Act(p, Receive(Sync(c, r, s, req))), q)
  {
    assert PacketInv(q, p, Sync(c, r, s, req));
    var e := p.conn.(status := 3, recvCounter := c, sendCounter := p.conn.sendCounter + 1);
    Establish(p, q, c);
    StepKeeps(p, p.(conn := e), q);
    EmitSyncKeeps(p.(conn := e), q);
    Sync2IsEmit(p, c, r, s, req);
  }

  lemma Sync3Sender(p: Side, q: Side, c: nat, r: nat, s: nat, req: seq<nat>)
    requires SenderInv(p) && ReceiverInv(p, q) && PacketInv(q, p, Sync(c, r, s, req)) && p.conn.status == 3
    ensures SenderInv(p.(conn := HandleSync3(p.conn, c, r, s, req)))
  {
  }

  lemma Sync3Receiver(p: Side, q: Side, c: nat, r: nat, s: nat, req: seq<nat>)
    requires ReceiverInv(q, p) && SenderInv(q) && PacketInv(q, p, Sync(c, r, s, req)) && p.conn.status == 3
    ensures ReceiverInv(q, p.(conn := HandleSync3(p.conn, c, r, s, req)))
  {
  }

  lemma Sync3Keeps(p: Side, q: Side, c: nat, r: nat, s: nat, req: seq<nat>)
    requires Half(p, q) && Half(q, p) && Sync(c, r, s, req) in q.sent && p.conn.status == 3
    ensures Step(p, Act(p, Receive(Sync(c, r, s, req))), q)
  {
    assert PacketInv(q, p, Sync(c, r, s, req));
    Sync3Sender(p, q, c, r, s, req);
    Sync3Receiver(p, q, c, r, s, req);
    assert Act(p, Receive(Sync(c, r, s, req))) == p.(conn := HandleSync3(p.conn, c, r, s, req));
  }

  lemma DataHoldings(q: Side, p: Side, num: nat, data: Payload)
    requires Holdings(q, p) && RecvInv(p.conn) && PacketInv(q, p, Data(num, data)) && data != []
    ensures Holdings(q, p.(conn := AddRecv(p.conn, num, data)))
  {
    AddRecvKeeps(p.conn, num, data);
    StoreKeeps(p.conn, num, data);
  }

  lemma DataKeeps(p: Side, q: Side, num: nat, data: Payload)
    requires Half(p, q) && Half(q, p) && Data(num, data) in q.sent
    ensures Step(p, Act(p, Receive(Data(num, data))), q)
  {
    assert PacketInv(q, p, Data(num, data));
    if p.conn.status == 3 && 0 < |data| <= MAX_DATA_SIZE {
      var p' := p.(conn := AddRecv(p.conn, num, data));
      assert Act(p, Receive(Data(num, data))) == p';
      AddRecvKeeps(p.conn, num, data);
      DataHoldings(q, p, num, data);
      SenderStays(p, p');
    } else {
      assert Act(p, Receive(Data(num, data))) == p;
    }
  }

  lemma AnySyncKeeps(p: Side, q: Side, c: nat, r: nat, s: nat, req: seq<nat>)
    requires Half(p, q) && Half(q, p) && Sync(c, r, s, req) in q.sent
    ensures Step(p, Act(p, Receive(Sync(c, r, s, req))), q)
  {
    if p.conn.status == 0 {
      Sync1Keeps(p, q, c, r, s, req);
    } else if p.conn.status == 2 {
      Sync2Keeps(p, q, c, r, s, req);
    } else if p.conn.status == 3 {
      Sync3Keeps(p, q, c, r, s, req);
    } else {
      assert Act(p, Receive(Sync(c, r, s, req))) == p;
    }
  }

  lemma EventIsStep(p: Side, q: Side, ev: Event)
    requires Half(p, q) && Half(q, p) && CanAct(p, q, ev)
    ensures Step(p, Act(p, ev), q)
  {
    match ev {
      case Open => OpenKeeps(p, q);
      case EmitHandshake => EmitHandshakeKeeps(p, q);
      case Write(data) => WriteKeeps(p, q, data);
      case Read => ReadKeepsStep(p, q);
      case EmitSync => EmitSyncKeeps(p, q);
      case EmitData => EmitDataKeeps(p, q);
      case Receive(Handshake(id1, id2)) => HandshakeKeeps(p, q, id1, id2);
      case Receive(Data(num, data)) => DataKeeps(p, q, num, data);
      case Receive(Sync(c, r, s, req)) => AnySyncKeeps(p, q, c, r, s, req);
    }
  }

  lemma EventKeepsInv(p: Side, q: Side, ev: Event)
    requires Half(p, q) && Half(q, p) && CanAct(p, q, ev)
    ensures Half(Act(p, ev), q) && Half(q, Act(p, ev))
    ensures Grows(p, Act(p, ev))
  {
    EventIsStep(p, q, ev);
    StepKeeps(p, Act(p, ev), q);
  }

  lemma NextKeepsInv(s: System, s': System)
    requires Inv(s) && Next(s, s')
    ensures Inv(s') && Grows(s.x, s'.x) && Grows(s.y, s'.y)
  {
    var ev :| ActX(s, s', ev) || ActX(Swap(s), Swap(s'), ev);
    if ActX(s, s', ev) {
      EventKeepsInv(s.x, s.y, ev);
    } else {
      EventKeepsInv(s.y, s.x, ev);
    }
  }

  lemma {:induction false} RunInv(run: seq<System>, i: nat)
    requires IsRun(run) && i < |run|
    ensures Inv(run[i])
  {
    if i == 0 {
      InitInv(run[0]);
    } else {
      RunInv(run, i - 1);
      NextKeepsInv(run[i - 1], run[i]);
    }
  }
}

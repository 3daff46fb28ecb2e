/**
 The connection record of toxcore/Lossless_UDP.h and the functions that update it in place, with
 32-bit sequence numbers, 8-bit counters and 16-slot buffers.

 Every method is given, as a ghost argument, the unbounded endpoint the record stands for and
 leaves the record standing for the endpoint that `LosslessProtocol` computes.
 */
module LosslessConnection {
  import opened Wrappers
  import P = LosslessProtocol
  import opened LosslessReceive
  import LosslessSystem

  type uint32 = x: int | 0 <= x < 0x1_0000_0000
  type uint8 = x: int | 0 <= x < 256

  function Wrap(n: int): uint32 {
    n % 0x1_0000_0000
  }

  function WrapAll(s: seq<nat>): (w: seq<uint32>)
    ensures |w| == |s|
  {
    seq(|s|, i requires 0 <= i < |s| => Wrap(s[i]))
  }

  /** What travels: the same packets with 32-bit numbers and 8-bit counters. */
  datatype WirePacket =
    | Handshake(id1: uint32, id2: uint32)
    | Sync(counter: uint8, recvNum: uint32, sentNum: uint32, requested: seq<uint32>)
    | Data(num: uint32, payload: P.Payload)

  function Wire(p: P.Packet): WirePacket {
    match p
    case Handshake(id1, id2) => Handshake(Wrap(id1), Wrap(id2))
    case Sync(c, r, s, req) => Sync(c % 256, Wrap(r), Wrap(s), WrapAll(req))
    case Data(num, payload) => Data(Wrap(num), payload)
  }

  // ---------- arithmetic across the wrap ----------

  lemma WrapSub(a: int, b: int)
    ensures Wrap(Wrap(a) - Wrap(b)) == Wrap(a - b)
  {
  }

  lemma WrapAdd(a: int, k: int)
    ensures Wrap(Wrap(a) + k) == Wrap(a + k)
  {
  }

  lemma WrapEqual(a: int, b: int)
    requires -0x1_0000_0000 < a - b < 0x1_0000_0000
    ensures Wrap(a) == Wrap(b) <==> a == b
  {
  }

  lemma WrapSmall(a: int, k: int)
    requires -0x8000_0000 <= a < 0x8000_0000 && 0 <= k < 0x8000_0000
    ensures Wrap(a) <= k <==> 0 <= a <= k
  {
  }

  lemma WrapSlot(n: int)
    ensures Wrap(n) % 16 == n % 16
  {
    var q := 0x1000_0000 * (n / 0x1_0000_0000);
    assert Wrap(n) == n - 16 * q;
    SameSlot(n, q);
  }

  lemma SameSlot(n: int, q: int)
    ensures (n - 16 * q) % 16 == n % 16
  {
    assert n - 16 * q == 16 * (n / 16 - q) + n % 16;
  }

  lemma CounterGapAgrees(c: nat, recvCounter: nat)
    ensures (c % 256 - recvCounter % 256) % 256 == (c - recvCounter) % 256
  {
  }

  lemma NextCounter(c: nat)
    ensures (c % 256 + 1) % 256 == (c + 1) % 256
  {
  }

  lemma {:induction false} FewerBefore(r: P.Ring, i: nat, n: nat, limit: nat)
    requires i <= n <= limit
    ensures |P.EmptySlots(r, i, n)| <= |P.EmptySlots(r, i, limit)|
    decreases limit - n
  {
    if n < limit {
      FewerBefore(r, i, n + 1, limit);
      P.EmptySlotsNext(r, i, n);
    }
  }

  lemma AllEmpty(slots: seq<P.Payload>)
    requires |slots| == 16 && (forall i :: 0 <= i < 16 ==> slots[i] == [])
    ensures slots == P.EMPTY_SLOTS
  {
  }

  // ---------- when the two widths agree ----------

  /** The windows that two honest ends keep (see `HonestEndInWindow`). */
  ghost predicate InWindow(e: P.Endpoint) {
    && e.handshakeId < 0x1_0000_0000
    && e.successfulSent <= e.sentNum <= e.sendbuffNum <= e.successfulSent + 15
    && |e.requested| <= 15
    && ReceiveInv(e)
    && e.osentNum < e.recvNum + 0x1_0000_0000
  }

  /** missing_packets has room for 15 numbers. */
  ghost predicate RequestsFit(e: P.Endpoint) {
    |P.MissingPackets(e).1| <= 15
  }

  lemma EstablishedInWindow(e: P.Endpoint, c: nat)
    requires InWindow(e) && e.status == 2
    ensures var e' := e.(status := 3, recvCounter := c, sendCounter := e.sendCounter + 1);
      InWindow(e') && RequestsFit(e')
  {
  }

  ghost predicate Near(a: nat, b: nat) {
    -0x8000_0000 < a - b < 0x7FFF_0000
  }

  /** The packet's numbers are less than 2^31 away from the numbers they are compared with. */
  ghost predicate Recent(e: P.Endpoint, p: P.Packet) {
    match p
    case Handshake(id1, id2) => id1 < 0x1_0000_0000 && id2 < 0x1_0000_0000
    case Sync(c, r, s, req) =>
      && (e.status == 0 ==> Near(r, e.handshakeId))
      && (e.status >= 2 ==> Near(r, e.orecvNum))
      && (e.status == 3 ==> Near(s, e.osentNum))
    case Data(num, payload) => e.status == 3 ==> Near(num, e.recvNum) && Near(num, e.osentNum)
  }

  /** What an end is asked to do, with the packet as it travels. */
  datatype WireEvent =
    | Open
    | EmitHandshake
    | Write(data: P.Payload)
    | Read
    | EmitSync
    | EmitData
    | Receive(packet: WirePacket)

  function WireEventOf(ev: P.Event): WireEvent {
    match ev
    case Open => WireEvent.Open
    case EmitHandshake => WireEvent.EmitHandshake
    case Write(data) => WireEvent.Write(data)
    case Read => WireEvent.Read
    case EmitSync => WireEvent.EmitSync
    case EmitData => WireEvent.EmitData
    case Receive(p) => WireEvent.Receive(Wire(p))
  }

  function WireOption(p: Option<P.Packet>): Option<WirePacket> {
    match p
    case None => None
    case Some(q) => Some(Wire(q))
  }

  ghost predicate InRange(e: P.Endpoint, ev: P.Event) {
    && InWindow(e)
    && (ev.EmitSync? && e.status == 3 ==> RequestsFit(e))
    && (ev.Receive? ==> Recent(e, ev.packet))
  }

  /** An event that is not enabled does nothing. */
  function Stepped(e: P.Endpoint, ev: P.Event): (P.Endpoint, Option<P.Packet>) {
    if P.Enabled(e, ev) then P.Apply(e, ev) else (e, None)
  }

  lemma HistoryNext(e: P.Endpoint, evs: seq<P.Event>, i: nat)
    requires i < |evs|
    ensures ApplyAll(e, evs[..i + 1]) == Stepped(ApplyAll(e, evs[..i]), evs[i]).0
  {
    ApplyAllNext(e, evs[..i], evs[i]);
    assert evs[..i] + [evs[i]] == evs[..i + 1];
  }

  lemma HandshakeSame(p: P.Packet)
    requires p.Handshake? && p.id1 < 0x1_0000_0000 && p.id2 < 0x1_0000_0000
    ensures Wire(p) == Handshake(p.id1, p.id2)
  {
  }

  lemma AcceptanceAgrees(e: P.Endpoint, p: P.Packet)
    requires p.Sync? && Recent(e, p) && e.status == 3
    ensures P.SyncAccepted(e, p.counter, p.recvNum, p.sentNum) <==>
            && Wrap(Wrap(p.recvNum) - Wrap(e.orecvNum)) <= 15
            && Wrap(Wrap(p.sentNum) - Wrap(e.osentNum)) <= 15
            && 0 < (p.counter % 256 - e.recvCounter % 256) % 256 < 10
  {
    WrapSub(p.recvNum, e.orecvNum);
    WrapSmall(p.recvNum - e.orecvNum, 15);
    WrapSub(p.sentNum, e.osentNum);
    WrapSmall(p.sentNum - e.osentNum, 15);
    CounterGapAgrees(p.counter, e.recvCounter);
  }

  method ClearRing(ring: array<P.Payload>)
    requires ring.Length == 16
    modifies ring
    ensures ring[..] == P.EMPTY_SLOTS
  {
    forall i | 0 <= i < 16 {
      ring[i] := [];
    }
    AllEmpty(ring[..]);
  }

  class Connection {
    var handshakeId: uint32
    var status: nat
    const sendbuffer: array<P.Payload>
    const recvbuffer: array<P.Payload>
    var recvPacketnum: uint32
    var orecvPacketnum: uint32
    var sentPacketnum: uint32
    var osentPacketnum: uint32
    var sendbuffPacketnum: uint32
    var successfulSent: uint32
    var successfulRead: uint32
    const reqPackets: array<uint32>
    var numReqPackets: nat
    var recvCounter: uint8
    var sendCounter: uint8

    ghost predicate Valid()
      reads this
    {
      && sendbuffer.Length == 16
      && recvbuffer.Length == 16
      && sendbuffer != recvbuffer
      && reqPackets.Length == 15
      && numReqPackets <= 15
    }

    ghost predicate RepresentsNumbers(e: P.Endpoint)
      reads this
    {
      && handshakeId == e.handshakeId
      && status == e.status
      && recvPacketnum == Wrap(e.recvNum)
      && orecvPacketnum == Wrap(e.orecvNum)
      && sentPacketnum == Wrap(e.sentNum)
      && osentPacketnum == Wrap(e.osentNum)
      && sendbuffPacketnum == Wrap(e.sendbuffNum)
      && successfulSent == Wrap(e.successfulSent)
      && successfulRead == Wrap(e.successfulRead)
      && recvCounter == e.recvCounter % 256
      && sendCounter == e.sendCounter % 256
    }

    ghost predicate Represents(e: P.Endpoint)
      reads this, sendbuffer, recvbuffer, reqPackets
    {
      && Valid()
      && RepresentsNumbers(e)
      && sendbuffer[..] == e.sendRing
      && recvbuffer[..] == e.recvRing
      && reqPackets[..numReqPackets] == WrapAll(e.requested)
    }

    /** The zeroed record. */
    constructor (id: uint32)
      ensures Represents(P.Closed(id))
      ensures fresh(sendbuffer) && fresh(recvbuffer) && fresh(reqPackets)
    {
      handshakeId := id;
      status := 0;
      sendbuffer := new P.Payload[16](_ => []);
      recvbuffer := new P.Payload[16](_ => []);
      recvPacketnum, orecvPacketnum, sentPacketnum, osentPacketnum := 0, 0, 0, 0;
      sendbuffPacketnum, successfulSent, successfulRead := 0, 0, 0;
      reqPackets := new uint32[15](_ => 0);
      numReqPackets := 0;
      recvCounter, sendCounter := 0, 0;
      new;
      AllEmpty(sendbuffer[..]);
      AllEmpty(recvbuffer[..]);
    }

    method SendQueue(ghost e: P.Endpoint) returns (n: uint32)
      requires Represents(e) && InWindow(e)
      ensures n == P.SendQueue(e)
    {
      WrapSub(e.sendbuffNum, e.successfulSent);
      n := Wrap(sendbuffPacketnum - successfulSent);
    }

    method RecvQueue(ghost e: P.Endpoint) returns (n: uint32)
      requires Represents(e) && InWindow(e)
      ensures n == P.RecvQueue(e)
    {
      WrapSub(e.recvNum, e.successfulRead);
      n := Wrap(recvPacketnum - successfulRead);
    }

    method WritePacket(data: P.Payload, ghost e: P.Endpoint) returns (ok: bool)
      requires Represents(e) && InWindow(e)
      modifies this, sendbuffer
      ensures Represents(P.WritePacket(e, data))
      ensures ok == P.CanWrite(e, data)
    {
      var queued := SendQueue(e);
      if |data| > P.MAX_DATA_SIZE || |data| == 0 || queued >= P.BUFFER_PACKET_NUM {
        return false;
      }
      WrapSlot(e.sendbuffNum);
      WrapAdd(e.sendbuffNum, 1);
      var index := sendbuffPacketnum % P.MAX_QUEUE_NUM;
      sendbuffer[index] := data;
      sendbuffPacketnum := Wrap(sendbuffPacketnum + 1);
      return true;
    }

    method ReadPacket(ghost e: P.Endpoint) returns (data: P.Payload)
      requires Represents(e) && InWindow(e)
      modifies this, recvbuffer
      ensures Represents(P.ReadPacket(e).0)
      ensures data == P.ReadPacket(e).1
    {
      var queued := RecvQueue(e);
      if queued == 0 {
        return [];
      }
      WrapSlot(e.successfulRead);
      WrapAdd(e.successfulRead, 1);
      var index := successfulRead % P.MAX_QUEUE_NUM;
      data := recvbuffer[index];
      successfulRead := Wrap(successfulRead + 1);
      recvbuffer[index] := [];
    }

    /** The loop tests numbers with `!=`; it meets its end because less than 2^32 numbers lie between. */
    method CollectMissing(requested: array<uint32>, ghost r: P.Ring, ghost from: nat, ghost limit: nat)
      returns (number: nat)
      requires recvbuffer.Length == 16 && recvbuffer[..] == r
      requires recvPacketnum == Wrap(from) && osentPacketnum == Wrap(limit) && from <= limit < from + 0x1_0000_0000
      requires requested.Length == 15 && |P.EmptySlots(r, from, limit)| <= 15
      modifies requested
      ensures number <= 15
      ensures requested[..number] == WrapAll(P.EmptySlots(r, from, limit))
    {
      number := 0;
      ghost var n := from;
      var i := recvPacketnum;
      while i != osentPacketnum
        invariant from <= n <= limit && i == Wrap(n)
        invariant number == |P.EmptySlots(r, from, n)| <= 15
        invariant forall j :: 0 <= j < number ==> requested[j] == Wrap(P.EmptySlots(r, from, n)[j])
        decreases limit - n
      {
        WrapEqual(n, limit);
        WrapSlot(n);
        WrapAdd(n, 1);
        P.EmptySlotsNext(r, from, n);
        FewerBefore(r, from, n + 1, limit);
        if |recvbuffer[i % P.MAX_QUEUE_NUM]| == 0 {
          requested[number] := i;
          number := number + 1;
        }
        i := Wrap(i + 1);
        n := n + 1;
      }
      WrapEqual(n, limit);
    }

    method MissingPackets(requested: array<uint32>, ghost e: P.Endpoint) returns (number: nat)
      requires Represents(e) && InWindow(e) && RequestsFit(e)
      requires requested.Length == 15 && requested != reqPackets
      modifies this, requested
      ensures Represents(P.MissingPackets(e).0)
      ensures number <= 15 && requested[..number] == WrapAll(P.MissingPackets(e).1)
    {
      var queued := RecvQueue(e);
      if queued >= P.BUFFER_PACKET_NUM - 1 {
        return 0;
      }
      number := CollectMissing(requested, e.recvRing, e.recvNum, e.osentNum);
      assert number == |P.EmptySlots(e.recvRing, e.recvNum, e.osentNum)|;
      if number == 0 {
        recvPacketnum := osentPacketnum;
      }
    }

    method SendSync(ghost e: P.Endpoint) returns (packet: WirePacket)
      requires Represents(e) && InWindow(e) && RequestsFit(e)
      modifies this
      ensures Represents(P.SendSync(e).0)
      ensures packet == Wire(P.SendSync(e).1)
    {
      var counter, recvNum, sentNum := sendCounter, recvPacketnum, sentPacketnum;
      var requested := new uint32[15](_ => 0);
      var number := MissingPackets(requested, e);
      packet := Sync(counter, recvNum, sentNum, requested[..number]);
    }

    method SendDataPacket(num: uint32, ghost n: nat, ghost e: P.Endpoint) returns (packet: WirePacket)
      requires Represents(e) && num == Wrap(n)
      ensures packet == Wire(P.DataPacket(e, n))
    {
      WrapSlot(n);
      var index := num % P.MAX_QUEUE_NUM;
      packet := Data(num, sendbuffer[index]);
    }

    method DropFirstRequest()
      requires Valid() && numReqPackets > 0
      modifies this`numReqPackets, reqPackets
      ensures Valid() && reqPackets[..numReqPackets] == old(reqPackets[..numReqPackets])[1..]
    {
      numReqPackets := numReqPackets - 1;
      var buffer := reqPackets[1..numReqPackets + 1];
      forall i | 0 <= i < numReqPackets {
        reqPackets[i] := buffer[i];
      }
    }

    method SendData(ghost e: P.Endpoint) returns (packet: Option<WirePacket>)
      requires Represents(e) && InWindow(e)
      modifies this, reqPackets
      ensures Represents(P.SendData(e).0)
      ensures packet == WireOption(P.SendData(e).1)
    {
      if numReqPackets > 0 {
        assert reqPackets[0] == reqPackets[..numReqPackets][0] == Wrap(e.requested[0]);
        var data := SendDataPacket(reqPackets[0], e.requested[0], e);
        DropFirstRequest();
        assert WrapAll(e.requested)[1..] == WrapAll(e.requested[1..]);
        return Some(data);
      }
      WrapEqual(e.sendbuffNum, e.sentNum);
      WrapAdd(e.sentNum, 1);
      if sendbuffPacketnum != sentPacketnum {
        var data := SendDataPacket(sentPacketnum, e.sentNum, e);
        sentPacketnum := Wrap(sentPacketnum + 1);
        return Some(data);
      }
      return None;
    }

    method NewConnection(ghost e: P.Endpoint)
      requires Represents(e) && e.handshakeId < 0x1_0000_0000
      modifies this, sendbuffer, recvbuffer
      ensures Represents(P.NewConnection(e))
    {
      if status == 0 {
        Clear();
        status := 1;
        sentPacketnum, sendbuffPacketnum, successfulSent := handshakeId, handshakeId, handshakeId;
      }
    }

    /** memset(connection, 0, ...) */
    method Clear()
      requires Valid()
      modifies this, sendbuffer, recvbuffer
      ensures Represents(P.Closed(handshakeId)) && handshakeId == old(handshakeId)
    {
      ClearRing(sendbuffer);
      ClearRing(recvbuffer);
      status := 0;
      recvPacketnum, orecvPacketnum, sentPacketnum, osentPacketnum := 0, 0, 0, 0;
      sendbuffPacketnum, successfulSent, successfulRead := 0, 0, 0;
      numReqPackets := 0;
      recvCounter, sendCounter := 0, 0;
    }

    method HandleHandshake(id1: uint32, id2: uint32, ghost e: P.Endpoint) returns (reply: Option<WirePacket>)
      requires Represents(e) && e.handshakeId < 0x1_0000_0000
      modifies this
      ensures Represents(P.HandleHandshake(e, id1, id2).0)
      ensures reply == WireOption(P.HandleHandshake(e, id1, id2).1)
    {
      if id2 == 0 && status < 3 {
        return Some(Handshake(handshakeId, id1));
      }
      if status != 1 {
        return None;
      }
      if id2 == handshakeId {
        status := 2;
        orecvPacketnum := id2;
        osentPacketnum, recvPacketnum, successfulRead := id1, id1, id1;
      }
      return None;
    }

    method HandleSync(counter: uint8, recvNum: uint32, sentNum: uint32, requested: seq<uint32>,
                      ghost e: P.Endpoint, ghost p: P.Packet)
      returns (reply: Option<WirePacket>)
      requires Represents(e) && InWindow(e) && p.Sync? && Recent(e, p)
      requires Sync(counter, recvNum, sentNum, requested) == Wire(p)
      modifies this, sendbuffer, recvbuffer, reqPackets
      ensures Represents(P.Handle(e, p).0)
      ensures reply == WireOption(P.Handle(e, p).1)
    {
      reply := None;
      if |requested| > P.BUFFER_PACKET_NUM {
        return;
      }
      if status == 0 {
        HandleSync1(recvNum, sentNum, e, p);
      } else if status == 2 {
        reply := HandleSync2(counter, recvNum, e, p);
      } else if status == 3 {
        HandleSync3(counter, recvNum, sentNum, requested, e, p);
      }
    }

    method HandleSync1(recvNum: uint32, sentNum: uint32, ghost e: P.Endpoint, ghost p: P.Packet)
      requires Represents(e) && p.Sync? && Recent(e, p) && e.status == 0
      requires recvNum == Wrap(p.recvNum) && sentNum == Wrap(p.sentNum)
      modifies this, sendbuffer, recvbuffer
      ensures Represents(P.HandleSync1(e, p.recvNum, p.sentNum))
    {
      WrapEqual(p.recvNum, e.handshakeId);
      if handshakeId == recvNum {
        Clear();
        StartInbound(recvNum, sentNum, P.Closed(handshakeId), p.recvNum, p.sentNum);
      }
    }

    method StartInbound(recvNum: uint32, sentNum: uint32, ghost e: P.Endpoint, ghost r: nat, ghost s: nat)
      requires Represents(e) && recvNum == Wrap(r) && sentNum == Wrap(s)
      modifies this
      ensures Represents(e.(status := 2, sendCounter := 127,
                            orecvNum := r, sentNum := r, sendbuffNum := r, successfulSent := r,
                            osentNum := s, recvNum := s, successfulRead := s))
    {
      status, sendCounter := 2, 127;
      orecvPacketnum, sentPacketnum, sendbuffPacketnum, successfulSent := recvNum, recvNum, recvNum, recvNum;
      osentPacketnum, recvPacketnum, successfulRead := sentNum, sentNum, sentNum;
    }

    method HandleSync2(counter: uint8, recvNum: uint32, ghost e: P.Endpoint, ghost p: P.Packet)
      returns (reply: Option<WirePacket>)
      requires Represents(e) && InWindow(e) && p.Sync? && Recent(e, p) && e.status == 2
      requires counter == p.counter % 256 && recvNum == Wrap(p.recvNum)
      modifies this
      ensures Represents(P.HandleSync2(e, p.counter, p.recvNum).0)
      ensures reply == WireOption(P.HandleSync2(e, p.counter, p.recvNum).1)
    {
      WrapEqual(p.recvNum, e.orecvNum);
      reply := None;
      if recvNum == orecvPacketnum {
        status := 3;
        recvCounter := counter;
        sendCounter := (sendCounter + 1) % 256;
        ghost var e' := e.(status := 3, recvCounter := p.counter, sendCounter := e.sendCounter + 1);
        NextCounter(e.sendCounter);
        EstablishedInWindow(e, p.counter);
        var packet := SendSync(e');
        reply := Some(packet);
      }
    }

    method HandleSync3(counter: uint8, recvNum: uint32, sentNum: uint32, requested: seq<uint32>,
                       ghost e: P.Endpoint, ghost p: P.Packet)
      requires Represents(e) && InWindow(e) && p.Sync? && Recent(e, p) && e.status == 3
      requires Sync(counter, recvNum, sentNum, requested) == Wire(p) && |requested| <= 15
      modifies this, reqPackets
      ensures Represents(P.HandleSync3(e, p.counter, p.recvNum, p.sentNum, p.requested))
    {
      var compCounter := (counter - recvCounter) % 256;
      var comp1 := Wrap(recvNum - orecvPacketnum);
      var comp2 := Wrap(sentNum - osentPacketnum);
      AcceptanceAgrees(e, p);
      NextCounter(e.sendCounter);
      if comp1 <= P.BUFFER_PACKET_NUM && comp2 <= P.BUFFER_PACKET_NUM && compCounter < 10 && compCounter != 0 {
        orecvPacketnum, osentPacketnum, successfulSent := recvNum, sentNum, recvNum;
        recvCounter := counter;
        sendCounter := (sendCounter + 1) % 256;
        StoreRequests(requested);
      }
    }

    method StoreRequests(requested: seq<uint32>)
      requires Valid() && |requested| <= 15
      modifies this`numReqPackets, reqPackets
      ensures Valid() && reqPackets[..numReqPackets] == requested
    {
      for i := 0 to |requested|
        invariant reqPackets[..i] == requested[..i]
      {
        reqPackets[i] := requested[i];
      }
      numReqPackets := |requested|;
      assert requested[..|requested|] == requested;
    }

    /** The loop tests numbers with `!=`; the window of 15 keeps it short. */
    method StoreData(maxnum: uint32, num: uint32, data: P.Payload, ghost e: P.Endpoint, ghost n: nat)
      requires Represents(e) && InWindow(e) && num == Wrap(n) && Near(n, e.recvNum) && Near(n, e.osentNum)
      requires maxnum == Wrap(e.successfulRead + 15)
      modifies this`osentPacketnum, recvbuffer
      ensures Represents(P.StoreData(e, n, data))
    {
      var sentPacket := Wrap(num - osentPacketnum);
      WrapSub(n, e.osentNum);
      WrapSmall(n - e.osentNum, 14);
      ghost var limit := e.successfulRead + 15;
      ghost var k := e.recvNum;
      var i := recvPacketnum;
      while i != maxnum
        invariant e.recvNum <= k <= limit && i == Wrap(k)
        invariant !(e.recvNum <= n < k)
        invariant Represents(e)
        decreases limit - k
      {
        WrapEqual(k, n);
        if i == num {
          WrapSlot(k);
          recvbuffer[i % P.MAX_QUEUE_NUM] := data;
          if sentPacket < P.BUFFER_PACKET_NUM {
            osentPacketnum := num;
          }
          return;
        }
        WrapEqual(k, limit);
        WrapAdd(k, 1);
        i := Wrap(i + 1);
        k := k + 1;
      }
      WrapEqual(k, limit);
    }

    method AddRecv(num: uint32, data: P.Payload, ghost e: P.Endpoint, ghost n: nat)
      requires Represents(e) && InWindow(e) && num == Wrap(n) && Near(n, e.recvNum) && Near(n, e.osentNum)
      modifies this, recvbuffer
      ensures Represents(P.AddRecv(e, n, data))
    {
      var maxnum := Wrap(successfulRead + P.BUFFER_PACKET_NUM);
      WrapAdd(e.successfulRead, 15);
      StoreData(maxnum, num, data, e, n);
      Advance(maxnum, P.StoreData(e, n, data));
    }

    /** The second loop of add_recv. */
    method Advance(maxnum: uint32, ghost e: P.Endpoint)
      requires Represents(e) && e.recvNum <= e.successfulRead + 15 <= e.recvNum + 15
      requires maxnum == Wrap(e.successfulRead + 15)
      modifies this
      ensures Represents(e.(recvNum := P.LastInOrder(e.recvRing, e.recvNum, e.recvNum, e.successfulRead + 15)))
    {
      ghost var limit := e.successfulRead + 15;
      ghost var k := e.recvNum;
      ghost var last: nat := e.recvNum;
      var i := recvPacketnum;
      while i != maxnum
        invariant e.recvNum <= k <= limit && i == Wrap(k)
        invariant last <= k <= last + 1
        invariant Represents(e.(recvNum := last))
        invariant P.LastInOrder(e.recvRing, e.recvNum, e.recvNum, limit) == P.LastInOrder(e.recvRing, last, k, limit)
        decreases limit - k
      {
        WrapEqual(k, limit);
        WrapSlot(k);
        WrapAdd(k, 1);
        if |recvbuffer[i % P.MAX_QUEUE_NUM]| != 0 {
          recvPacketnum := i;
          last := k;
        } else {
          break;
        }
        i := Wrap(i + 1);
        k := k + 1;
      }
      WrapEqual(k, limit);
    }

    method HandleData(num: uint32, data: P.Payload, ghost e: P.Endpoint, ghost n: nat)
      requires Represents(e) && InWindow(e) && num == Wrap(n) && Recent(e, P.Data(n, data))
      modifies this, recvbuffer
      ensures Represents(P.HandleData(e, n, data))
    {
      if status == 3 && 0 < |data| <= P.MAX_DATA_SIZE {
        AddRecv(num, data, e, n);
      }
    }

    method Receive(packet: WirePacket, ghost e: P.Endpoint, ghost p: P.Packet) returns (reply: Option<WirePacket>)
      requires Represents(e) && InWindow(e) && Recent(e, p) && packet == Wire(p)
      modifies this, sendbuffer, recvbuffer, reqPackets
      ensures Represents(P.Handle(e, p).0)
      ensures reply == WireOption(P.Handle(e, p).1)
    {
      reply := None;
      match packet
      case Handshake(id1, id2) =>
        HandshakeSame(p);
        reply := HandleHandshake(id1, id2, e);
      case Sync(counter, recvNum, sentNum, requested) =>
        reply := HandleSync(counter, recvNum, sentNum, requested, e, p);
      case Data(num, data) =>
        HandleData(num, data, e, p.num);
    }

    /** The status tests of do_new, do_SYNC and do_data, and what follows them. */
    method Emit(event: WireEvent, ghost e: P.Endpoint, ghost ev: P.Event) returns (packet: Option<WirePacket>)
      requires Represents(e) && InRange(e, ev) && event == WireEventOf(ev)
      requires ev.EmitHandshake? || ev.EmitSync? || ev.EmitData?
      modifies this, reqPackets
      ensures Represents(Stepped(e, ev).0)
      ensures packet == WireOption(Stepped(e, ev).1)
    {
      packet := None;
      if event.EmitHandshake? && status == 1 {
        packet := Some(Handshake(handshakeId, 0));
      } else if event.EmitSync? && (status == 2 || status == 3) {
        var sync := SendSync(e);
        packet := Some(sync);
      } else if event.EmitData? && status == 3 {
        var queued := SendQueue(e);
        if queued != 0 {
          packet := SendData(e);
        }
      }
    }

    /** Any event; `data` is what read_packet returns, `ok` what write_packet returns. */
    method Step(event: WireEvent, ghost e: P.Endpoint, ghost ev: P.Event)
      returns (packet: Option<WirePacket>, data: P.Payload, ok: bool)
      requires Represents(e) && InRange(e, ev) && event == WireEventOf(ev)
      modifies this, sendbuffer, recvbuffer, reqPackets
      ensures Represents(Stepped(e, ev).0)
      ensures packet == WireOption(Stepped(e, ev).1)
      ensures data == if ev.Read? && e.status >= 1 then P.ReadPacket(e).1 else []
      ensures ok <==> ev.Write? && e.status >= 1 && P.CanWrite(e, ev.data)
    {
      packet, data, ok := None, [], false;
      match event
      case Open => NewConnection(e);
      case Write(payload) =>
        if status >= 1 {
          ok := WritePacket(payload, e);
        }
      case Read =>
        if status >= 1 {
          data := ReadPacket(e);
        }
      case Receive(p) => packet := Receive(p, e, ev.packet);
      case _ => packet := Emit(event, e, ev);
    }

    /** The record follows the endpoint through every history that stays in range. */
    method Run(events: seq<WireEvent>, ghost e: P.Endpoint, ghost evs: seq<P.Event>)
      requires Represents(e) && |events| == |evs|
      requires forall i :: 0 <= i < |evs| ==> events[i] == WireEventOf(evs[i])
      requires forall i :: 0 <= i < |evs| ==> InRange(ApplyAll(e, evs[..i]), evs[i])
      modifies this, sendbuffer, recvbuffer, reqPackets
      ensures Represents(ApplyAll(e, evs))
    {
      for i := 0 to |events|
        invariant Represents(ApplyAll(e, evs[..i]))
      {
        HistoryNext(e, evs, i);
        var _, _, _ := Step(events[i], ApplyAll(e, evs[..i]), evs[i]);
      }
      assert evs[..|evs|] == evs;
    }
  }

  // ---------- honest ends stay in the range where the widths agree ----------

  lemma HonestEndInWindow(p: LosslessSystem.Side, q: LosslessSystem.Side)
    requires LosslessSystem.Half(p, q) && LosslessSystem.Half(q, p)
    ensures InWindow(p.conn) && RequestsFit(p.conn)
  {
    MissingKeeps(p.conn);
  }

  /** The packet is not 2^31 or more numbers older than what its receiver has reached. */
  ghost predicate NotStale(e: P.Endpoint, p: P.Packet) {
    match p
    case Handshake(id1, id2) => true
    case Sync(c, r, s, req) =>
      && (e.status >= 2 ==> r > e.orecvNum - 0x8000_0000)
      && (e.status == 3 ==> s > e.osentNum - 0x8000_0000)
    case Data(num, payload) => e.status == 3 ==> num > e.osentNum - 0x8000_0000
  }

  lemma HonestPacketRecent(p: LosslessSystem.Side, q: LosslessSystem.Side, packet: P.Packet)
    requires LosslessSystem.Half(p, q) && LosslessSystem.Half(q, p)
    requires packet in q.sent && NotStale(p.conn, packet)
    ensures Recent(p.conn, packet)
  {
    assert LosslessSystem.PacketInv(q, p, packet);
  }

  /**
   In every run of two honest ends each endpoint stays in the range in which the 32-bit code and
   the unbounded protocol agree, and so does every packet that is not 2^31 numbers old.
   */
  lemma RunsStayInRange(run: seq<LosslessSystem.System>, i: nat)
    requires LosslessSystem.IsRun(run) && i < |run|
    ensures InWindow(run[i].x.conn) && RequestsFit(run[i].x.conn)
    ensures InWindow(run[i].y.conn) && RequestsFit(run[i].y.conn)
    ensures forall p :: p in run[i].y.sent && NotStale(run[i].x.conn, p) ==> Recent(run[i].x.conn, p)
    ensures forall p :: p in run[i].x.sent && NotStale(run[i].y.conn, p) ==> Recent(run[i].y.conn, p)
  {
    var s := run[i];
    LosslessSystem.RunInv(run, i);
    HonestEndInWindow(s.x, s.y);
    HonestEndInWindow(s.y, s.x);
    forall p | p in s.y.sent && NotStale(s.x.conn, p)
      ensures Recent(s.x.conn, p)
    {
      HonestPacketRecent(s.x, s.y, p);
    }
    forall p | p in s.x.sent && NotStale(s.y.conn, p)
      ensures Recent(s.y.conn, p)
    {
      HonestPacketRecent(s.y, s.x, p);
    }
  }
}

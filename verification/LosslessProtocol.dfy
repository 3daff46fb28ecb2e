/**
 One end of a Lossless UDP connection, as values.

 Every function mirrors one function of toxcore/Lossless_UDP.c. Sequence numbers and SYNC
 counters are unbounded here; the only trace of their width is the 8-bit comparison of SYNC
 counters. `LosslessConnection` shows that the 32-bit code computes these functions.
 */
module LosslessProtocol {
  import opened Bytes
  import opened Wrappers

  const MAX_QUEUE_NUM: nat := 16
  const BUFFER_PACKET_NUM: nat := 15
  const MAX_DATA_SIZE: nat := 1024

  type Payload = seq<Byte>

  const EMPTY_SLOTS: seq<Payload> := [[], [], [], [], [], [], [], [], [], [], [], [], [], [], [], []]

  /** A buffer of MAX_QUEUE_NUM slots; a slot of size 0 is empty. */
  type Ring = r: seq<Payload> | |r| == 16 witness EMPTY_SLOTS

  datatype Packet =
    | Handshake(id1: nat, id2: nat)
    | Sync(counter: nat, recvNum: nat, sentNum: nat, requested: seq<nat>)
    | Data(num: nat, payload: Payload)

  /** `handshakeId` is what handshake_id() yields for the peer; it is stable within one epoch. */
  datatype Endpoint = Endpoint(
    handshakeId: nat,
    status: nat,
    sendRing: Ring,
    recvRing: Ring,
    recvNum: nat,
    orecvNum: nat,
    sentNum: nat,
    osentNum: nat,
    sendbuffNum: nat,
    successfulSent: nat,
    successfulRead: nat,
    requested: seq<nat>,
    recvCounter: nat,
    sendCounter: nat)

  const EMPTY_RING: Ring := EMPTY_SLOTS

  function At(r: Ring, n: nat): Payload {
    r[n % 16]
  }

  function Put(r: Ring, n: nat, p: Payload): Ring {
    r[n % 16 := p]
  }

  /** No connection to the peer: the zeroed record. */
  function Closed(id: nat): Endpoint {
    Endpoint(id, 0, EMPTY_RING, EMPTY_RING, 0, 0, 0, 0, 0, 0, 0, [], 0, 0)
  }

  // ---------- opening ----------

  function NewConnection(e: Endpoint): Endpoint {
    if e.status != 0 then e
    else
      Closed(e.handshakeId).(
      status := 1,
      sentNum := e.handshakeId,
      sendbuffNum := e.handshakeId,
      successfulSent := e.handshakeId)
  }

  function HandleHandshake(e: Endpoint, id1: nat, id2: nat): (Endpoint, Option<Packet>) {
    if id2 == 0 && e.status < 3 then
      (e, Some(Handshake(e.handshakeId, id1)))
    else if e.status == 1 && id2 == e.handshakeId then
      (e.(status := 2, orecvNum := id2, osentNum := id1, recvNum := id1, successfulRead := id1), None)
    else
      (e, None)
  }

  // ---------- queues ----------

  function SendQueue(e: Endpoint): int {
    e.sendbuffNum - e.successfulSent
  }

  function RecvQueue(e: Endpoint): int {
    e.recvNum - e.successfulRead
  }

  predicate CanWrite(e: Endpoint, data: Payload) {
    0 < |data| <= MAX_DATA_SIZE && SendQueue(e) < BUFFER_PACKET_NUM
  }

  function WritePacket(e: Endpoint, data: Payload): Endpoint {
    if CanWrite(e, data) then
      e.(sendRing := Put(e.sendRing, e.sendbuffNum, data), sendbuffNum := e.sendbuffNum + 1)
    else e
  }

  /** The returned payload is empty exactly when there was nothing to read. */
  function ReadPacket(e: Endpoint): (Endpoint, Payload) {
    if RecvQueue(e) == 0 then (e, [])
    else
      (e.(successfulRead := e.successfulRead + 1, recvRing := Put(e.recvRing, e.successfulRead, [])),
       At(e.recvRing, e.successfulRead))
  }

  // ---------- sending ----------

  /** The numbers in [i, limit) whose slot is empty. */
  function EmptySlots(r: Ring, i: nat, limit: nat): seq<nat>
    decreases limit - i
  {
    if i >= limit then []
    else (if At(r, i) == [] then [i] else []) + EmptySlots(r, i + 1, limit)
  }

  function MissingPackets(e: Endpoint): (Endpoint, seq<nat>) {
    if RecvQueue(e) >= BUFFER_PACKET_NUM - 1 then (e, [])
    else
      var missing := EmptySlots(e.recvRing, e.recvNum, e.osentNum);
      (if missing == [] then e.(recvNum := e.osentNum) else e, missing)
  }

  /** The packet acknowledges the receive number from before missing_packets may move it. */
  function SendSync(e: Endpoint): (Endpoint, Packet) {
    var (e', missing) := MissingPackets(e);
    (e', Sync(e.sendCounter, e.recvNum, e.sentNum, missing))
  }

  function DataPacket(e: Endpoint, num: nat): Packet {
    Data(num, At(e.sendRing, num))
  }

  function SendData(e: Endpoint): (Endpoint, Option<Packet>) {
    if |e.requested| > 0 then
      (e.(requested := e.requested[1..]), Some(DataPacket(e, e.requested[0])))
    else if e.sendbuffNum != e.sentNum then
      (e.(sentNum := e.sentNum + 1), Some(DataPacket(e, e.sentNum)))
    else
      (e, None)
  }

  // ---------- receiving ----------

  /** A SYNC for which there is no connection yet. */
  function HandleSync1(e: Endpoint, r: nat, s: nat): Endpoint {
    if e.handshakeId != r then e
    else
      Closed(e.handshakeId).(
      status := 2,
      sendCounter := 127,
      orecvNum := r, sentNum := r, sendbuffNum := r, successfulSent := r,
      osentNum := s, recvNum := s, successfulRead := s)
  }

  /** A SYNC that completes the handshake. */
  function HandleSync2(e: Endpoint, c: nat, r: nat): (Endpoint, Option<Packet>) {
    if r == e.orecvNum then
      var (e', p) := SendSync(e.(status := 3, recvCounter := c, sendCounter := e.sendCounter + 1));
      (e', Some(p))
    else (e, None)
  }

  /** `(counter - recv_counter)` as an unsigned 8-bit difference. */
  function CounterGap(e: Endpoint, c: nat): nat {
    (c - e.recvCounter) % 256
  }

  predicate SyncAccepted(e: Endpoint, c: nat, r: nat, s: nat) {
    && 0 <= r - e.orecvNum <= BUFFER_PACKET_NUM
    && 0 <= s - e.osentNum <= BUFFER_PACKET_NUM
    && 0 < CounterGap(e, c) < 10
  }

  /** A SYNC on an established connection: acknowledgement and request list are replaced together. */
  function HandleSync3(e: Endpoint, c: nat, r: nat, s: nat, req: seq<nat>): Endpoint {
    if SyncAccepted(e, c, r, s) then
      e.(orecvNum := r, osentNum := s, successfulSent := r,
      recvCounter := c, sendCounter := e.sendCounter + 1, requested := req)
    else e
  }

  function HandleSync(e: Endpoint, c: nat, r: nat, s: nat, req: seq<nat>): (Endpoint, Option<Packet>) {
    if |req| > BUFFER_PACKET_NUM then (e, None)
    else if e.status == 0 then (HandleSync1(e, r, s), None)
    else if e.status == 2 then HandleSync2(e, c, r)
    else if e.status == 3 then (HandleSync3(e, c, r, s, req), None)
    else (e, None)
  }

  /** The last of the filled slots that follow `i` without a gap, or `last` if slot i is empty. */
  function LastInOrder(r: Ring, last: nat, i: nat, limit: nat): nat
    decreases limit - i
  {
    if i >= limit || At(r, i) == [] then last
    else LastInOrder(r, i, i + 1, limit)
  }

  function StoreData(e: Endpoint, num: nat, data: Payload): Endpoint {
    if e.recvNum <= num < e.successfulRead + BUFFER_PACKET_NUM then
      e.(recvRing := Put(e.recvRing, num, data),
      osentNum := if 0 <= num - e.osentNum < BUFFER_PACKET_NUM then num else e.osentNum)
    else e
  }

  function AddRecv(e: Endpoint, num: nat, data: Payload): Endpoint {
    var e' := StoreData(e, num, data);
    e'.(recvNum := LastInOrder(e'.recvRing, e.recvNum, e.recvNum, e.successfulRead + BUFFER_PACKET_NUM))
  }

  function HandleData(e: Endpoint, num: nat, data: Payload): Endpoint {
    if e.status == 3 && 0 < |data| <= MAX_DATA_SIZE then AddRecv(e, num, data) else e
  }

  function Handle(e: Endpoint, p: Packet): (Endpoint, Option<Packet>) {
    match p
    case Handshake(id1, id2) => HandleHandshake(e, id1, id2)
    case Sync(c, r, s, req) => HandleSync(e, c, r, s, req)
    case Data(num, data) => (HandleData(e, num, data), None)
  }

  // ---------- everything one end can do ----------

  datatype Event =
    | Open
    | EmitHandshake
    | Write(data: Payload)
    | Read
    | EmitSync
    | EmitData
    | Receive(packet: Packet)

  /** The status tests of do_new, do_SYNC and do_data; reading and writing need a connection. */
  predicate Enabled(e: Endpoint, ev: Event) {
    match ev
    case Open => true
    case EmitHandshake => e.status == 1
    case Write(_) => e.status >= 1
    case Read => e.status >= 1
    case EmitSync => e.status == 2 || e.status == 3
    case EmitData => e.status == 3 && SendQueue(e) != 0
    case Receive(_) => true
  }

  /** The new state and the packet handed to the network, if any. */
  function Apply(e: Endpoint, ev: Event): (Endpoint, Option<Packet>)
    requires Enabled(e, ev)
  {
    match ev
    case Open => (NewConnection(e), None)
    case EmitHandshake => (e, Some(Handshake(e.handshakeId, 0)))
    case Write(data) => (WritePacket(e, data), None)
    case Read => (ReadPacket(e).0, None)
    case EmitSync => var (e', p) := SendSync(e); (e', Some(p))
    case EmitData => SendData(e)
    case Receive(p) => Handle(e, p)
  }

  // ---------- slots ----------

  lemma PutAt(r: Ring, n: nat, p: Payload, m: nat)
    requires -16 < n - m < 16
    ensures At(Put(r, n, p), m) == if n == m then p else At(r, m)
  {
    if n < m {
      assert n % 16 != m % 16;
    } else if m < n {
      assert n % 16 != m % 16;
    }
  }

  lemma {:induction false} EmptySlotsSound(r: Ring, i: nat, limit: nat)
    ensures forall n :: n in EmptySlots(r, i, limit) <==> i <= n < limit && At(r, n) == []
    ensures EmptySlots(r, i, limit) == [] <==> forall n :: i <= n < limit ==> At(r, n) != []
    ensures |EmptySlots(r, i, limit)| <= if i <= limit then limit - i else 0
    decreases limit - i
  {
    if i < limit {
      EmptySlotsSound(r, i + 1, limit);
    }
  }

  lemma {:induction false} EmptySlotsNext(r: Ring, i: nat, n: nat)
    requires i <= n
    ensures EmptySlots(r, i, n + 1) == EmptySlots(r, i, n) + (if At(r, n) == [] then [n] else [])
    decreases n - i
  {
    if i < n {
      EmptySlotsNext(r, i + 1, n);
    }
  }

  lemma {:induction false} LastInOrderSound(r: Ring, last: nat, i: nat, limit: nat)
    requires last <= i <= last + 1
    ensures var k := LastInOrder(r, last, i, limit);
      || (k == last && (i >= limit || At(r, i) == []))
      || (i <= k < limit && (forall n :: i <= n <= k ==> At(r, n) != []) && (k + 1 < limit ==> At(r, k + 1) == []))
    decreases limit - i
  {
    if i < limit && At(r, i) != [] {
      LastInOrderSound(r, i, i + 1, limit);
    }
  }
}

/**
 The receive ring of one end against any peer, honest or not.

 The one spare slot (16 slots for a window of 15) is what keeps numbers apart: the slot just
 behind `successfulRead` is always empty, so a scan that runs past the window stops there.

 missing_packets writes into an array of 15. `RequestCount` says how many numbers it
 writes; two honest ends never exceed 15 (`LosslessTheorems.CurrentSyncsFit`), a dishonest peer can
 make it more (`TooManyRequests`). From there on the statements of this module are about the
 functions of `LosslessProtocol` and no longer about the code.
 */
module LosslessReceive {
  import opened LosslessProtocol

  ghost predicate RecvInv(e: Endpoint) {
    && e.successfulRead <= e.recvNum <= e.successfulRead + 15
    && e.recvNum <= e.osentNum
    && (forall n :: e.successfulRead <= n < e.recvNum ==> At(e.recvRing, n) != [])
    && (forall n :: e.osentNum < n < e.successfulRead + 15 ==> At(e.recvRing, n) == [])
    && At(e.recvRing, e.successfulRead + 15) == []
  }

  /** Before data can arrive the ring is untouched. */
  ghost predicate ReceiveInv(e: Endpoint) {
    && RecvInv(e)
    && (e.status < 3 ==> e.recvRing == EMPTY_RING && e.recvNum == e.osentNum == e.successfulRead)
  }

  lemma ReadKeeps(e: Endpoint)
    requires RecvInv(e)
    ensures RecvInv(ReadPacket(e).0)
    ensures RecvQueue(e) != 0 <==> ReadPacket(e).1 != []
  {
    if RecvQueue(e) != 0 {
      var e' := ReadPacket(e).0;
      forall n | e.successfulRead <= n <= e.successfulRead + 15
        ensures At(e'.recvRing, n) == if n == e.successfulRead then [] else At(e.recvRing, n)
      {
        PutAt(e.recvRing, e.successfulRead, [], n);
      }
      assert (e.successfulRead + 16) % 16 == e.successfulRead % 16;
    }
  }

  /** missing_packets moves the receive number only inside the window. */
  lemma MissingKeeps(e: Endpoint)
    requires RecvInv(e)
    ensures RecvInv(MissingPackets(e).0)
    ensures MissingPackets(e).0 == e.(recvNum := MissingPackets(e).0.recvNum)
    ensures MissingPackets(e).0.recvNum == e.recvNum || MissingPackets(e).0.recvNum == e.osentNum
    ensures forall n :: n in MissingPackets(e).1 ==> e.recvNum <= n < e.osentNum
    ensures |MissingPackets(e).1| <= e.osentNum - e.recvNum
    ensures e.osentNum <= e.recvNum + 15 ==> |MissingPackets(e).1| <= 15
  {
    EmptySlotsSound(e.recvRing, e.recvNum, e.osentNum);
    if RecvQueue(e) < 14 && EmptySlots(e.recvRing, e.recvNum, e.osentNum) == [] {
      assert e.successfulRead + 15 !in EmptySlots(e.recvRing, e.recvNum, e.osentNum);
      forall n | e.recvNum <= n < e.osentNum
        ensures At(e.recvRing, n) != []
      {
        assert n !in EmptySlots(e.recvRing, e.recvNum, e.osentNum);
      }
    }
  }

  lemma StoreKeeps(e: Endpoint, num: nat, data: Payload)
    requires RecvInv(e) && data != []
    ensures var e' := StoreData(e, num, data);
      && RecvInv(e')
      && e.osentNum <= e'.osentNum
      && e'.recvNum == e.recvNum
      && (forall n :: e.successfulRead <= n <= e.successfulRead + 15 ==>
            At(e'.recvRing, n) == if n == num && e.recvNum <= num < e.successfulRead + 15 then data else At(e.recvRing, n))
  {
    if e.recvNum <= num < e.successfulRead + 15 {
      forall n | e.successfulRead <= n <= e.successfulRead + 15
        ensures At(Put(e.recvRing, num, data), n) == if n == num then data else At(e.recvRing, n)
      {
        PutAt(e.recvRing, num, data, n);
      }
    }
  }

  lemma AddRecvKeeps(e: Endpoint, num: nat, data: Payload)
    requires RecvInv(e) && data != []
    ensures RecvInv(AddRecv(e, num, data))
    ensures e.recvNum <= AddRecv(e, num, data).recvNum
    ensures AddRecv(e, num, data) == StoreData(e, num, data).(recvNum := AddRecv(e, num, data).recvNum)
  {
    var e' := StoreData(e, num, data);
    StoreKeeps(e, num, data);
    LastInOrderSound(e'.recvRing, e.recvNum, e.recvNum, e.successfulRead + 15);
    var k := AddRecv(e, num, data).recvNum;
    if k != e.recvNum {
      assert At(e'.recvRing, k) != [];
    }
  }

  lemma EmptyRing(n: nat)
    ensures At(EMPTY_RING, n) == []
  {
    var i := n % 16;
    assert i == 0 || i == 1 || i == 2 || i == 3 || i == 4 || i == 5 || i == 6 || i == 7 || i == 8
           || i == 9 || i == 10 || i == 11 || i == 12 || i == 13 || i == 14 || i == 15;
  }

  lemma EmptyRings()
    ensures forall n: nat :: At(EMPTY_RING, n) == []
  {
    forall n: nat
      ensures At(EMPTY_RING, n) == []
    {
      EmptyRing(n);
    }
  }

  lemma FreshRing(e: Endpoint)
    requires e.recvRing == EMPTY_RING && e.recvNum == e.osentNum == e.successfulRead
    ensures RecvInv(e)
  {
    EmptyRings();
  }

  lemma OpeningKeeps(e: Endpoint, id1: nat, id2: nat)
    requires ReceiveInv(e)
    ensures ReceiveInv(NewConnection(e))
    ensures ReceiveInv(HandleHandshake(e, id1, id2).0)
  {
    if e.status == 0 {
      FreshRing(NewConnection(e));
    } else if e.status == 1 {
      FreshRing(e.(recvNum := id1, osentNum := id1, successfulRead := id1));
    }
  }

  lemma SyncKeeps(e: Endpoint, c: nat, r: nat, s: nat, req: seq<nat>)
    requires ReceiveInv(e)
    ensures ReceiveInv(HandleSync(e, c, r, s, req).0)
  {
    if e.status == 0 {
      FreshRing(Closed(e.handshakeId).(recvNum := s, osentNum := s, successfulRead := s));
    } else if e.status == 2 {
      MissingKeeps(e.(status := 3, recvCounter := c, sendCounter := e.sendCounter + 1));
    }
  }

  lemma EventKeeps(e: Endpoint, ev: Event)
    requires ReceiveInv(e) && Enabled(e, ev)
    ensures ReceiveInv(Apply(e, ev).0)
  {
    match ev
    case Open => OpeningKeeps(e, 0, 0);
    case EmitHandshake =>
    case Write(_) =>
    case Read => ReadKeeps(e);
    case EmitSync => MissingKeeps(e);
    case EmitData =>
    case Receive(Handshake(id1, id2)) => OpeningKeeps(e, id1, id2);
    case Receive(Sync(c, r, s, req)) => SyncKeeps(e, c, r, s, req);
    case Receive(Data(num, data)) =>
      if e.status == 3 && 0 < |data| <= MAX_DATA_SIZE {
        AddRecvKeeps(e, num, data);
      }
  }

  /** What a sequence of events makes of an endpoint; events that are not enabled do nothing. */
  function ApplyAll(e: Endpoint, evs: seq<Event>): Endpoint {
    if evs == [] then e
    else
      var before := ApplyAll(e, evs[..|evs| - 1]);
      if Enabled(before, evs[|evs| - 1]) then Apply(before, evs[|evs| - 1]).0 else before
  }

  lemma ApplyAllNext(e: Endpoint, evs: seq<Event>, ev: Event)
    ensures ApplyAll(e, evs + [ev]) ==
            if Enabled(ApplyAll(e, evs), ev) then Apply(ApplyAll(e, evs), ev).0 else ApplyAll(e, evs)
  {
    assert (evs + [ev])[..|evs|] == evs;
  }

  // ---------- every slot holds the packet with its own number ----------

  ghost predicate OwnPackets(e: Endpoint, evs: seq<Event>) {
    forall n :: e.successfulRead <= n < e.successfulRead + 15 && At(e.recvRing, n) != [] ==>
      Receive(Data(n, At(e.recvRing, n))) in evs
  }

  lemma EmptyRingOwns(e: Endpoint, evs: seq<Event>)
    requires e.recvRing == EMPTY_RING
    ensures OwnPackets(e, evs)
  {
    EmptyRings();
  }

  lemma ReadOwns(e: Endpoint, evs: seq<Event>)
    requires RecvInv(e) && OwnPackets(e, evs)
    ensures OwnPackets(ReadPacket(e).0, evs)
  {
    forall n | e.successfulRead < n <= e.successfulRead + 15
      ensures At(Put(e.recvRing, e.successfulRead, []), n) == At(e.recvRing, n)
    {
      PutAt(e.recvRing, e.successfulRead, [], n);
    }
  }

  lemma DataOwns(e: Endpoint, evs: seq<Event>, num: nat, data: Payload)
    requires RecvInv(e) && OwnPackets(e, evs) && data != []
    ensures OwnPackets(AddRecv(e, num, data), evs + [Receive(Data(num, data))])
  {
    StoreKeeps(e, num, data);
    AddRecvKeeps(e, num, data);
  }

  lemma EventOwns(e: Endpoint, evs: seq<Event>, ev: Event)
    requires ReceiveInv(e) && OwnPackets(e, evs) && Enabled(e, ev)
    ensures OwnPackets(Apply(e, ev).0, evs + [ev])
  {
    var e' := Apply(e, ev).0;
    if ev.Read? {
      ReadOwns(e, evs);
    } else if ev.Receive? && ev.packet.Data? && e.status == 3 && 0 < |ev.packet.payload| <= MAX_DATA_SIZE {
      DataOwns(e, evs, ev.packet.num, ev.packet.payload);
    } else if e.status < 3 {
      EmptyRingOwns(e', evs);
    } else {
      assert e'.recvRing == e.recvRing && e'.successfulRead == e.successfulRead;
    }
  }

  /**
   For every history of one end, forged and malformed packets included: the readable numbers all
   hold a packet, every slot of the window is empty or holds a payload that arrived under its own
   number, what is read next arrived under the number that is due, the receive number stays in the
   window, and the spare slot is empty.
   */
  lemma {:induction false} ReceiveRingSafe(id: nat, evs: seq<Event>)
    ensures var e := ApplyAll(Closed(id), evs);
      && ReceiveInv(e)
      && OwnPackets(e, evs)
      && (RecvQueue(e) > 0 ==> Receive(Data(e.successfulRead, ReadPacket(e).1)) in evs)
  {
    if evs == [] {
      FreshRing(Closed(id));
      EmptyRingOwns(Closed(id), evs);
    } else {
      var earlier, ev := evs[..|evs| - 1], evs[|evs| - 1];
      assert evs == earlier + [ev];
      ReceiveRingSafe(id, earlier);
      var before := ApplyAll(Closed(id), earlier);
      if Enabled(before, ev) {
        EventKeeps(before, ev);
        EventOwns(before, earlier, ev);
      }
    }
  }

  // ---------- how many numbers missing_packets writes ----------

  /** No packet has arrived ahead of one that is missing. */
  ghost predicate NoneOutOfOrder(e: Endpoint) {
    forall n :: e.recvNum <= n < e.successfulRead + 15 ==> At(e.recvRing, n) == []
  }

  lemma SlotTurn(r: Ring, n: nat, i: nat)
    ensures At(r, n + i) == At(r, n + i % 16)
  {
  }

  lemma SlotBefore(r: Ring, n: nat)
    requires n >= 16
    ensures At(r, n) == At(r, n - 16)
  {
  }

  lemma SlotOfFirstTurn(e: Endpoint, k: nat)
    requires RecvInv(e) && NoneOutOfOrder(e) && k < 16
    ensures At(e.recvRing, e.recvNum + k) == [] <==> k < 16 - RecvQueue(e)
  {
    if k >= 16 - RecvQueue(e) {
      SlotBefore(e.recvRing, e.recvNum + k);
    }
  }

  /** The scan goes round the ring: empty slots, then the readable ones, then again. */
  lemma SlotInOrder(e: Endpoint, i: nat)
    requires RecvInv(e) && NoneOutOfOrder(e)
    ensures At(e.recvRing, e.recvNum + i) == [] <==> i % 16 < 16 - RecvQueue(e)
  {
    SlotTurn(e.recvRing, e.recvNum, i);
    SlotOfFirstTurn(e, i % 16);
  }

  function Min(a: int, b: int): int {
    if a < b then a else b
  }

  /** How many of `ahead` consecutive numbers fall on the first `empty` of 16 slots. */
  function Turns(empty: nat, ahead: nat): int {
    empty * (ahead / 16) + Min(ahead % 16, empty)
  }

  lemma TurnsNext(empty: nat, ahead: nat)
    requires empty <= 16
    ensures Turns(empty, ahead + 1) == Turns(empty, ahead) + if ahead % 16 < empty then 1 else 0
  {
    if ahead % 16 == 15 {
      assert (ahead + 1) / 16 == ahead / 16 + 1;
      assert empty * (ahead / 16 + 1) == empty * (ahead / 16) + empty;
    } else {
      assert (ahead + 1) / 16 == ahead / 16;
    }
  }

  lemma {:induction false} CountInOrder(e: Endpoint, ahead: nat)
    requires RecvInv(e) && NoneOutOfOrder(e)
    ensures |EmptySlots(e.recvRing, e.recvNum, e.recvNum + ahead)| == Turns(16 - RecvQueue(e), ahead)
  {
    if ahead > 0 {
      CountInOrder(e, ahead - 1);
      EmptySlotsNext(e.recvRing, e.recvNum, e.recvNum + (ahead - 1));
      SlotInOrder(e, ahead - 1);
      TurnsNext(16 - RecvQueue(e), ahead - 1);
    }
  }

  /** With nothing out of order, the length of the request list from the numbers alone. */
  lemma RequestsInOrder(e: Endpoint)
    requires RecvInv(e) && NoneOutOfOrder(e) && RecvQueue(e) < 14
    ensures |MissingPackets(e).1| == Turns(16 - RecvQueue(e), e.osentNum - e.recvNum)
    ensures RecvQueue(e) == 0 ==> |MissingPackets(e).1| == e.osentNum - e.recvNum
  {
    CountInOrder(e, e.osentNum - e.recvNum);
  }

  /** How many of the k numbers from i on are in the set. */
  function Among(f: nat -> bool, i: nat, k: nat): nat {
    if k == 0 then 0 else Among(f, i, k - 1) + if f(i + (k - 1)) then 1 else 0
  }

  ghost predicate Periodic(f: nat -> bool, turn: nat) {
    forall n: nat :: f(n) == f(n + turn)
  }

  lemma {:induction false} AmongAgain(f: nat -> bool, i: nat, k: nat, turn: nat)
    requires Periodic(f, turn)
    ensures Among(f, i, turn + k) == Among(f, i, turn) + Among(f, i, k)
  {
    if k > 0 {
      AmongAgain(f, i, k - 1, turn);
      assert f(i + (k - 1)) == f(i + (k - 1) + turn);
      assert turn + k - 1 == turn + (k - 1) && i + (k - 1) + turn == i + (turn + k - 1);
    }
  }

  /** a, n times. */
  function Repeated(a: nat, n: nat): nat {
    if n == 0 then 0 else Repeated(a, n - 1) + a
  }

  lemma OneTurnMore(a: nat, turns: nat)
    requires turns > 0
    ensures a * turns == a * (turns - 1) + a
  {
  }

  lemma {:induction false} RepeatedIs(a: nat, n: nat)
    ensures Repeated(a, n) == a * n
  {
    if n > 0 {
      RepeatedIs(a, n - 1);
      OneTurnMore(a, n);
    }
  }

  lemma {:induction false} AmongTurns(f: nat -> bool, i: nat, turns: nat, rest: nat, turn: nat)
    requires Periodic(f, turn)
    ensures Among(f, i, Repeated(turn, turns) + rest) == Repeated(Among(f, i, turn), turns) + Among(f, i, rest)
    decreases turns
  {
    if turns > 0 {
      AmongTurns(f, i, turns - 1, rest, turn);
      AmongAgain(f, i, Repeated(turn, turns - 1) + rest, turn);
    }
  }

  /** The numbers whose slot is empty. */
  function Empties(r: Ring): nat -> bool {
    (n: nat) => At(r, n) == []
  }

  lemma EmptiesPeriodic(r: Ring, turn: nat)
    requires turn == 16
    ensures Periodic(Empties(r), turn)
  {
    forall n: nat
      ensures Empties(r)(n) == Empties(r)(n + turn)
    {
      assert (n + 16) % 16 == n % 16;
    }
  }

  lemma {:induction false} EmptySlotsAmong(r: Ring, i: nat, k: nat)
    ensures |EmptySlots(r, i, i + k)| == Among(Empties(r), i, k)
  {
    if k > 0 {
      EmptySlotsAmong(r, i, k - 1);
      EmptySlotsNext(r, i, i + (k - 1));
    }
  }

  /** In every state the request list has one number for each empty slot the scan meets. */
  lemma RequestCount(e: Endpoint)
    requires RecvQueue(e) < 14 && e.recvNum <= e.osentNum
    ensures |MissingPackets(e).1| == Among(Empties(e.recvRing), e.recvNum, e.osentNum - e.recvNum)
  {
    EmptySlotsAmong(e.recvRing, e.recvNum, e.osentNum - e.recvNum);
  }

  /** The scan meets every empty slot once for each full turn around the ring, and once more if the rest meets it. */
  lemma RequestsPerTurn(r: Ring, i: nat, turns: nat, rest: nat, turn: nat)
    requires turn == 16
    ensures Among(Empties(r), i, Repeated(turn, turns) + rest) ==
            Repeated(Among(Empties(r), i, turn), turns) + Among(Empties(r), i, rest)
  {
    EmptiesPeriodic(r, turn);
    AmongTurns(Empties(r), i, turns, rest, turn);
  }

  /** The end after a SYNC from nowhere has opened it and a second one has completed the handshake. */
  function Opened(id: nat, s: nat): Endpoint {
    HandleSync1(Closed(id), id, s).(status := 3, recvCounter := 5, sendCounter := 128)
  }

  lemma OpenedBySyncs(id: nat, s: nat)
    ensures var a := Receive(Sync(5, id, s, [])); ApplyAll(Closed(id), [a, a]) == Opened(id, s)
  {
    var a := Receive(Sync(5, id, s, []));
    ApplyAllNext(Closed(id), [], a);
    ApplyAllNext(Closed(id), [a], a);
    assert [] + [a] == [a] && [a] + [a] == [a, a];
  }

  /** Four SYNCs of a dishonest peer, and the next request list has 30 numbers. */
  lemma TooManyRequests(id: nat, s: nat)
    ensures var a, b := Receive(Sync(5, id, s, [])), Receive(Sync(6, id, s + 15, []));
      var e := ApplyAll(Closed(id), [a, a, b, Receive(Sync(7, id, s + 30, []))]);
      e.status == 3 && |MissingPackets(e).1| == 30
  {
    var a, b, c := Receive(Sync(5, id, s, [])), Receive(Sync(6, id, s + 15, [])), Receive(Sync(7, id, s + 30, []));
    OpenedBySyncs(id, s);
    ApplyAllNext(Closed(id), [a, a], b);
    assert [a, a] + [b] == [a, a, b];
    assert ApplyAll(Closed(id), [a, a, b]) == Opened(id, s).(osentNum := s + 15, recvCounter := 6, sendCounter := 129);
    ApplyAllNext(Closed(id), [a, a, b], c);
    assert [a, a, b] + [c] == [a, a, b, c];
    OpenedRequests(id, s);
  }

  lemma OpenedRequests(id: nat, s: nat)
    ensures var e := Opened(id, s).(osentNum := s + 30, recvCounter := 7, sendCounter := 130);
      |MissingPackets(e).1| == 30
  {
    var e := Opened(id, s).(osentNum := s + 30, recvCounter := 7, sendCounter := 130);
    EmptyRings();
    RequestsInOrder(e);
  }
}

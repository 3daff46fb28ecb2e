/**
 One end against any peer: what each packet can and cannot do to it, in plain numbers, and where the
 numbers it goes by come from.
 */
module LosslessHistory {
  import opened Wrappers
  import opened LosslessProtocol
  import opened LosslessReceive

  // ---------- what a packet can do, status by status ----------

  /** A closed end: only a SYNC that names our handshake id opens a connection, with the peer's number. */
  lemma OpensIff(e: Endpoint, p: Packet)
    requires e.status == 0
    ensures var e' := Handle(e, p).0;
      && (e'.status == 2 <==> p.Sync? && |p.requested| <= 15 && p.recvNum == e.handshakeId)
      && (e'.status != 2 ==> e' == e)
      && (e'.status == 2 ==>
            && e'.sentNum == e'.sendbuffNum == e'.successfulSent == e'.orecvNum == e.handshakeId
            && e'.recvNum == e'.osentNum == e'.successfulRead == p.sentNum)
  {
  }

  /** An end that asked for a connection: only an answer that repeats our id, which is not 0, is accepted. */
  lemma AnsweredIff(e: Endpoint, p: Packet)
    requires e.status == 1
    ensures var e' := Handle(e, p).0;
      && (e'.status == 2 <==> p.Handshake? && p.id2 == e.handshakeId && p.id2 != 0)
      && (e'.status != 2 ==> e' == e)
      && (e'.status == 2 ==>
            && e'.recvNum == e'.osentNum == e'.successfulRead == p.id1 && e'.orecvNum == e.handshakeId
            && e'.sentNum == e.sentNum && e'.sendbuffNum == e.sendbuffNum)
  {
  }

  /** Requests for a handshake are answered with both ids until the connection is established, and change nothing. */
  lemma RequestAnswered(e: Endpoint, id1: nat)
    ensures Handle(e, Handshake(id1, 0)).1 == if e.status < 3 then Some(Handshake(e.handshakeId, id1)) else None
    ensures e.handshakeId != 0 ==> Handle(e, Handshake(id1, 0)).0 == e
  {
  }

  /** After the handshake: only a SYNC that has seen nothing of ours but our first number connects, and is answered. */
  lemma ConnectsIff(e: Endpoint, p: Packet)
    requires e.status == 2
    ensures var (e', reply) := Handle(e, p);
      && (e'.status == 3 <==> p.Sync? && |p.requested| <= 15 && p.recvNum == e.orecvNum)
      && (e'.status != 3 ==> e' == e)
      && (e'.status == 3 ==>
            && e'.recvCounter == p.counter && e'.sendCounter == e.sendCounter + 1
            && reply.Some? && reply.value.Sync? && reply.value.counter == e.sendCounter + 1
            && reply.value.recvNum == e.recvNum && reply.value.sentNum == e.sentNum)
  {
  }

  /** An established end: a SYNC acts only inside both windows of 15 and 1 to 9 counters ahead, modulo 256. */
  lemma SyncActsIff(e: Endpoint, p: Packet)
    requires e.status == 3 && p.Sync?
    ensures var e' := Handle(e, p).0;
      && (e' != e <==>
            && |p.requested| <= 15
            && e.orecvNum <= p.recvNum <= e.orecvNum + 15
            && e.osentNum <= p.sentNum <= e.osentNum + 15
            && (p.counter - e.recvCounter) % 256 in {1, 2, 3, 4, 5, 6, 7, 8, 9})
      && (e' != e ==>
            && e'.successfulSent == e'.orecvNum == p.recvNum && e'.osentNum == p.sentNum && e'.requested == p.requested
            && e'.recvCounter == p.counter && e'.sendCounter == e.sendCounter + 1)
  {
    assert 0 < CounterGap(e, p.counter) < 10 <==>
           (p.counter - e.recvCounter) % 256 in {1, 2, 3, 4, 5, 6, 7, 8, 9};
  }

  /** Data acts only on an established end, with 1 to 1024 bytes and a number in the window. */
  lemma DataActs(e: Endpoint, num: nat, data: Payload)
    requires RecvInv(e)
    ensures var e' := Handle(e, Data(num, data)).0;
      if e.status == 3 && 1 <= |data| <= 1024 then
        && e' == e.(recvRing := e'.recvRing, recvNum := e'.recvNum, osentNum := e'.osentNum)
        && e'.osentNum == (if e.osentNum < num < e.successfulRead + 15 then num else e.osentNum)
        && (e.recvNum <= num < e.successfulRead + 15 ==> At(e'.recvRing, num) == data)
        && (!(e.recvNum <= num < e.successfulRead + 15) ==> e'.recvRing == e.recvRing)
      else e' == e
  {
    if e.status == 3 && 1 <= |data| <= 1024 {
      StoreKeeps(e, num, data);
      AddRecvKeeps(e, num, data);
    }
  }

  // ---------- bounds that hold whatever arrives ----------

  ghost predicate Bounded(e: Endpoint) {
    && e.status <= 3
    && |e.requested| <= 15
    && (forall i :: 0 <= i < 16 ==> |e.recvRing[i]| <= 1024 && |e.sendRing[i]| <= 1024)
  }

  lemma EventBounded(e: Endpoint, ev: Event)
    requires Bounded(e) && Enabled(e, ev)
    ensures Bounded(Apply(e, ev).0)
  {
  }

  // ---------- where osent_packetnum comes from ----------

  /** The number that a packet tells about its sender's progress. */
  function Told(p: Packet): nat {
    match p
    case Handshake(id1, _) => id1
    case Sync(_, _, s, _) => s
    case Data(num, _) => num
  }

  ghost predicate Carried(evs: seq<Event>, n: nat) {
    exists i :: 0 <= i < |evs| && evs[i].Receive? && Told(evs[i].packet) == n
  }

  lemma CarriedStays(evs: seq<Event>, ev: Event, n: nat)
    requires Carried(evs, n)
    ensures Carried(evs + [ev], n)
  {
    var i :| 0 <= i < |evs| && evs[i].Receive? && Told(evs[i].packet) == n;
    assert (evs + [ev])[i] == evs[i];
  }

  lemma NewlyCarried(evs: seq<Event>, ev: Event)
    requires ev.Receive?
    ensures Carried(evs + [ev], Told(ev.packet))
  {
    assert (evs + [ev])[|evs|] == ev;
  }

  lemma OsentFrom(e: Endpoint, ev: Event)
    requires ReceiveInv(e) && Enabled(e, ev) && Apply(e, ev).0.status >= 2
    ensures var e' := Apply(e, ev).0;
      || (e.status >= 2 && e'.osentNum == e.osentNum)
      || (ev.Receive? && e'.osentNum == Told(ev.packet))
  {
    if ev.Receive? && ev.packet.Data? && e.status == 3 {
      DataActs(e, ev.packet.num, ev.packet.payload);
    }
  }

  /** For every history of one end: what it takes for the peer's progress is a number that some packet carried. */
  lemma {:induction false} OsentWasTold(id: nat, evs: seq<Event>)
    ensures Bounded(ApplyAll(Closed(id), evs))
    ensures ApplyAll(Closed(id), evs).status >= 2 ==> Carried(evs, ApplyAll(Closed(id), evs).osentNum)
  {
    if evs != [] {
      var earlier, ev := evs[..|evs| - 1], evs[|evs| - 1];
      assert evs == earlier + [ev];
      OsentWasTold(id, earlier);
      ReceiveRingSafe(id, earlier);
      var e := ApplyAll(Closed(id), earlier);
      var e' := ApplyAll(Closed(id), evs);
      if Enabled(e, ev) {
        EventBounded(e, ev);
      }
      if e'.status >= 2 {
        if e.status >= 2 && e'.osentNum == e.osentNum {
          CarriedStays(earlier, ev, e.osentNum);
        } else {
          OsentFrom(e, ev);
          NewlyCarried(earlier, ev);
        }
      }
    }
  }

  /** The lag by one: a number can be read only after a packet has carried a higher one. */
  lemma ReadableLags(id: nat, evs: seq<Event>, n: nat) returns (m: nat)
    requires var e := ApplyAll(Closed(id), evs); e.status >= 2 && n < e.recvNum
    ensures m > n && Carried(evs, m)
  {
    OsentWasTold(id, evs);
    ReceiveRingSafe(id, evs);
    m := ApplyAll(Closed(id), evs).osentNum;
  }
}

/**
 No reachable state is a dead end: even if every packet sent so far is lost, both ends can still
 get across everything that was written.
 */
module LosslessProgress {
  import opened LosslessProtocol
  import opened LosslessReceive
  import opened LosslessSystem
  import opened LosslessTheorems
  import opened LosslessSync

  ghost predicate Sound(s: System) {
    Inv(s) && CounterInv(s)
  }

  ghost predicate Good(s: System) {
    Sound(s) && Established(s)
  }

  ghost predicate IsPath(path: seq<System>, s: System, s': System) {
    && |path| > 0
    && path[0] == s
    && path[|path| - 1] == s'
    && (forall i :: 0 <= i < |path| - 1 ==> FreshNext(path[i], path[i + 1]))
  }

  ghost predicate Leads(s: System, s': System) {
    exists path :: IsPath(path, s, s')
  }

  /** The network drops everything that is still under way. */
  function Lossy(s: System): System {
    System(s.x.(sent := {}), s.y.(sent := {}))
  }

  lemma LossyHalf(p: Side, q: Side)
    requires Half(p, q)
    ensures Half(p.(sent := {}), q.(sent := {}))
  {
    ReceiverStays(p, q, q.(sent := {}));
  }

  lemma LossySound(s: System)
    requires Sound(s)
    ensures Sound(Lossy(s))
  {
    LossyHalf(s.x, s.y);
    LossyHalf(s.y, s.x);
  }

  lemma LeadsSelf(s: System)
    ensures Leads(s, s)
  {
    assert IsPath([s], s, s);
  }

  lemma LeadsNext(s0: System, s: System, s': System)
    requires Leads(s0, s) && FreshNext(s, s')
    ensures Leads(s0, s')
  {
    var path :| IsPath(path, s0, s);
    assert IsPath(path + [s'], s0, s');
  }

  lemma FreshNextSwap(s: System, s': System)
    requires FreshNext(s, s')
    ensures FreshNext(Swap(s), Swap(s'))
  {
    var ev :| (ActX(s, s', ev) && Fresh(s.x.conn, ev)) || (ActX(Swap(s), Swap(s'), ev) && Fresh(s.y.conn, ev));
    assert Swap(Swap(s)) == s && Swap(Swap(s')) == s';
  }

  lemma LeadsSwap(s: System, s': System)
    requires Leads(s, s')
    ensures Leads(Swap(s), Swap(s'))
  {
    var path :| IsPath(path, s, s');
    var swapped := seq(|path|, i requires 0 <= i < |path| => Swap(path[i]));
    forall i | 0 <= i < |swapped| - 1
      ensures FreshNext(swapped[i], swapped[i + 1])
    {
      assert FreshNext(path[i], path[i + 1]);
      FreshNextSwap(path[i], path[i + 1]);
    }
    assert IsPath(swapped, Swap(s), Swap(s'));
  }

  lemma DoX(s0: System, s: System, ev: Event) returns (s': System)
    requires Sound(s) && Leads(s0, s)
    requires CanAct(s.x, s.y, ev) && Fresh(s.x.conn, ev)
    ensures s' == System(Act(s.x, ev), s.y)
    ensures Sound(s') && Leads(s0, s') && (Established(s) ==> Established(s'))
  {
    s' := System(Act(s.x, ev), s.y);
    assert ActX(s, s', ev);
    LeadsNext(s0, s, s');
    ActKeepsBoth(s.x, s.y, ev);
  }

  lemma DoY(s0: System, s: System, ev: Event) returns (s': System)
    requires Sound(s) && Leads(s0, s)
    requires CanAct(s.y, s.x, ev) && Fresh(s.y.conn, ev)
    ensures s' == System(s.x, Act(s.y, ev))
    ensures Sound(s') && Leads(s0, s') && (Established(s) ==> Established(s'))
  {
    LeadsSwap(s0, s);
    var t := DoX(Swap(s0), Swap(s), ev);
    LeadsSwap(Swap(s0), t);
    s' := Swap(t);
  }

  /** x reads all that is ready. */
  lemma {:induction false} ReadAll(s0: System, s: System) returns (s': System)
    requires Good(s) && Leads(s0, s)
    ensures Good(s') && Leads(s0, s')
    ensures s'.y == s.y
    ensures s'.x == s.x.(conn := s'.x.conn, delivered := s'.x.delivered)
    ensures s'.x.conn == s.x.conn.(recvRing := s'.x.conn.recvRing, successfulRead := s.x.conn.recvNum)
    ensures forall n :: s.x.conn.recvNum <= n < s.x.conn.successfulRead + 15 ==>
                          At(s'.x.conn.recvRing, n) == At(s.x.conn.recvRing, n)
    decreases RecvQueue(s.x.conn)
  {
    s' := s;
    if RecvQueue(s.x.conn) != 0 {
      var t := DoX(s0, s, Read);
      forall n | s.x.conn.recvNum <= n < s.x.conn.successfulRead + 15
        ensures At(t.x.conn.recvRing, n) == At(s.x.conn.recvRing, n)
      {
        PutAt(s.x.conn.recvRing, s.x.conn.successfulRead, [], n);
      }
      s' := ReadAll(s0, t);
    }
  }

  /** x sends all that waits in its send queue. */
  lemma {:induction false} SendAll(s0: System, s: System) returns (s': System)
    requires Good(s) && Leads(s0, s)
    ensures Good(s') && Leads(s0, s')
    ensures s'.y == s.y
    ensures s'.x == s.x.(conn := s'.x.conn, sent := s'.x.sent)
    ensures s'.x.conn == s.x.conn.(requested := [], sentNum := s.x.conn.sendbuffNum)
    decreases |s.x.conn.requested| + s.x.conn.sendbuffNum - s.x.conn.sentNum
  {
    s' := s;
    if s.x.conn.requested != [] || s.x.conn.sentNum != s.x.conn.sendbuffNum {
      if s.x.conn.requested != [] {
        assert s.x.conn.successfulSent <= s.x.conn.requested[0] < s.x.conn.sentNum;
      }
      var t := DoX(s0, s, EmitData);
      s' := SendAll(s0, t);
    }
  }

  /** x sends a SYNC and y accepts it. */
  lemma Exchange(s0: System, s: System) returns (s': System)
    requires Good(s) && Leads(s0, s) && Lead(s.x, s.y) > 0
    ensures Good(s') && Leads(s0, s')
    ensures s'.x == s.x.(conn := SendSync(s.x.conn).0, sent := s.x.sent + {SendSync(s.x.conn).1})
    ensures s'.y == s.y.(conn := Handle(s.y.conn, SendSync(s.x.conn).1).0)
    ensures s'.y.conn == s.y.conn.(orecvNum := s.x.conn.recvNum, successfulSent := s.x.conn.recvNum,
                                   osentNum := s.x.conn.sentNum, requested := MissingPackets(s.x.conn).1,
                                   recvCounter := s.x.conn.sendCounter, sendCounter := s.y.conn.sendCounter + 1)
  {
    var sync := SendSync(s.x.conn).1;
    AcceptedIffAhead(s);
    CurrentSyncFitsHalf(s.x, s.y);
    var t := DoX(s0, s, EmitSync);
    s' := DoY(s0, t, Receive(sync));
  }

  // ---------- one round of recovery ----------

  /** x sends what is on its request list, in order, and y receives all of it. */
  function Served(x: Endpoint, y: Endpoint): (Endpoint, Endpoint)
    decreases |x.requested|
  {
    if x.requested == [] then (x, y)
    else Served(SendData(x).0, Handle(y, DataPacket(x, x.requested[0])).0)
  }

  /** y sends one SYNC, and x serves the request list that came with it. */
  function Round(x: Endpoint, y: Endpoint): (Endpoint, Endpoint) {
    var (y', sync) := SendSync(y);
    Served(Handle(x, sync).0, y')
  }

  /** y lacks only packets that x has been asked for. */
  ghost predicate OnlyRequestedMissing(x: Endpoint, y: Endpoint) {
    && y.osentNum <= y.successfulRead + 15
    && (forall i :: 0 <= i < |x.requested| ==> x.requested[i] < y.osentNum)
    && (forall n :: y.recvNum <= n < y.osentNum && At(y.recvRing, n) == [] ==> n in x.requested)
  }

  ghost predicate AllFilled(y: Endpoint) {
    forall n :: y.successfulRead <= n < y.osentNum ==> At(y.recvRing, n) != []
  }

  /** One requested packet arrives. */
  lemma ServeOne(x: Endpoint, y: Endpoint, data: Payload)
    requires RecvInv(y) && OnlyRequestedMissing(x, y)
    requires x.requested != [] && data != []
    ensures var y' := AddRecv(y, x.requested[0], data);
      && OnlyRequestedMissing(x.(requested := x.requested[1..]), y')
      && y'.osentNum == y.osentNum
      && (AllFilled(y') ==> y'.recvNum >= y.osentNum - 1)
      && (y.recvNum < y.successfulRead + 15 ==> y'.recvNum < y.successfulRead + 15)
  {
    var num := x.requested[0];
    var stored := StoreData(y, num, data);
    var y' := AddRecv(y, num, data);
    StoreKeeps(y, num, data);
    AddRecvKeeps(y, num, data);
    LastInOrderSound(stored.recvRing, y.recvNum, y.recvNum, y.successfulRead + 15);
    forall n | y'.recvNum <= n < y'.osentNum && At(y'.recvRing, n) == []
      ensures n in x.requested[1..]
    {
      assert At(y.recvRing, n) == [] && n in x.requested && n != num;
    }
  }

  lemma SendRequested(s0: System, s: System) returns (s': System)
    requires Good(s) && Leads(s0, s) && s.x.conn.requested != []
    ensures Good(s') && Leads(s0, s')
    ensures s'.x == s.x.(conn := s.x.conn.(requested := s.x.conn.requested[1..]), sent := s'.x.sent)
    ensures s'.y == s.y
    ensures DataPacket(s.x.conn, s.x.conn.requested[0]) in s'.x.sent
    ensures 0 < |At(s.x.conn.sendRing, s.x.conn.requested[0])| <= MAX_DATA_SIZE
  {
    var num := s.x.conn.requested[0];
    assert s.x.conn.successfulSent <= num < s.x.conn.sentNum;
    assert At(s.x.conn.sendRing, num) == s.x.written[num - Base(s.x)];
    s' := DoX(s0, s, EmitData);
  }

  /** A data packet of x arrives at y. */
  lemma DeliverData(s0: System, s: System, num: nat, payload: Payload) returns (s': System)
    requires Good(s) && Leads(s0, s) && Data(num, payload) in s.x.sent && 0 < |payload| <= MAX_DATA_SIZE
    ensures Good(s') && Leads(s0, s')
    ensures s' == System(s.x, s.y.(conn := AddRecv(s.y.conn, num, payload)))
  {
    s' := DoY(s0, s, Receive(Data(num, payload)));
  }

  lemma ServeStep(s0: System, s: System) returns (s': System)
    requires Good(s) && Leads(s0, s) && OnlyRequestedMissing(s.x.conn, s.y.conn) && s.x.conn.requested != []
    ensures Good(s') && Leads(s0, s')
    ensures s'.x == s.x.(conn := s.x.conn.(requested := s.x.conn.requested[1..]), sent := s'.x.sent)
    ensures s'.y == s.y.(conn := s'.y.conn)
    ensures s'.y.conn == s.y.conn.(recvRing := s'.y.conn.recvRing, recvNum := s'.y.conn.recvNum)
    ensures s'.y.conn == Handle(s.y.conn, DataPacket(s.x.conn, s.x.conn.requested[0])).0
    ensures OnlyRequestedMissing(s'.x.conn, s'.y.conn)
    ensures AllFilled(s'.y.conn) ==> s'.y.conn.recvNum >= s.y.conn.osentNum - 1
    ensures s.y.conn.recvNum < s.y.conn.successfulRead + 15 ==> s'.y.conn.recvNum < s.y.conn.successfulRead + 15
  {
    var t := SendRequested(s0, s);
    var num := s.x.conn.requested[0];
    var payload := At(s.x.conn.sendRing, num);
    ServeOne(s.x.conn, s.y.conn, payload);
    s' := DeliverData(s0, t, num, payload);
  }

  /** x serves its request list to y, one packet at a time. */
  lemma {:induction false} Serve(s0: System, s: System) returns (s': System)
    requires Good(s) && Leads(s0, s) && OnlyRequestedMissing(s.x.conn, s.y.conn)
    ensures Good(s') && Leads(s0, s')
    ensures s'.x == s.x.(conn := s.x.conn.(requested := []), sent := s'.x.sent)
    ensures s'.y == s.y.(conn := s'.y.conn)
    ensures s'.y.conn == s.y.conn.(recvRing := s'.y.conn.recvRing, recvNum := s'.y.conn.recvNum)
    ensures (s'.x.conn, s'.y.conn) == Served(s.x.conn, s.y.conn)
    ensures AllFilled(s'.y.conn)
    ensures s.x.conn.requested == [] ==> s'.y == s.y
    ensures s.x.conn.requested != [] ==> s'.y.conn.recvNum >= s.y.conn.osentNum - 1
    ensures s.y.conn.recvNum < s.y.conn.successfulRead + 15 ==> s'.y.conn.recvNum < s.y.conn.successfulRead + 15
    decreases |s.x.conn.requested|
  {
    s' := s;
    if s.x.conn.requested != [] {
      var t := ServeStep(s0, s);
      s' := Serve(s0, t);
    }
  }

  /** y sends a SYNC and x accepts it. */
  lemma ExchangeY(s0: System, s: System) returns (s': System)
    requires Good(s) && Leads(s0, s) && Lead(s.y, s.x) > 0
    ensures Good(s') && Leads(s0, s')
    ensures s'.y == s.y.(conn := SendSync(s.y.conn).0, sent := s.y.sent + {SendSync(s.y.conn).1})
    ensures s'.x == s.x.(conn := Handle(s.x.conn, SendSync(s.y.conn).1).0)
    ensures s'.x.conn == s.x.conn.(orecvNum := s.y.conn.recvNum, successfulSent := s.y.conn.recvNum,
                                   osentNum := s.y.conn.sentNum, requested := MissingPackets(s.y.conn).1,
                                   recvCounter := s.y.conn.sendCounter, sendCounter := s.x.conn.sendCounter + 1)
  {
    LeadsSwap(s0, s);
    var t := Exchange(Swap(s0), Swap(s));
    LeadsSwap(Swap(s0), t);
    s' := Swap(t);
  }

  lemma ReadAllY(s0: System, s: System) returns (s': System)
    requires Good(s) && Leads(s0, s)
    ensures Good(s') && Leads(s0, s')
    ensures s'.x == s.x
    ensures s'.y == s.y.(conn := s'.y.conn, delivered := s'.y.delivered)
    ensures s'.y.conn == s.y.conn.(recvRing := s'.y.conn.recvRing, successfulRead := s.y.conn.recvNum)
    ensures forall n :: s.y.conn.recvNum <= n < s.y.conn.successfulRead + 15 ==>
                          At(s'.y.conn.recvRing, n) == At(s.y.conn.recvRing, n)
  {
    LeadsSwap(s0, s);
    var t := ReadAll(Swap(s0), Swap(s));
    LeadsSwap(Swap(s0), t);
    s' := Swap(t);
  }

  lemma AllFilledNoneMissing(y: Endpoint)
    requires RecvInv(y) && AllFilled(y)
    ensures MissingPackets(y).1 == []
    ensures MissingPackets(y).0.recvNum == if RecvQueue(y) >= 14 then y.recvNum else y.osentNum
  {
    EmptySlotsSound(y.recvRing, y.recvNum, y.osentNum);
  }

  /**
   One fresh SYNC from y, its request list served once: nothing is missing any more. The receive
   number catches up with what the peer sent, except that it stops one short when the peer is a whole
   window ahead, because missing_packets does nothing while 14 packets wait to be read.
   */
  lemma RecoveryRound(s0: System, s: System) returns (s': System)
    requires Good(s) && Leads(s0, s) && Lead(s.y, s.x) > 0
    requires s.y.conn.osentNum <= s.y.conn.successfulRead + 15 && RecvQueue(s.y.conn) < 14
    ensures Good(s') && Leads(s0, s')
    ensures (s'.x.conn, s'.y.conn) == Round(s.x.conn, s.y.conn)
    ensures s'.x.written == s.x.written && s'.y.written == s.y.written
    ensures s'.y.conn.osentNum == s.y.conn.osentNum && s'.y.conn.successfulRead == s.y.conn.successfulRead
    ensures s'.y.conn.recvNum >= s.y.conn.osentNum - 1
    ensures s'.x == s.x.(conn := s'.x.conn, sent := s'.x.sent)
    ensures s'.x.conn.sentNum == s.x.conn.sentNum && s'.x.conn.sendbuffNum == s.x.conn.sendbuffNum
    ensures AllFilled(s'.y.conn) && MissingPackets(s'.y.conn).1 == []
    ensures MissingPackets(s'.y.conn).0.recvNum == s.y.conn.osentNum <==>
            MissingPackets(s.y.conn).1 == [] || s.y.conn.osentNum < s.y.conn.successfulRead + 15
    ensures MissingPackets(s'.y.conn).0.recvNum in {s.y.conn.osentNum - 1, s.y.conn.osentNum}
  {
    var missing := MissingPackets(s.y.conn).1;
    EmptySlotsSound(s.y.conn.recvRing, s.y.conn.recvNum, s.y.conn.osentNum);
    MissingKeeps(s.y.conn);
    var t := ExchangeY(s0, s);
    forall i | 0 <= i < |missing|
      ensures missing[i] < s.y.conn.osentNum
    {
      assert missing[i] in missing;
    }
    s' := Serve(s0, t);
    AllFilledNoneMissing(s'.y.conn);
  }

  /** y learns how much x has sent, and is then ahead with its own counter. */
  lemma Announce(s0: System, s: System) returns (s': System)
    requires Good(s) && Leads(s0, s)
    ensures Good(s') && Leads(s0, s')
    ensures s'.x == s.x.(conn := s'.x.conn, sent := s'.x.sent)
    ensures s'.y == s.y.(conn := s'.y.conn, sent := s'.y.sent)
    ensures s'.x.conn.sendbuffNum == s.x.conn.sendbuffNum == s'.x.conn.sentNum == s'.y.conn.osentNum
    ensures s'.y.conn.recvRing == s.y.conn.recvRing && s'.y.conn.successfulRead == s.y.conn.successfulRead
    ensures Lead(s'.y, s'.x) > 0
  {
    var t := SendAll(s0, s);
    if Lead(t.x, t.y) == 0 {
      t := ExchangeY(s0, t);
      MissingKeeps(s.y.conn);
    }
    MissingKeeps(t.x.conn);
    s' := Exchange(s0, t);
  }

  /** With every packet in its slot, reading, one more look for missing packets and reading again deliver them all. */
  lemma Finish(s0: System, s: System) returns (s': System)
    requires Good(s) && Leads(s0, s)
    requires AllFilled(s.y.conn) && s.y.conn.recvNum >= s.y.conn.osentNum - 1
    requires s.y.conn.osentNum <= s.y.conn.successfulRead + 15
    ensures Good(s') && Leads(s0, s')
    ensures s'.x == s.x
    ensures s'.y.written == s.y.written && s'.y.conn.successfulRead == s.y.conn.osentNum
  {
    var read := ReadAllY(s0, s);
    assert AllFilled(read.y.conn) && RecvQueue(read.y.conn) == 0;
    AllFilledNoneMissing(read.y.conn);
    var caughtUp := DoY(s0, read, EmitSync);
    s' := ReadAllY(s0, caughtUp);
  }

  /** Everything x has written reaches the reader at y. */
  lemma DeliverToY(s0: System, s: System) returns (s': System)
    requires Good(s) && Leads(s0, s)
    ensures Good(s') && Leads(s0, s')
    ensures s'.x.written == s.x.written && s'.y.written == s.y.written
    ensures s'.x.delivered == s.x.delivered
    ensures s'.y.delivered == s.x.written
  {
    var announced := Announce(s0, s);
    var emptied := ReadAllY(s0, announced);
    var served := RecoveryRound(s0, emptied);
    s' := Finish(s0, served);
    DeliveredUpTo(s'.x, s'.y);
  }

  lemma DeliveredUpTo(p: Side, q: Side)
    requires Half(p, q) && p.conn.status >= 1 && q.conn.status >= 2 && q.conn.successfulRead == p.conn.sendbuffNum
    ensures q.delivered == p.written
  {
    assert p.written[..|p.written|] == p.written;
  }

  /** If x has opened a connection, x can finish its handshake. */
  lemma FinishHandshake(s0: System, s: System) returns (s': System)
    requires Sound(s) && Leads(s0, s) && s.x.conn.status >= 1
    ensures Sound(s') && Leads(s0, s')
    ensures s'.x.conn.status >= 2 && s'.x.conn.status >= s.x.conn.status && s'.y.conn == s.y.conn
    ensures s'.x.written == s.x.written && s'.y.written == s.y.written
  {
    s' := s;
    if s.x.conn.status == 1 {
      s' := DoX(s0, s', EmitHandshake);
      s' := DoY(s0, s', Receive(Handshake(Base(s.x), 0)));
      s' := DoX(s0, s', Receive(Handshake(Base(s.y), Base(s.x))));
    }
  }

  lemma FinishHandshakeY(s0: System, s: System) returns (s': System)
    requires Sound(s) && Leads(s0, s) && s.y.conn.status >= 1
    ensures Sound(s') && Leads(s0, s')
    ensures s'.y.conn.status >= 2 && s'.x.conn == s.x.conn
    ensures s'.x.written == s.x.written && s'.y.written == s.y.written
  {
    LeadsSwap(s0, s);
    var t := FinishHandshake(Swap(s0), Swap(s));
    LeadsSwap(Swap(s0), t);
    s' := Swap(t);
  }

  /** If x's handshake is done, y can become fully connected. */
  lemma Connect(s0: System, s: System) returns (s': System)
    requires Sound(s) && Leads(s0, s) && s.x.conn.status >= 2 && s.y.conn.status >= 2
    ensures Sound(s') && Leads(s0, s')
    ensures s'.y.conn.status == 3 && s'.x.conn.status == s.x.conn.status
    ensures s'.x.written == s.x.written && s'.y.written == s.y.written
  {
    s' := s;
    if s.y.conn.status == 2 {
      var sync := SendSync(s.x.conn).1;
      SyncPacketOk(s.x, s.y);
      s' := DoX(s0, s, EmitSync);
      s' := DoY(s0, s', Receive(sync));
    }
  }

  lemma ConnectX(s0: System, s: System) returns (s': System)
    requires Sound(s) && Leads(s0, s) && s.x.conn.status >= 2 && s.y.conn.status >= 2
    ensures Sound(s') && Leads(s0, s')
    ensures s'.x.conn.status == 3 && s'.y.conn.status == s.y.conn.status
    ensures s'.x.written == s.x.written && s'.y.written == s.y.written
  {
    LeadsSwap(s0, s);
    var t := Connect(Swap(s0), Swap(s));
    LeadsSwap(Swap(s0), t);
    s' := Swap(t);
  }

  /** If x has opened a connection, both ends can finish their handshakes. */
  lemma BothHandshakes(s0: System, s: System) returns (s': System)
    requires Sound(s) && Leads(s0, s) && s.x.conn.status >= 1
    ensures Sound(s') && Leads(s0, s')
    ensures s'.x.conn.status >= 2 && s'.y.conn.status >= 2
    ensures s'.x.written == s.x.written && s'.y.written == s.y.written
  {
    s' := FinishHandshake(s0, s);
    if s'.y.conn.status == 1 {
      s' := FinishHandshakeY(s0, s');
    } else if s'.y.conn.status == 0 {
      s' := Invite(s0, s');
    }
  }

  /** If x has opened a connection, both ends can become fully connected. */
  lemma EstablishBoth(s0: System, s: System) returns (s': System)
    requires Sound(s) && Leads(s0, s) && s.x.conn.status >= 1
    ensures Good(s') && Leads(s0, s')
    ensures s'.x.written == s.x.written && s'.y.written == s.y.written
  {
    s' := BothHandshakes(s0, s);
    s' := Connect(s0, s');
    s' := ConnectX(s0, s');
  }

  /** A SYNC from x opens a connection at y. */
  lemma Invite(s0: System, s: System) returns (s': System)
    requires Sound(s) && Leads(s0, s) && s.x.conn.status >= 2 && s.y.conn.status == 0
    ensures Sound(s') && Leads(s0, s')
    ensures s'.y.conn.status == 2 && s'.x.conn.status == s.x.conn.status
    ensures s'.x.written == s.x.written && s'.y.written == s.y.written
  {
    var sync := SendSync(s.x.conn).1;
    SyncPacketOk(s.x, s.y);
    s' := DoX(s0, s, EmitSync);
    s' := DoY(s0, s', Receive(sync));
  }

  /**
   From every state of every run, and with all packets sent so far lost, there is a continuation
   after which each end has read exactly what the other has written.
   */
  lemma EverythingDeliverable(run: seq<System>, i: nat) returns (s': System)
    requires IsFreshRun(run) && i < |run|
    ensures Leads(Lossy(run[i]), s')
    ensures s'.x.written == run[i].x.written && s'.y.written == run[i].y.written
    ensures s'.y.delivered == run[i].x.written
    ensures s'.x.delivered == run[i].y.written
  {
    CountersInRun(run, i);
    var s := Lossy(run[i]);
    LossySound(run[i]);
    LeadsSelf(s);
    if s.x.conn.status == 0 && s.y.conn.status == 0 {
      s' := s;
    } else {
      var t := EstablishAny(s, s);
      t := DeliverToY(s, t);
      LeadsSwap(s, t);
      var u := DeliverToY(Swap(s), Swap(t));
      LeadsSwap(Swap(s), u);
      s' := Swap(u);
    }
  }

  lemma EstablishAny(s0: System, s: System) returns (s': System)
    requires Sound(s) && Leads(s0, s) && (s.x.conn.status >= 1 || s.y.conn.status >= 1)
    ensures Good(s') && Leads(s0, s')
    ensures s'.x.written == s.x.written && s'.y.written == s.y.written
  {
    if s.x.conn.status >= 1 {
      s' := EstablishBoth(s0, s);
    } else {
      LeadsSwap(s0, s);
      var t := EstablishBoth(Swap(s0), Swap(s));
      LeadsSwap(Swap(s0), t);
      s' := Swap(t);
    }
  }
}

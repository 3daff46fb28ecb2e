/**
 Reachable states in which Lossless UDP does less than one would wish: a round of recovery that
 stops one packet short, and a SYNC so late that the exchange of SYNCs comes to a halt.
 */
module LosslessLimits {
  import opened LosslessProtocol
  import opened LosslessReceive
  import opened LosslessSystem
  import opened LosslessSync
  import opened LosslessProgress

  /** An established connection over which nothing was written yet. */
  ghost predicate Quiet(s: System) {
    Good(s) && s.x.written == [] && s.y.written == []
  }

  lemma Connected(s0: System) returns (s: System)
    requires Init(s0)
    ensures Leads(s0, s) && Quiet(s)
  {
    InitInv(s0);
    LeadsSelf(s0);
    var begun := DoX(s0, s0, Open);
    s := EstablishBoth(s0, begun);
  }

  // ---------- one short ----------

  lemma {:induction false} WriteMany(s0: System, s: System, k: nat) returns (s': System)
    requires Good(s) && Leads(s0, s) && |s.x.written| + k <= 15
    ensures Good(s') && Leads(s0, s') && s'.y == s.y && |s'.x.written| == |s.x.written| + k
    decreases k
  {
    s' := s;
    if k > 0 {
      var t := DoX(s0, s, Write([0]));
      s' := WriteMany(s0, t, k - 1);
    }
  }

  /** Nothing has arrived yet at the other end of a quiet connection. */
  lemma QuietReceiver(p: Side, q: Side)
    requires Half(p, q) && p.conn.status == 3 && q.conn.status == 3 && p.written == []
    ensures q.conn.successfulRead == q.conn.recvNum == q.conn.osentNum == Base(p)
    ensures forall n :: Base(p) <= n < Base(p) + 15 ==> At(q.conn.recvRing, n) == []
  {
  }

  lemma EmptyWindow(e: Endpoint)
    requires RecvInv(e) && e.osentNum == e.successfulRead + 15
    requires forall n :: e.successfulRead <= n < e.successfulRead + 15 ==> At(e.recvRing, n) == []
    ensures RecvQueue(e) == 0 && MissingPackets(e).1 != []
  {
    EmptySlotsSound(e.recvRing, e.recvNum, e.osentNum);
    assert At(e.recvRing, e.successfulRead) == [];
  }

  /** x has sent 15 packets, y knows and has none of them. */
  lemma WholeWindowAhead(s0: System) returns (s: System)
    requires Init(s0)
    ensures Leads(s0, s) && Good(s) && Lead(s.y, s.x) > 0
    ensures RecvQueue(s.y.conn) == 0 && s.y.conn.osentNum == s.y.conn.successfulRead + 15
    ensures MissingPackets(s.y.conn).1 != []
  {
    var quiet := Connected(s0);
    QuietReceiver(quiet.x, quiet.y);
    var written := WriteMany(s0, quiet, 15);
    s := Announce(s0, written);
    EmptyWindow(s.y.conn);
  }

  /** From such a state a round of recovery fills every slot and yet stops one number short. */
  lemma StopsOneShort(s0: System) returns (s: System)
    requires Init(s0)
    ensures Leads(s0, s) && Good(s) && Lead(s.y, s.x) > 0
    ensures RecvQueue(s.y.conn) == 0 && s.y.conn.osentNum == s.y.conn.successfulRead + 15
    ensures var y := Round(s.x.conn, s.y.conn).1;
      MissingPackets(y).1 == [] && MissingPackets(y).0.recvNum == s.y.conn.osentNum - 1
  {
    s := WholeWindowAhead(s0);
    var s' := RecoveryRound(s0, s);
    assert s'.y.conn == Round(s.x.conn, s.y.conn).1;
  }

  // ---------- a SYNC that comes too late ----------

  /** The SYNC an end builds while the connection is quiet. */
  function QuietSync(p: Side, q: Side): Packet {
    Sync(p.conn.sendCounter, Base(q), Base(p), [])
  }

  lemma QuietSends(p: Side, q: Side)
    requires Half(p, q) && Half(q, p) && p.conn.status == 3 && q.conn.status == 3 && p.written == [] && q.written == []
    ensures SendSync(p.conn) == (p.conn, QuietSync(p, q))
    ensures p.conn.orecvNum == Base(p) && p.conn.osentNum == Base(q)
  {
    QuietReceiver(q, p);
    EmptySlotsSound(p.conn.recvRing, p.conn.recvNum, p.conn.osentNum);
  }

  /** One SYNC each way, y's first. */
  lemma Turn(s0: System, s: System) returns (s': System)
    requires Quiet(s) && Leads(s0, s) && Lead(s.y, s.x) > 0
    ensures Quiet(s') && Leads(s0, s')
    ensures Base(s'.x) == Base(s.x) && Base(s'.y) == Base(s.y)
    ensures Lead(s'.x, s'.y) == 0 && Lead(s'.y, s'.x) == 1
    ensures s'.x.conn.recvCounter == s.y.conn.sendCounter
    ensures s'.y.sent == s.y.sent + {QuietSync(s.y, s.x)}
  {
    QuietSends(s.y, s.x);
    var t := ExchangeY(s0, s);
    QuietSends(t.x, t.y);
    s' := Exchange(s0, t);
  }

  lemma {:induction false} ManyTurns(s0: System, s: System, k: nat) returns (s': System)
    requires Quiet(s) && Leads(s0, s) && Lead(s.x, s.y) == 0 && Lead(s.y, s.x) == 1
    ensures Quiet(s') && Leads(s0, s')
    ensures Base(s'.x) == Base(s.x) && Base(s'.y) == Base(s.y)
    ensures Lead(s'.x, s'.y) == 0 && Lead(s'.y, s'.x) == 1
    ensures s'.x.conn.recvCounter == s.x.conn.recvCounter + k
    ensures s.y.sent <= s'.y.sent
    decreases k
  {
    s' := s;
    if k > 0 {
      var t := Turn(s0, s);
      s' := ManyTurns(s0, t, k - 1);
    }
  }

  lemma YLeads(s0: System) returns (s: System)
    requires Init(s0)
    ensures Leads(s0, s) && Quiet(s) && Lead(s.y, s.x) > 0
  {
    s := Connected(s0);
    if Lead(s.y, s.x) == 0 {
      QuietSends(s.x, s.y);
      s := Exchange(s0, s);
    }
  }

  /** A reachable state, and a SYNC of y that is 247 counters late and that x accepts all the same. */
  lemma LateSync(s0: System) returns (s: System, sync: Packet)
    requires Init(s0)
    ensures Leads(s0, s) && Quiet(s) && Lead(s.x, s.y) == 0 && Lead(s.y, s.x) == 1
    ensures s.x.conn.recvCounter >= 247
    ensures sync in s.y.sent && sync == Sync(s.x.conn.recvCounter - 247, Base(s.x), Base(s.y), [])
    ensures SyncAccepted(s.x.conn, sync.counter, sync.recvNum, sync.sentNum)
  {
    var before := YLeads(s0);
    sync := QuietSync(before.y, before.x);
    var t := Turn(s0, before);
    s := ManyTurns(s0, t, 247);
    QuietSends(s.x, s.y);
  }

  ghost predicate Reachable(s: System) {
    exists run :: IsRun(run) && run[|run| - 1] == s
  }

  lemma LeadsReachable(s0: System, s: System)
    requires Init(s0) && Leads(s0, s)
    ensures Reachable(s)
  {
    var path :| IsPath(path, s0, s);
    forall i | 0 <= i < |path| - 1
      ensures Next(path[i], path[i + 1])
    {
      assert FreshNext(path[i], path[i + 1]);
    }
    assert IsRun(path);
  }

  /** q accepts no SYNC that p has sent or builds as long as p's counter stays. */
  ghost predicate Unheard(p: Side, q: Side) {
    && p.conn.status == 3
    && !(0 < CounterGap(q.conn, p.conn.sendCounter) < 10)
    && (forall packet :: packet in p.sent && packet.Sync? ==> packet.counter == p.conn.sendCounter)
  }

  ghost predicate Stuck(s: System) {
    Unheard(s.x, s.y) && Unheard(s.y, s.x)
  }

  lemma ActStuck(p: Side, q: Side, ev: Event)
    requires Unheard(p, q) && Unheard(q, p) && CanAct(p, q, ev)
    ensures Unheard(Act(p, ev), q) && Unheard(q, Act(p, ev))
    ensures Act(p, ev).conn.successfulSent == p.conn.successfulSent
  {
  }

  lemma NextStuck(s: System, s': System)
    requires Stuck(s) && Next(s, s')
    ensures Stuck(s')
    ensures s'.x.conn.successfulSent == s.x.conn.successfulSent && s'.y.conn.successfulSent == s.y.conn.successfulSent
  {
    var ev :| ActX(s, s', ev) || ActX(Swap(s), Swap(s'), ev);
    if ActX(s, s', ev) {
      ActStuck(s.x, s.y, ev);
    } else {
      ActStuck(s.y, s.x, ev);
    }
  }

  ghost predicate Continues(path: seq<System>) {
    |path| > 0 && forall i :: 0 <= i < |path| - 1 ==> Next(path[i], path[i + 1])
  }

  /**
   Once stuck, always stuck: whatever the two ends and the network do, no SYNC is accepted and nothing
   is acknowledged any more, so that at most 15 further payloads can be written at each end.
   */
  lemma {:induction false} StuckForever(path: seq<System>, i: nat)
    requires Continues(path) && Inv(path[0]) && Stuck(path[0]) && i < |path|
    ensures Inv(path[i]) && Stuck(path[i])
    ensures path[i].x.conn.successfulSent == path[0].x.conn.successfulSent
    ensures path[i].y.conn.successfulSent == path[0].y.conn.successfulSent
    ensures path[i].x.conn.sendbuffNum <= path[0].x.conn.successfulSent + 15
    ensures path[i].y.conn.sendbuffNum <= path[0].y.conn.successfulSent + 15
    ensures !CurrentSyncAccepted(path[i].x, path[i].y) && !CurrentSyncAccepted(path[i].y, path[i].x)
  {
    if i > 0 {
      StuckForever(path, i - 1);
      assert Next(path[i - 1], path[i]);
      NextKeepsInv(path[i - 1], path[i]);
      NextStuck(path[i - 1], path[i]);
    }
  }

  /** Both ends connected and nothing written; unlike `Quiet` this says nothing about counters. */
  ghost predicate Idle(s: System) {
    Inv(s) && Established(s) && s.x.written == [] && s.y.written == []
  }

  lemma StepX(s: System, ev: Event) returns (s': System)
    requires Inv(s) && CanAct(s.x, s.y, ev)
    ensures s' == System(Act(s.x, ev), s.y) && Next(s, s') && Inv(s')
  {
    s' := System(Act(s.x, ev), s.y);
    assert ActX(s, s', ev);
    NextKeepsInv(s, s');
  }

  lemma StepY(s: System, ev: Event) returns (s': System)
    requires Inv(s) && CanAct(s.y, s.x, ev)
    ensures s' == System(s.x, Act(s.y, ev)) && Next(s, s') && Inv(s')
  {
    s' := System(s.x, Act(s.y, ev));
    assert ActX(Swap(s), Swap(s'), ev);
    NextKeepsInv(s, s');
  }

  lemma Between(numbers: seq<nat>, low: nat, high: nat)
    requires forall i :: 0 <= i < |numbers| ==> low <= numbers[i] < high
    ensures numbers == [] || low < high
  {
    if numbers != [] {
      assert low <= numbers[0];
    }
  }

  lemma NothingRequested(e: Endpoint)
    requires SendCounts(e, 0)
    ensures e.requested == []
  {
    Between(e.requested, e.successfulSent, e.sentNum);
  }

  lemma QuietAccepts(p: Side, q: Side, c: nat)
    requires Half(p, q) && Half(q, p) && p.conn.status == 3 && q.conn.status == 3 && p.written == [] && q.written == []
    requires Sync(c, Base(p), Base(q), []) in q.sent && 0 < CounterGap(p.conn, c) < 10
    ensures Act(p, Receive(Sync(c, Base(p), Base(q), []))) ==
            p.(conn := p.conn.(recvCounter := c, sendCounter := p.conn.sendCounter + 1))
  {
    QuietSends(p, q);
    NothingRequested(p.conn);
  }

  /** x accepts the late SYNC. */
  lemma AcceptLate(s: System, c: nat) returns (late: System)
    requires Idle(s) && Sync(c, Base(s.x), Base(s.y), []) in s.y.sent && 0 < CounterGap(s.x.conn, c) < 10
    ensures Next(s, late) && Idle(late)
    ensures late == System(Act(s.x, Receive(Sync(c, Base(s.x), Base(s.y), []))), s.y)
    ensures late == System(s.x.(conn := s.x.conn.(recvCounter := c, sendCounter := s.x.conn.sendCounter + 1)), s.y)
  {
    QuietAccepts(s.x, s.y, c);
    late := StepX(s, Receive(Sync(c, Base(s.x), Base(s.y), [])));
  }

  /** x's answer to it reaches y. */
  lemma AnswerLate(s: System) returns (t: System, s': System)
    requires Idle(s) && Lead(s.x, s.y) == 1
    ensures Next(s, t) && Next(t, s') && Idle(s')
    ensures s'.x.conn == s.x.conn
    ensures s'.y.conn == s.y.conn.(recvCounter := s.x.conn.sendCounter, sendCounter := s.y.conn.sendCounter + 1)
  {
    QuietSends(s.x, s.y);
    t := StepX(s, EmitSync);
    QuietAccepts(t.y, t.x, s.x.conn.sendCounter);
    s' := StepY(t, Receive(QuietSync(s.x, s.y)));
  }

  lemma OutOfReach(s: System)
    requires Established(s) && Lead(s.x, s.y) == 0 && Lead(s.y, s.x) == 249
    ensures Stuck(Lossy(s))
  {
  }

  /**
   Whatever the two handshake ids: there is a run in which x accepts a SYNC that is 247 counters late.
   Two steps later, if the packets under way are lost, neither end ever accepts a SYNC of the other
   again (`StuckForever`).
   */
  lemma LateSyncHalts(s0: System) returns (sync: Packet, path: seq<System>)
    requires Init(s0)
    ensures |path| == 4 && Continues(path) && Leads(s0, path[0]) && Reachable(path[0]) && Established(path[0])
    ensures sync in path[0].y.sent && sync.Sync? && sync.counter == path[0].x.conn.recvCounter - 247
    ensures SyncAccepted(path[0].x.conn, sync.counter, sync.recvNum, sync.sentNum)
    ensures path[1] == System(Act(path[0].x, Receive(sync)), path[0].y)
    ensures Inv(Lossy(path[3])) && Stuck(Lossy(path[3]))
  {
    var s;
    s, sync := LateSync(s0);
    LeadsReachable(s0, s);
    var late := AcceptLate(s, sync.counter);
    var answered, halted := AnswerLate(late);
    path := [s, late, answered, halted];
    OutOfReach(halted);
    LossyHalf(halted.x, halted.y);
    LossyHalf(halted.y, halted.x);
  }
}

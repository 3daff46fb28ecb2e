/**
 What an end claims to have sent it has sent: every number counted as sent went out with its
 payload, and an end that regards the connection as established has told the peer so.
 */
module LosslessSends {
  import opened LosslessProtocol
  import opened LosslessReceive
  import opened LosslessSystem

  /** Every number below sent_packetnum went out, with the payload that was written under it. */
  ghost predicate AllSent(p: Side) {
    p.conn.status >= 1 ==>
      && p.conn.sentNum <= Base(p) + |p.written|
      && forall i :: 0 <= i < |p.written| && Base(p) + i < p.conn.sentNum ==> Data(Base(p) + i, p.written[i]) in p.sent
  }

  /** Before it is established an end still has the counter it started with. */
  ghost predicate StartCounter(e: Endpoint) {
    && (e.status <= 1 ==> e.sendCounter == 0)
    && (e.status == 2 ==> e.sendCounter in {0, 127})
  }

  /** The first counter after the ones that an end starts with. */
  predicate FirstAnswer(packet: Packet) {
    packet.Sync? && packet.counter in {1, 128}
  }

  ghost predicate Answered(p: Side) {
    p.conn.status == 3 ==> exists packet :: packet in p.sent && FirstAnswer(packet)
  }

  ghost predicate SendsInv(p: Side) {
    AllSent(p) && StartCounter(p.conn) && Answered(p)
  }

  lemma SentStays(p: Side, p': Side)
    requires AllSent(p) && p.conn.status >= 1 && Base(p') == Base(p)
    requires p.written <= p'.written && p.sent <= p'.sent && p'.conn.sentNum == p.conn.sentNum
    ensures AllSent(p')
  {
    forall i | 0 <= i < |p'.written| && Base(p) + i < p.conn.sentNum
      ensures Data(Base(p) + i, p'.written[i]) in p'.sent
    {
      assert p'.written[i] == p.written[i];
    }
  }

  lemma OneMoreSent(p: Side, p': Side)
    requires AllSent(p) && p.conn.status >= 1 && Base(p') == Base(p) && p'.written == p.written && p.sent <= p'.sent
    requires Base(p) <= p.conn.sentNum < Base(p) + |p.written| && p'.conn.sentNum == p.conn.sentNum + 1
    requires Data(p.conn.sentNum, p.written[p.conn.sentNum - Base(p)]) in p'.sent
    ensures AllSent(p')
  {
  }

  lemma NewData(p: Side)
    requires SenderInv(p) && Enabled(p.conn, EmitData)
    ensures var e, p' := p.conn, Act(p, EmitData);
      && Base(p') == Base(p) && p'.written == p.written && p.sent <= p'.sent
      && Base(p) <= e.sentNum <= Base(p) + |p.written|
      && if e.requested == [] && e.sentNum != e.sendbuffNum
         then && e.sentNum < Base(p) + |p.written| && p'.conn.sentNum == e.sentNum + 1
              && Data(e.sentNum, p.written[e.sentNum - Base(p)]) in p'.sent
         else p'.conn.sentNum == e.sentNum
  {
    var e := p.conn;
    if e.requested == [] && e.sentNum != e.sendbuffNum {
      assert At(e.sendRing, e.sentNum) == p.written[e.sentNum - Base(p)];
    }
  }

  lemma DataSends(p: Side)
    requires SenderInv(p) && Enabled(p.conn, EmitData) && AllSent(p)
    ensures AllSent(Act(p, EmitData))
  {
    NewData(p);
    if p.conn.requested == [] && p.conn.sentNum != p.conn.sendbuffNum {
      OneMoreSent(p, Act(p, EmitData));
    } else {
      SentStays(p, Act(p, EmitData));
    }
  }

  lemma OthersSendNothingNew(p: Side, ev: Event)
    requires Enabled(p.conn, ev) && !ev.EmitData?
    ensures var p' := Act(p, ev);
      && Base(p') == Base(p) && p.written <= p'.written && p.sent <= p'.sent
      && (p.conn.status >= 1 ==> p'.conn.sentNum == p.conn.sentNum)
      && (p.conn.status == 0 && p'.conn.status >= 1 ==> p'.conn.sentNum == Base(p))
  {
  }

  lemma OtherSends(p: Side, ev: Event)
    requires Enabled(p.conn, ev) && !ev.EmitData? && AllSent(p)
    ensures AllSent(Act(p, ev))
  {
    OthersSendNothingNew(p, ev);
    if p.conn.status >= 1 {
      SentStays(p, Act(p, ev));
    }
  }

  lemma ActAnswers(p: Side, q: Side, ev: Event)
    requires Half(p, q) && CanAct(p, q, ev) && StartCounter(p.conn) && Answered(p)
    ensures StartCounter(Act(p, ev).conn) && Answered(Act(p, ev))
  {
    var p' := Act(p, ev);
    if p.conn.status == 3 {
      var packet :| packet in p.sent && FirstAnswer(packet);
      assert packet in p'.sent;
    } else if p'.conn.status == 3 {
      var sync := Apply(p.conn, ev).1.value;
      assert sync in p'.sent && FirstAnswer(sync);
    }
  }

  lemma ActSends(p: Side, q: Side, ev: Event)
    requires Half(p, q) && CanAct(p, q, ev) && SendsInv(p)
    ensures SendsInv(Act(p, ev))
  {
    ActAnswers(p, q, ev);
    if ev.EmitData? {
      DataSends(p);
    } else {
      OtherSends(p, ev);
    }
  }

  lemma NextSends(s: System, s': System)
    requires Inv(s) && SendsInv(s.x) && SendsInv(s.y) && Next(s, s')
    ensures SendsInv(s'.x) && SendsInv(s'.y)
  {
    var ev :| ActX(s, s', ev) || ActX(Swap(s), Swap(s'), ev);
    if ActX(s, s', ev) {
      ActSends(s.x, s.y, ev);
    } else {
      ActSends(s.y, s.x, ev);
    }
  }

  lemma InitSends(s: System)
    requires Init(s)
    ensures SendsInv(s.x) && SendsInv(s.y)
  {
  }

  /**
   In every state of every run: each number counted as sent went out in a DATA packet with its own
   payload, and a connected end has sent a SYNC that says so.
   */
  lemma {:induction false} SentIsSent(run: seq<System>, i: nat)
    requires IsRun(run) && i < |run|
    ensures SendsInv(run[i].x) && SendsInv(run[i].y)
  {
    if i == 0 {
      InitSends(run[0]);
    } else {
      SentIsSent(run, i - 1);
      RunInv(run, i - 1);
      assert Next(run[i - 1], run[i]);
      NextSends(run[i - 1], run[i]);
    }
  }
}

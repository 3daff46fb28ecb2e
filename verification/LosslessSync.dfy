/**
 The SYNC counters of the two ends as a token.

 An end answers every accepted SYNC by advancing its own counter, so on an established connection
 at least one end is ahead of what the other has seen and the two leads never add up to more
 than 2. Counters are compared modulo 256; the argument needs that no SYNC is delivered so late
 that its counter lies 247 or more steps behind; `FreshnessExact` shows that this is the exact limit.
 */
module LosslessSync {
  import opened LosslessProtocol
  import opened LosslessReceive
  import opened LosslessSystem
  import opened LosslessTheorems

  predicate Fresh(e: Endpoint, ev: Event) {
    ev.Receive? && ev.packet.Sync? ==> ev.packet.counter > e.recvCounter - 247
  }

  ghost predicate FreshNext(s: System, s': System) {
    exists ev ::
      || (ActX(s, s', ev) && Fresh(s.x.conn, ev))
      || (ActX(Swap(s), Swap(s'), ev) && Fresh(s.y.conn, ev))
  }

  ghost predicate IsFreshRun(run: seq<System>) {
    && |run| > 0
    && Init(run[0])
    && (forall i :: 0 <= i < |run| - 1 ==> FreshNext(run[i], run[i + 1]))
  }

  /** How far p's counter is ahead of what q has accepted. */
  function Lead(p: Side, q: Side): int {
    p.conn.sendCounter - q.conn.recvCounter
  }

  ghost predicate CounterHalf(p: Side, q: Side) {
    && p.conn.status <= 3
    && (p.conn.status < 3 ==> p.conn.recvCounter == 0)
    && (forall packet :: packet in p.sent && packet.Sync? ==> p.conn.status >= 2 && packet.counter <= p.conn.sendCounter)
    && (p.conn.status == 2 ==>
          forall packet :: packet in p.sent && packet.Sync? ==> packet.counter == p.conn.sendCounter)
    && (p.conn.status == 3 ==> q.conn.status >= 2)
    && (p.conn.status == 3 && q.conn.status == 2 ==>
          && Lead(q, p) == 0
          && (forall packet :: packet in p.sent && packet.Sync? ==> packet.counter >= p.conn.sendCounter - 1))
    && (p.conn.status == 3 && q.conn.status == 3 ==> Lead(p, q) >= 0)
  }

  ghost predicate CounterInv(s: System) {
    && CounterHalf(s.x, s.y)
    && CounterHalf(s.y, s.x)
    && (s.x.conn.status == 3 && s.y.conn.status == 3 ==> 1 <= Lead(s.x, s.y) + Lead(s.y, s.x) <= 2)
  }

  lemma SyncKeepsCounters(p: Side, q: Side, c: nat, r: nat, n: nat, req: seq<nat>)
    requires CounterInv(System(p, q)) && Sync(c, r, n, req) in q.sent && c > p.conn.recvCounter - 247
    ensures CounterInv(System(Act(p, Receive(Sync(c, r, n, req))), q))
  {
  }

  lemma ActKeepsCounters(p: Side, q: Side, ev: Event)
    requires CounterInv(System(p, q)) && CanAct(p, q, ev) && Fresh(p.conn, ev)
    ensures CounterInv(System(Act(p, ev), q))
  {
    if ev.Receive? && ev.packet.Sync? {
      SyncKeepsCounters(p, q, ev.packet.counter, ev.packet.recvNum, ev.packet.sentNum, ev.packet.requested);
    }
  }

  lemma ActKeepsBoth(p: Side, q: Side, ev: Event)
    requires CounterInv(System(p, q)) && Half(p, q) && Half(q, p) && CanAct(p, q, ev) && Fresh(p.conn, ev)
    ensures CounterInv(System(Act(p, ev), q)) && Half(Act(p, ev), q) && Half(q, Act(p, ev))
  {
    ActKeepsCounters(p, q, ev);
    EventKeepsInv(p, q, ev);
  }

  lemma CounterInvSwap(s: System)
    ensures CounterInv(s) <==> CounterInv(Swap(s))
  {
  }

  lemma FreshNextKeeps(s: System, s': System)
    requires CounterInv(s) && Inv(s) && FreshNext(s, s')
    ensures CounterInv(s') && Inv(s')
  {
    var ev :| (ActX(s, s', ev) && Fresh(s.x.conn, ev)) || (ActX(Swap(s), Swap(s'), ev) && Fresh(s.y.conn, ev));
    if ActX(s, s', ev) && Fresh(s.x.conn, ev) {
      ActKeepsBoth(s.x, s.y, ev);
    } else {
      CounterInvSwap(s);
      ActKeepsBoth(s.y, s.x, ev);
      CounterInvSwap(s');
    }
  }

  lemma {:induction false} CountersInRun(run: seq<System>, i: nat)
    requires IsFreshRun(run) && i < |run|
    ensures CounterInv(run[i]) && Inv(run[i])
  {
    if i == 0 {
      InitInv(run[0]);
    } else {
      CountersInRun(run, i - 1);
      assert FreshNext(run[i - 1], run[i]);
      FreshNextKeeps(run[i - 1], run[i]);
    }
  }

  ghost predicate Established(s: System) {
    s.x.conn.status == 3 && s.y.conn.status == 3
  }

  /** q accepts the SYNC that p would build now. */
  ghost predicate CurrentSyncAccepted(p: Side, q: Side) {
    var sync := SendSync(p.conn).1;
    SyncAccepted(q.conn, sync.counter, sync.recvNum, sync.sentNum)
  }

  lemma AcceptedIffAheadHalf(p: Side, q: Side)
    requires Half(p, q) && Half(q, p) && p.conn.status == 3 && q.conn.status == 3 && 0 <= Lead(p, q) <= 2
    ensures CurrentSyncAccepted(p, q) <==> Lead(p, q) > 0
  {
    CurrentSyncFitsHalf(p, q);
    assert SendSync(p.conn).1.counter == p.conn.sendCounter;
  }

  lemma AcceptedIffAhead(s: System)
    requires Inv(s) && CounterInv(s) && Established(s)
    ensures CurrentSyncAccepted(s.x, s.y) <==> Lead(s.x, s.y) > 0
    ensures CurrentSyncAccepted(s.y, s.x) <==> Lead(s.y, s.x) > 0
  {
    AcceptedIffAheadHalf(s.x, s.y);
    AcceptedIffAheadHalf(s.y, s.x);
  }

  /**
   On an established connection the leads of the two counters are never negative and always add up
   to 1 or 2. Hence a current SYNC is accepted exactly when its sender is ahead, and at any time
   the current SYNC of at least one end is accepted: the exchange cannot deadlock.
   */
  lemma TokenConserved(run: seq<System>, i: nat)
    requires IsFreshRun(run) && i < |run| && Established(run[i])
    ensures Lead(run[i].x, run[i].y) >= 0 && Lead(run[i].y, run[i].x) >= 0
    ensures 1 <= Lead(run[i].x, run[i].y) + Lead(run[i].y, run[i].x) <= 2
    ensures CurrentSyncAccepted(run[i].x, run[i].y) <==> Lead(run[i].x, run[i].y) > 0
    ensures CurrentSyncAccepted(run[i].y, run[i].x) <==> Lead(run[i].y, run[i].x) > 0
    ensures CurrentSyncAccepted(run[i].x, run[i].y) || CurrentSyncAccepted(run[i].y, run[i].x)
  {
    CountersInRun(run, i);
    AcceptedIffAhead(run[i]);
  }

  /** The limit on lateness is exact: an accepted SYNC keeps the token if and only if it is not that late. */
  lemma FreshnessExact(p: Side, q: Side, c: nat, r: nat, n: nat, req: seq<nat>)
    requires CounterInv(System(p, q)) && Established(System(p, q))
    requires Sync(c, r, n, req) in q.sent && |req| <= BUFFER_PACKET_NUM && SyncAccepted(p.conn, c, r, n)
    ensures CounterInv(System(Act(p, Receive(Sync(c, r, n, req))), q)) <==> c > p.conn.recvCounter - 247
  {
    var ev := Receive(Sync(c, r, n, req));
    if c > p.conn.recvCounter - 247 {
      ActKeepsCounters(p, q, ev);
    } else {
      assert Lead(q, Act(p, ev)) >= 247;
    }
  }
}

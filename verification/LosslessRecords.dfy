/**
 Two connection records of `LosslessConnection` that exchange packets as they travel: what the
 theorems about the unbounded protocol mean for the 32-bit code.
 */
module LosslessRecords {
  import opened Wrappers
  import P = LosslessProtocol
  import R = LosslessReceive
  import L = LosslessSystem
  import C = LosslessConnection

  // ---------- histories of honest runs are in range ----------

  ghost predicate Timely(p: L.Side, ev: P.Event) {
    ev.Receive? ==> C.NotStale(p.conn, ev.packet)
  }

  ghost predicate TimelyX(s: L.System, s': L.System, ev: P.Event) {
    L.ActX(s, s', ev) && Timely(s.x, ev)
  }

  ghost predicate TimelyNext(s: L.System, s': L.System) {
    exists ev :: TimelyX(s, s', ev) || TimelyX(L.Swap(s), L.Swap(s'), ev)
  }

  /** A run in which no packet is 2^31 or more numbers old when it is received. */
  ghost predicate IsTimelyRun(run: seq<L.System>) {
    && |run| > 0
    && L.Init(run[0])
    && (forall i :: 0 <= i < |run| - 1 ==> TimelyNext(run[i], run[i + 1]))
  }

  lemma TimelyIsRun(run: seq<L.System>)
    requires IsTimelyRun(run)
    ensures L.IsRun(run)
  {
    forall i | 0 <= i < |run| - 1
      ensures L.Next(run[i], run[i + 1])
    {
      assert TimelyNext(run[i], run[i + 1]);
      var ev :| TimelyX(run[i], run[i + 1], ev) || TimelyX(L.Swap(run[i]), L.Swap(run[i + 1]), ev);
      assert L.ActX(run[i], run[i + 1], ev) || L.ActX(L.Swap(run[i]), L.Swap(run[i + 1]), ev);
    }
  }

  /** A history of one end that ends here and never leaves the range in which the widths agree. */
  ghost predicate InRangeHistory(id: nat, evs: seq<P.Event>, e: P.Endpoint) {
    && R.ApplyAll(P.Closed(id), evs) == e
    && (forall k :: 0 <= k < |evs| ==> C.InRange(R.ApplyAll(P.Closed(id), evs[..k]), evs[k]))
  }

  lemma HistoryGrows(id: nat, evs: seq<P.Event>, e: P.Endpoint, ev: P.Event)
    requires InRangeHistory(id, evs, e) && C.InRange(e, ev) && P.Enabled(e, ev)
    ensures InRangeHistory(id, evs + [ev], P.Apply(e, ev).0)
  {
    R.ApplyAllNext(P.Closed(id), evs, ev);
    forall k | 0 <= k < |evs + [ev]|
      ensures C.InRange(R.ApplyAll(P.Closed(id), (evs + [ev])[..k]), (evs + [ev])[k])
    {
      if k < |evs| {
        assert (evs + [ev])[..k] == evs[..k];
      } else {
        assert (evs + [ev])[..k] == evs;
      }
    }
  }

  lemma ActInRange(p: L.Side, q: L.Side, ev: P.Event)
    requires L.Half(p, q) && L.Half(q, p) && L.CanAct(p, q, ev) && Timely(p, ev)
    ensures C.InRange(p.conn, ev)
  {
    C.HonestEndInWindow(p, q);
    if ev.Receive? {
      C.HonestPacketRecent(p, q, ev.packet);
    }
  }

  lemma StepFollows(p: L.Side, q: L.Side, ev: P.Event, id: nat, evs: seq<P.Event>)
    requires L.Half(p, q) && L.Half(q, p) && L.CanAct(p, q, ev) && Timely(p, ev)
    requires InRangeHistory(id, evs, p.conn)
    ensures InRangeHistory(id, evs + [ev], L.Act(p, ev).conn)
  {
    ActInRange(p, q, ev);
    HistoryGrows(id, evs, p.conn, ev);
  }

  lemma NextFollows(s: L.System, s': L.System, idX: nat, idY: nat, xs: seq<P.Event>, ys: seq<P.Event>)
    returns (xs': seq<P.Event>, ys': seq<P.Event>)
    requires L.Inv(s) && TimelyNext(s, s')
    requires InRangeHistory(idX, xs, s.x.conn) && InRangeHistory(idY, ys, s.y.conn)
    ensures InRangeHistory(idX, xs', s'.x.conn) && InRangeHistory(idY, ys', s'.y.conn)
  {
    xs', ys' := xs, ys;
    var ev :| TimelyX(s, s', ev) || TimelyX(L.Swap(s), L.Swap(s'), ev);
    if TimelyX(s, s', ev) {
      StepFollows(s.x, s.y, ev, idX, xs);
      xs' := xs + [ev];
    } else {
      StepFollows(s.y, s.x, ev, idY, ys);
      ys' := ys + [ev];
    }
  }

  /** Each end of a timely run has a history that the record follows (`Connection.Run`). */
  lemma {:induction false} RecordsFollow(run: seq<L.System>, i: nat) returns (xs: seq<P.Event>, ys: seq<P.Event>)
    requires IsTimelyRun(run) && i < |run|
    ensures InRangeHistory(L.Base(run[0].x), xs, run[i].x.conn)
    ensures InRangeHistory(L.Base(run[0].y), ys, run[i].y.conn)
  {
    if i == 0 {
      xs, ys := [], [];
    } else {
      var xs0, ys0 := RecordsFollow(run, i - 1);
      TimelyIsRun(run);
      L.RunInv(run, i - 1);
      xs, ys := NextFollows(run[i - 1], run[i], L.Base(run[0].x), L.Base(run[0].y), xs0, ys0);
    }
  }

  // ---------- two records ----------

  /** What one end is made to do; `Deliver` hands it the k-th packet that the other end has sent. */
  datatype Move =
    | Open
    | EmitHandshake
    | Write(data: P.Payload)
    | Read
    | EmitSync
    | EmitData
    | Deliver(k: nat)

  ghost predicate Carries(wire: seq<C.WirePacket>, packets: seq<P.Packet>, sent: set<P.Packet>) {
    && |wire| == |packets|
    && (forall k :: 0 <= k < |wire| ==> wire[k] == C.Wire(packets[k]) && packets[k] in sent)
  }

  lemma NeverStale(p: L.Side, q: L.Side, packet: P.Packet)
    requires L.Half(p, q) && L.Half(q, p) && packet in q.sent
    requires |p.written| < 0x8000_0000 && |q.written| < 0x8000_0000
    ensures C.NotStale(p.conn, packet)
  {
    assert L.PacketInv(q, p, packet);
  }

  function EventOf(move: Move, incoming: seq<C.WirePacket>): C.WireEvent
    requires move.Deliver? ==> move.k < |incoming|
  {
    match move
    case Open => C.WireEvent.Open
    case EmitHandshake => C.WireEvent.EmitHandshake
    case Write(data) => C.WireEvent.Write(data)
    case Read => C.WireEvent.Read
    case EmitSync => C.WireEvent.EmitSync
    case EmitData => C.WireEvent.EmitData
    case Deliver(k) => C.WireEvent.Receive(incoming[k])
  }

  /** The same with unbounded numbers. */
  function UnboundedOf(move: Move, packets: seq<P.Packet>): P.Event
    requires move.Deliver? ==> move.k < |packets|
  {
    match move
    case Open => P.Open
    case EmitHandshake => P.EmitHandshake
    case Write(data) => P.Write(data)
    case Read => P.Read
    case EmitSync => P.EmitSync
    case EmitData => P.EmitData
    case Deliver(k) => P.Receive(packets[k])
  }

  /** One end after an event that may or may not be enabled. */
  function Acted(p: L.Side, ev: P.Event): L.Side {
    if P.Enabled(p.conn, ev) then L.Act(p, ev) else p
  }

  /** The packets one end has sent, in order, after an event. */
  function Sent(p: L.Side, packets: seq<P.Packet>, ev: P.Event): seq<P.Packet> {
    match C.Stepped(p.conn, ev).1
    case None => packets
    case Some(packet) => packets + [packet]
  }

  lemma MoveInRange(p: L.Side, q: L.Side, ev: P.Event)
    requires L.Half(p, q) && L.Half(q, p) && (ev.Receive? ==> ev.packet in q.sent)
    requires |p.written| < 0x8000_0000 && |q.written| < 0x8000_0000
    ensures C.InRange(p.conn, ev)
  {
    C.HonestEndInWindow(p, q);
    if ev.Receive? {
      NeverStale(p, q, ev.packet);
      C.HonestPacketRecent(p, q, ev.packet);
    }
  }

  lemma ActedKeeps(p: L.Side, q: L.Side, ev: P.Event)
    requires L.Half(p, q) && L.Half(q, p) && (ev.Receive? ==> ev.packet in q.sent)
    ensures L.Half(Acted(p, ev), q) && L.Half(q, Acted(p, ev))
    ensures |Acted(p, ev).written| <= |p.written| + 1
  {
    if P.Enabled(p.conn, ev) {
      L.EventKeepsInv(p, q, ev);
    }
  }

  lemma ActedIs(p: L.Side, ev: P.Event)
    requires C.InRange(p.conn, ev)
    ensures var (e, packet) := C.Stepped(p.conn, ev);
      var data := if ev.Read? && p.conn.status >= 1 then P.ReadPacket(p.conn).1 else [];
      && Acted(p, ev).conn == e
      && Acted(p, ev).sent == (if packet.Some? then p.sent + {packet.value} else p.sent)
      && Acted(p, ev).written ==
         (if ev.Write? && p.conn.status >= 1 && P.CanWrite(p.conn, ev.data) then p.written + [ev.data] else p.written)
      && Acted(p, ev).delivered == (if |data| > 0 then p.delivered + [data] else p.delivered)
  {
    R.ReadKeeps(p.conn);
  }

  /** Two ends of the unbounded protocol and, in order, the packets they have sent. */
  datatype World = World(p: L.Side, q: L.Side, ps: seq<P.Packet>, qs: seq<P.Packet>)

  /** A move of the first end. A packet that was never sent cannot be delivered. */
  function Moved(w: World, move: Move): World {
    if move.Deliver? && move.k >= |w.qs| then w
    else
      var ev := UnboundedOf(move, w.qs);
      w.(p := Acted(w.p, ev), ps := Sent(w.p, w.ps, ev))
  }

  /** The move stays in the range in which the widths agree. */
  ghost predicate CanMove(w: World, move: Move) {
    !(move.Deliver? && move.k >= |w.qs|) ==> C.InRange(w.p.conn, UnboundedOf(move, w.qs))
  }

  lemma SafeCanMove(w: World, move: Move)
    requires Safe(w) && |w.p.written| < 0x8000_0000 && |w.q.written| < 0x8000_0000
    ensures CanMove(w, move)
  {
    if !(move.Deliver? && move.k >= |w.qs|) {
      MoveInRange(w.p, w.q, UnboundedOf(move, w.qs));
    }
  }

  function Turned(w: World): World {
    World(w.q, w.p, w.qs, w.ps)
  }

  ghost predicate Safe(w: World) {
    && L.Half(w.p, w.q) && L.Half(w.q, w.p)
    && (forall k :: 0 <= k < |w.ps| ==> w.ps[k] in w.p.sent)
    && (forall k :: 0 <= k < |w.qs| ==> w.qs[k] in w.q.sent)
  }

  lemma MovedSafe(w: World, move: Move)
    requires Safe(w) && |w.p.written| < 0x8000_0000 && |w.q.written| < 0x8000_0000
    ensures Safe(Moved(w, move)) && |Moved(w, move).p.written| <= |w.p.written| + 1
  {
    if !(move.Deliver? && move.k >= |w.qs|) {
      var ev := UnboundedOf(move, w.qs);
      MoveInRange(w.p, w.q, ev);
      ActedKeeps(w.p, w.q, ev);
      ActedIs(w.p, ev);
    }
  }

  /** A record with the packets it has sent and the payloads written to it and read from it. */
  class End {
    const conn: C.Connection
    var sent: seq<C.WirePacket>
    var written: seq<P.Payload>
    var delivered: seq<P.Payload>
    ghost var side: L.Side
    ghost var packets: seq<P.Packet>

    ghost function Parts(): set<object> {
      {this, conn, conn.sendbuffer, conn.recvbuffer, conn.reqPackets}
    }

    ghost predicate Valid()
      reads Parts()
    {
      && conn.Represents(side.conn)
      && written == side.written
      && delivered == side.delivered
      && Carries(sent, packets, side.sent)
    }

    constructor (id: C.uint32)
      ensures Valid() && side == L.Side(P.Closed(id), [], [], {}) && packets == []
      ensures fresh(Parts())
    {
      conn := new C.Connection(id);
      sent, written, delivered := [], [], [];
      side, packets := L.Side(P.Closed(id), [], [], {}), [];
    }

    method Happen(event: C.WireEvent, ghost ev: P.Event)
      requires Valid() && C.InRange(side.conn, ev) && event == C.WireEventOf(ev)
      modifies Parts()
      ensures Valid() && side == Acted(old(side), ev) && packets == Sent(old(side), old(packets), ev)
    {
      ghost var e := side.conn;
      ActedIs(side, ev);
      var packet, data, ok := conn.Step(event, e, ev);
      if packet.Some? {
        sent := sent + [packet.value];
        packets := packets + [C.Stepped(e, ev).1.value];
      }
      if ok {
        written := written + [event.data];
      }
      if |data| > 0 {
        delivered := delivered + [data];
      }
      side := Acted(side, ev);
    }

    /** `w` has this end first and the other end second. */
    method Do(move: Move, incoming: seq<C.WirePacket>, ghost w: World)
      requires Valid() && side == w.p && packets == w.ps && CanMove(w, move)
      requires Carries(incoming, w.qs, w.q.sent)
      modifies Parts()
      ensures Valid() && side == Moved(w, move).p && packets == Moved(w, move).ps
    {
      if move.Deliver? && move.k >= |incoming| {
        return;
      }
      var event := EventOf(move, incoming);
      Happen(event, UnboundedOf(move, w.qs));
    }
  }

  datatype Action = Action(atX: bool, move: Move)

  function PlayedOne(w: World, action: Action): World {
    if action.atX then Moved(w, action.move) else Turned(Moved(Turned(w), action.move))
  }

  /** What a list of actions makes of two ends of the unbounded protocol. */
  function Played(w: World, actions: seq<Action>): World {
    if actions == [] then w else PlayedOne(Played(w, actions[..|actions| - 1]), actions[|actions| - 1])
  }

  lemma SafeCanAct(w: World, action: Action)
    requires Safe(w) && |w.p.written| < 0x8000_0000 && |w.q.written| < 0x8000_0000
    ensures CanMove(if action.atX then w else Turned(w), action.move)
  {
    SafeCanMove(if action.atX then w else Turned(w), action.move);
  }

  lemma PlayedOneSafe(w: World, action: Action)
    requires Safe(w) && |w.p.written| < 0x8000_0000 && |w.q.written| < 0x8000_0000
    ensures var w' := PlayedOne(w, action);
      Safe(w') && |w'.p.written| <= |w.p.written| + 1 && |w'.q.written| <= |w.q.written| + 1
  {
    if action.atX {
      MovedSafe(w, action.move);
    } else {
      MovedSafe(Turned(w), action.move);
    }
  }

  lemma {:induction false} PlayedSafe(w: World, actions: seq<Action>)
    requires Safe(w) && |w.p.written| + |actions| < 0x8000_0000 && |w.q.written| + |actions| < 0x8000_0000
    ensures var w' := Played(w, actions);
      Safe(w') && |w'.p.written| <= |w.p.written| + |actions| && |w'.q.written| <= |w.q.written| + |actions|
  {
    if actions != [] {
      PlayedSafe(w, actions[..|actions| - 1]);
      PlayedOneSafe(Played(w, actions[..|actions| - 1]), actions[|actions| - 1]);
    }
  }

  function Started(idX: nat, idY: nat): World {
    World(L.Side(P.Closed(idX), [], [], {}), L.Side(P.Closed(idY), [], [], {}), [], [])
  }

  lemma StartedSafe(idX: C.uint32, idY: C.uint32)
    requires idX != 0 && idY != 0
    ensures Safe(Started(idX, idY))
  {
    var w := Started(idX, idY);
    L.InitInv(L.System(w.p, w.q));
  }

  lemma PrefixRead(p: L.Side, q: L.Side)
    requires L.Half(p, q)
    ensures q.delivered <= p.written
  {
  }

  /** In the unbounded protocol, what is read at one end is a prefix of what was written at the other. */
  lemma PlayedInOrder(w: World, actions: seq<Action>)
    requires Safe(w) && |w.p.written| + |actions| < 0x8000_0000 && |w.q.written| + |actions| < 0x8000_0000
    ensures var w' := Played(w, actions);
      w'.q.delivered <= w'.p.written && w'.p.delivered <= w'.q.written
  {
    var w' := Played(w, actions);
    PlayedSafe(w, actions);
    PrefixRead(w'.p, w'.q);
    PrefixRead(w'.q, w'.p);
  }

  /** The records stand for these two ends. */
  ghost predicate Stand(x: End, y: End, w: World)
    reads x.Parts(), y.Parts()
  {
    && x.Parts() !! y.Parts()
    && x.Valid() && y.Valid()
    && x.side == w.p && x.packets == w.ps && y.side == w.q && y.packets == w.qs
  }

  method PlayOne(x: End, y: End, action: Action, ghost w: World)
    requires Stand(x, y, w) && CanMove(if action.atX then w else Turned(w), action.move)
    modifies x.Parts(), y.Parts()
    ensures Stand(x, y, PlayedOne(w, action))
  {
    if action.atX {
      x.Do(action.move, y.sent, w);
    } else {
      y.Do(action.move, x.sent, Turned(w));
    }
  }

  method Play(x: End, y: End, actions: seq<Action>, ghost w: World)
    requires Stand(x, y, w) && Safe(w)
    requires |w.p.written| + |actions| < 0x8000_0000 && |w.q.written| + |actions| < 0x8000_0000
    modifies x.Parts(), y.Parts()
    ensures Stand(x, y, Played(w, actions))
  {
    for i := 0 to |actions|
      invariant Stand(x, y, Played(w, actions[..i]))
    {
      assert actions[..i + 1][..i] == actions[..i];
      PlayedSafe(w, actions[..i]);
      SafeCanAct(Played(w, actions[..i]), actions[i]);
      PlayOne(x, y, actions[i], Played(w, actions[..i]));
    }
    assert actions[..|actions|] == actions;
  }

  /**
   Two records that are made to do anything, in fewer than 2^31 actions, with packets between them
   lost, repeated and reordered, write, read and send what the unbounded protocol does, although
   their numbers may wrap at 2^32; what is read at one end is a prefix of what was written at the other.
   */
  method Exchange(idX: C.uint32, idY: C.uint32, actions: seq<Action>) returns (x: End, y: End)
    requires idX != 0 && idY != 0 && |actions| < 0x8000_0000
    ensures fresh(x) && fresh(y) && Stand(x, y, Played(Started(idX, idY), actions))
    ensures y.delivered <= x.written && x.delivered <= y.written
  {
    x := new End(idX);
    y := new End(idY);
    ghost var w := Started(idX, idY);
    StartedSafe(idX, idY);
    Play(x, y, actions, w);
    PlayedInOrder(w, actions);
  }
}

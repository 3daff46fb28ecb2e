/**
 The cyclic array of pings of toxcore/ping.c, as a refinement of the plain history of all pings
 ever recorded. `now` is the clock reading of the call; the clock never goes back.
 */
module PingRing {
  import opened Wrappers

  const PING_NUM_MAX: nat := 256
  const PING_TIMEOUT: nat := 5

  datatype Pinged = Pinged(ipp: IpPort, id: nat, timestamp: nat)

  predicate IsTimeout(timestamp: nat, now: nat) {
    timestamp + PING_TIMEOUT < now
  }

  /** An ip of 0 matches any address, an id of 0 any id. */
  predicate Matches(p: Pinged, ipp: IpPort, pingId: nat) {
    (p.ipp == ipp || ipp.ip == 0) && (p.id == pingId || pingId == 0)
  }

  /** What is_pinging means: one of the last 256 pings is not timed out and matches. */
  ghost predicate Pinging(history: seq<Pinged>, ipp: IpPort, pingId: nat, now: nat) {
    && !(ipp.ip == 0 && pingId == 0)
    && exists i :: 0 <= i < |history| && |history| - PING_NUM_MAX <= i
                   && !IsTimeout(history[i].timestamp, now) && Matches(history[i], ipp, pingId)
  }

  /** The same in plain numbers: sent in the last 5 seconds, and the four ways in which a question can match. */
  lemma PingingMeans(history: seq<Pinged>, ipp: IpPort, pingId: nat, now: nat)
    ensures Pinging(history, ipp, pingId, now) <==>
            exists i :: 0 <= i < |history| && |history| <= i + 256 && now <= history[i].timestamp + 5
                        && Asked(history[i], ipp, pingId)
  {
  }

  /** By address and id, by id alone, by address alone; a question for neither matches nothing. */
  predicate Asked(p: Pinged, ipp: IpPort, pingId: nat) {
    if ipp.ip != 0 && pingId != 0 then p.ipp.ip == ipp.ip && p.ipp.port == ipp.port && p.id == pingId
    else if pingId != 0 then p.id == pingId
    else if ipp.ip != 0 then p.ipp.ip == ipp.ip && p.ipp.port == ipp.port
    else false
  }

  ghost predicate Ordered(history: seq<Pinged>, clock: nat) {
    && (forall i, j :: 0 <= i < j < |history| ==> history[i].timestamp <= history[j].timestamp)
    && (forall i :: 0 <= i < |history| ==> history[i].timestamp <= clock)
  }

  /** The i-th live ping of a ring whose oldest is at `pos`. */
  function Live(ring: seq<Pinged>, pos: nat, i: nat): Pinged
    requires |ring| == 256
  {
    ring[(pos + i) % 256]
  }

  /** The live slots, oldest first, are the end of the history; what is no longer live cannot be asked for. */
  ghost predicate Refines(ring: seq<Pinged>, pos: nat, num: nat, history: seq<Pinged>, clock: nat) {
    && |ring| == 256 && num <= 256 && pos < 256 && num <= |history|
    && Ordered(history, clock)
    && (forall i :: 0 <= i < num ==> Live(ring, pos, i) == history[|history| - num + i])
    && (forall j :: 0 <= j < |history| - num ==> j < |history| - 256 || IsTimeout(history[j].timestamp, clock))
  }

  lemma LiveShift(ring: seq<Pinged>, pos: nat, k: nat, i: nat)
    requires |ring| == 256
    ensures Live(ring, (pos + k) % 256, i) == Live(ring, pos, k + i)
  {
    assert ((pos + k) % 256 + i) % 256 == (pos + k + i) % 256;
  }

  lemma LivePut(ring: seq<Pinged>, pos: nat, num: nat, x: Pinged, i: nat)
    requires |ring| == 256 && i <= num < 256
    ensures Live(ring[(pos + num) % 256 := x], pos, i) == if i == num then x else Live(ring, pos, i)
  {
    if i < num {
      assert (pos + i) % 256 != (pos + num) % 256;
    }
  }

  /** Dropping the k oldest live pings is sound when they are timed out. */
  lemma DropTimedOut(ring: seq<Pinged>, pos: nat, num: nat, history: seq<Pinged>, clock: nat, k: nat, now: nat)
    requires Refines(ring, pos, num, history, clock) && k <= num && clock <= now
    requires forall i :: 0 <= i < k ==> IsTimeout(Live(ring, pos, i).timestamp, now)
    ensures Refines(ring, (pos + k) % 256, num - k, history, now)
  {
    var pos' := (pos + k) % 256;
    forall i | 0 <= i < num - k
      ensures Live(ring, pos', i) == history[|history| - (num - k) + i]
    {
      LiveShift(ring, pos, k, i);
    }
    forall j | 0 <= j < |history| - (num - k)
      ensures j < |history| - 256 || IsTimeout(history[j].timestamp, now)
    {
      if j >= |history| - num {
        assert Live(ring, pos, j - (|history| - num)) == history[j];
      }
    }
  }

  /** After the first live ping that is not timed out there is none that is. */
  lemma RestIsLive(ring: seq<Pinged>, pos: nat, num: nat, history: seq<Pinged>, clock: nat, now: nat)
    requires Refines(ring, pos, num, history, clock)
    requires num > 0 ==> !IsTimeout(Live(ring, pos, 0).timestamp, now)
    ensures forall j :: |history| - num <= j < |history| ==> !IsTimeout(history[j].timestamp, now)
  {
    if num > 0 {
      assert Live(ring, pos, 0) == history[|history| - num];
    }
  }

  /** A new ping goes behind the live ones; a full ring gives up its oldest, which is then 256 pings old. */
  lemma PutNewest(ring: seq<Pinged>, pos: nat, num: nat, history: seq<Pinged>, clock: nat, x: Pinged)
    requires Refines(ring, pos, num, history, clock) && x.timestamp == clock
    ensures var pos' := if num == 256 then (pos + 1) % 256 else pos;
      var num' := if num == 256 then 255 else num;
      Refines(ring[(pos' + num') % 256 := x], pos', num' + 1, history + [x], clock)
  {
    var pos' := if num == 256 then (pos + 1) % 256 else pos;
    var num' := if num == 256 then 255 else num;
    var ring' := ring[(pos' + num') % 256 := x];
    var h := history + [x];
    forall i | 0 <= i < num' + 1
      ensures Live(ring', pos', i) == h[|h| - (num' + 1) + i]
    {
      LivePut(ring, pos', num', x, i);
      if num == 256 {
        LiveShift(ring, pos, 1, i);
      }
      if i < num' {
        assert Live(ring, pos', i) == history[|history| - num' + i];
      }
    }
  }

  class Ping {
    const pings: array<Pinged>
    var numPings: nat
    var posPings: nat
    ghost var history: seq<Pinged>
    ghost var clock: nat

    ghost predicate Valid()
      reads this, pings
    {
      Refines(pings[..], posPings, numPings, history, clock)
    }

    constructor ()
      ensures Valid() && history == [] && clock == 0 && fresh(pings)
    {
      pings := new Pinged[256](_ => Pinged(IpPort(0, 0), 0, 0));
      numPings, posPings, history, clock := 0, 0, [], 0;
    }

    /** Loops from the oldest ping and stops at the first that is not timed out, because times are ordered. */
    method RemoveTimeouts(now: nat)
      requires Valid() && clock <= now
      modifies this
      ensures Valid() && history == old(history) && clock == now
      ensures forall j :: |history| - numPings <= j < |history| ==> !IsTimeout(history[j].timestamp, now)
    {
      var newPos, newNum := posPings, numPings;
      var i := 0;
      while i < numPings
        invariant 0 <= i <= numPings
        invariant newPos == posPings + i && newNum == numPings - i
        invariant forall j :: 0 <= j < i ==> IsTimeout(Live(pings[..], posPings, j).timestamp, now)
      {
        var id := (posPings + i) % PING_NUM_MAX;
        if IsTimeout(pings[id].timestamp, now) {
          newPos := newPos + 1;
          newNum := newNum - 1;
        } else {
          break;
        }
        i := i + 1;
      }
      DropTimedOut(pings[..], posPings, numPings, history, clock, i, now);
      LiveShift(pings[..], posPings, i, 0);
      RestIsLive(pings[..], newPos % 256, newNum, history, now, now);
      numPings := newNum;
      posPings := newPos % PING_NUM_MAX;
      clock := now;
    }

    method AddPing(ipp: IpPort, now: nat, pingId: nat)
      requires Valid() && clock <= now
      modifies this, pings
      ensures Valid() && history == old(history) + [Pinged(ipp, pingId, now)] && clock == now
    {
      RemoveTimeouts(now);
      Insert(Pinged(ipp, pingId, now));
    }

    /** The second half of add_ping. */
    method Insert(x: Pinged)
      requires Valid() && x.timestamp == clock
      modifies this, pings
      ensures Valid() && history == old(history) + [x] && clock == old(clock)
    {
      ghost var ring, h := pings[..], history;
      PutNewest(ring, posPings, numPings, h, clock, x);
      if numPings == PING_NUM_MAX {
        numPings := numPings - 1;
        posPings := (posPings + 1) % PING_NUM_MAX;
      }
      var p := (posPings + numPings) % PING_NUM_MAX;
      pings[p] := x;
      numPings := numPings + 1;
      history := h + [x];
      assert pings[..] == ring[p := x];
    }

    method IsPinging(ipp: IpPort, pingId: nat, now: nat) returns (found: bool)
      requires Valid() && clock <= now
      modifies this
      ensures Valid() && history == old(history) && old(clock) <= clock <= now
      ensures found <==> Pinging(history, ipp, pingId, now)
    {
      if ipp.ip == 0 && pingId == 0 {
        return false;
      }
      RemoveTimeouts(now);
      for i := 0 to numPings
        invariant forall j :: |history| - numPings <= j < |history| - numPings + i ==> !Matches(history[j], ipp, pingId)
      {
        var id := (posPings + i) % PING_NUM_MAX;
        assert pings[id] == Live(pings[..], posPings, i) == history[|history| - numPings + i];
        if Matches(pings[id], ipp, pingId) {
          return true;
        }
      }
      return false;
    }
  }
}

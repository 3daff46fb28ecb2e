/**
 Port guessing for NAT hole punching in toxcore/DHT.c: probe number i tries the i/2-th known port,
 cyclically, moved up or down by an offset that grows by one after every two rounds.
 */
module HolePunching {
  import opened Remainders

  const MAX_FRIEND_CLIENTS: nat := 8
  const MAX_PUNCHING_PORTS: nat := 32

  datatype Probe = Probe(position: nat, offset: nat, down: bool)

  /** The list position, offset and direction of probe number i, as punch_holes computes them. */
  function ProbeOf(i: nat, n: nat): Probe
    requires n > 0
  {
    Probe((i / 2) % n, Round(i, 2 * n), i % 2 == 1)
  }

  function Round(i: nat, m: nat): nat
    requires m > 0
  {
    i / m
  }

  /** A 16-bit port moved by an offset. */
  function Moved(port: nat, offset: nat, down: bool): nat {
    if down then (port - offset) % 65536 else (port + offset) % 65536
  }

  function PortOf(ports: seq<nat>, p: Probe): nat
    requires p.position < |ports|
  {
    Moved(ports[p.position], p.offset, p.down)
  }

  /** The number of a probe: the inverse of ProbeOf. */
  function NumberOf(p: Probe, n: nat): nat {
    2 * (n * p.offset + p.position) + (if p.down then 1 else 0)
  }

  /** Probe numbers are 32 bits wide. */
  function Index(i: nat): nat {
    i % 0x1_0000_0000
  }

  lemma IndexEqual(i: nat, k: nat)
    requires k <= 32
    ensures Index(i + k) == Index(i + 32) <==> k == 32
  {
  }

  function PortAt(ports: seq<nat>, i: nat): nat
    requires |ports| > 0
  {
    PortOf(ports, ProbeOf(i, |ports|))
  }

  /** The port that the j-th probe after probe number i tries. */
  function ProbedPort(ports: seq<nat>, i: nat, j: nat): nat
    requires |ports| > 0
  {
    PortAt(ports, Index(i + j))
  }

  method PunchHoles(ports: seq<nat>, punchingIndex: nat) returns (probes: seq<nat>, newIndex: nat)
    requires punchingIndex < 0x1_0000_0000
    ensures newIndex < 0x1_0000_0000
    ensures |ports| > 8 || |ports| == 0 ==> probes == [] && newIndex == punchingIndex
    ensures 0 < |ports| <= 8 ==>
              && newIndex == Index(punchingIndex + 32)
              && |probes| == 32
              && forall j :: 0 <= j < 32 ==> probes[j] == ProbedPort(ports, punchingIndex, j)
  {
    probes, newIndex := [], punchingIndex;
    if |ports| > MAX_FRIEND_CLIENTS || |ports| == 0 {
      return;
    }
    var i := punchingIndex;
    var top := Index(punchingIndex + MAX_PUNCHING_PORTS);
    while i != top
      invariant |probes| <= MAX_PUNCHING_PORTS && i == Index(punchingIndex + |probes|)
      invariant forall j :: 0 <= j < |probes| ==> probes[j] == ProbedPort(ports, punchingIndex, j)
      decreases MAX_PUNCHING_PORTS - |probes|
    {
      IndexEqual(punchingIndex, |probes|);
      IndexAdd(punchingIndex + |probes|, 1);
      var port := PortAt(ports, i);
      probes := probes + [port];
      i := Index(i + 1);
    }
    IndexEqual(punchingIndex, |probes|);
    newIndex := i;
  }

  lemma IndexAdd(i: nat, k: nat)
    ensures Index(Index(i) + k) == Index(i + k)
  {
    var m := 0x1_0000_0000;
    var x := i % m + k;
    Remainder(i + k, i / m + x / m, x % m, m);
  }

  lemma ProbesContinue(ports: seq<nat>, i: nat, j: nat)
    requires |ports| > 0
    ensures ProbedPort(ports, Index(i), j) == ProbedPort(ports, 0, i + j)
  {
    IndexAdd(i, j);
  }

  /** How far port q lies above port p, going round. */
  function Above(q: nat, p: nat): nat {
    (q - p) % 65536
  }

  /** Every port at most d above or below a known one is among the probes, for each d that so many rounds reach. */
  ghost predicate Covered(ports: seq<nat>, rounds: nat, probes: seq<nat>) {
    forall known: nat, d: nat, q: nat ::
      known < |ports| && 2 * |ports| * (d + 1) <= 32 * rounds && q < 65536 && Within(q, ports[known], d) ==> q in probes
  }

  predicate Within(q: nat, p: nat, d: nat) {
    Above(q, p) <= d || Above(p, q) <= d
  }

  lemma MovedUp(q: nat, p: nat)
    requires q < 65536
    ensures Moved(p, Above(q, p), false) == q
  {
  }

  lemma MovedDown(q: nat, p: nat)
    requires q < 65536
    ensures Moved(p, Above(p, q), true) == q
  {
  }

  lemma FewerRounds(n: nat, d: nat, e: nat)
    requires e <= d
    ensures 2 * n * (e + 1) <= 2 * n * (d + 1)
  {
    MulMonotone(2 * n, e + 1, d + 1);
  }

  lemma AllCovered(ports: seq<nat>, rounds: nat, probes: seq<nat>)
    requires |ports| > 0 && 32 * rounds <= 0x1_0000_0000 && |probes| == 32 * rounds
    requires forall j :: 0 <= j < 32 * rounds ==> probes[j] == ProbedPort(ports, 0, j)
    ensures Covered(ports, rounds, probes)
  {
    forall known: nat, d: nat, q: nat |
      known < |ports| && 2 * |ports| * (d + 1) <= 32 * rounds && q < 65536 && Within(q, ports[known], d)
      ensures q in probes
    {
      var p := ports[known];
      var down := Above(q, p) > d;
      var e := if down then Above(p, q) else Above(q, p);
      MovedUp(q, p);
      MovedDown(q, p);
      FewerRounds(|ports|, d, e);
      RoundsCover(ports, rounds, known, e, down);
      var j :| 0 <= j < 32 * rounds && ProbedPort(ports, 0, j) == Moved(p, e, down);
      assert probes[j] in probes;
    }
  }

  /** The order of the probes: offset by offset, port by port, up before down. */
  lemma ProbeSequence(ports: seq<nat>, offset: nat, j: nat)
    requires j < |ports|
    ensures var i := 2 * (|ports| * offset + j);
      && PortAt(ports, i) == (ports[j] + offset) % 65536
      && PortAt(ports, i + 1) == (ports[j] - offset) % 65536
  {
    ProbeOfNumber(Probe(j, offset, false), |ports|);
    ProbeOfNumber(Probe(j, offset, true), |ports|);
  }

  /** `rounds` calls of punch_holes with the same list of ports, the first from probe number 0. */
  method PunchRounds(ports: seq<nat>, rounds: nat) returns (probes: seq<nat>, index: nat)
    requires 0 < |ports| <= 8
    ensures |probes| == 32 * rounds && index == Index(32 * rounds)
    ensures forall j :: 0 <= j < 32 * rounds ==> probes[j] == ProbedPort(ports, 0, j)
    ensures 32 * rounds <= 0x1_0000_0000 ==> Covered(ports, rounds, probes)
  {
    probes, index := [], 0;
    for k := 0 to rounds
      invariant |probes| == 32 * k && index == Index(|probes|)
      invariant forall j :: 0 <= j < |probes| ==> probes[j] == ProbedPort(ports, 0, j)
    {
      var more, next := PunchHoles(ports, index);
      forall j | 0 <= j < 32
        ensures more[j] == ProbedPort(ports, 0, |probes| + j)
      {
        ProbesContinue(ports, |probes|, j);
      }
      IndexAdd(|probes|, 32);
      probes, index := probes + more, next;
    }
    if 32 * rounds <= 0x1_0000_0000 {
      AllCovered(ports, rounds, probes);
    }
  }

  /** Until the numbers wrap, these are the probes numbered 0, 1, 2, ... without a gap. */
  lemma ProbesInOrder(ports: seq<nat>, j: nat)
    requires |ports| > 0 && j < 0x1_0000_0000
    ensures ProbeOf(j, |ports|).position < |ports|
    ensures ProbedPort(ports, 0, j) == PortOf(ports, ProbeOf(j, |ports|))
  {
    NumberOfProbe(j, |ports|);
  }

  // ---------- the enumeration ----------

  lemma Division(x: nat, q: nat, r: nat, m: nat)
    requires m > 0 && x == m * q + r && r < m
    ensures x / m == q && x % m == r
  {
    Remainder(x, q, r, m);
    Quotient(x, q, r, m);
  }

  /** Every triple of list position, offset and direction has a number, and that number tries it. */
  lemma ProbeOfNumber(p: Probe, n: nat)
    requires p.position < n
    ensures ProbeOf(NumberOf(p, n), n) == p
  {
    var sign := if p.down then 1 else 0;
    var half := n * p.offset + p.position;
    var i := 2 * half + sign;
    assert i / 2 == half && i % 2 == sign;
    Division(half, p.offset, p.position, n);
    assert i == (2 * n) * p.offset + (2 * p.position + sign);
    Division(i, p.offset, 2 * p.position + sign, 2 * n);
  }

  /** No two numbers try the same triple. */
  lemma NumberOfProbe(i: nat, n: nat)
    requires n > 0
    ensures ProbeOf(i, n).position < n
    ensures NumberOf(ProbeOf(i, n), n) == i
  {
    var half, sign := i / 2, i % 2;
    var q, r := half / n, half % n;
    assert half == n * q + r;
    assert i == (2 * n) * q + (2 * r + sign);
    Division(i, q, 2 * r + sign, 2 * n);
  }

  /** Offsets never decrease, and the first 2n(k + 1) numbers are exactly those with offset at most k. */
  lemma OffsetsInOrder(i: nat, n: nat, k: nat)
    requires n > 0
    ensures i < 2 * n * (k + 1) <==> ProbeOf(i, n).offset <= k
    ensures ProbeOf(i, n).offset <= ProbeOf(i + 1, n).offset
  {
    OffsetBelow(i, n, k);
    OffsetBelow(i, n, ProbeOf(i + 1, n).offset);
    OffsetBelow(i + 1, n, ProbeOf(i + 1, n).offset);
  }

  lemma OffsetBelow(i: nat, n: nat, k: nat)
    requires n > 0
    ensures i < 2 * n * (k + 1) <==> i / (2 * n) <= k
  {
    var m := 2 * n;
    var q := i / m;
    assert i == m * q + i % m;
    assert m * (k + 1) == 2 * n * (k + 1);
    if q <= k {
      MulMonotone(m, q + 1, k + 1);
      assert m * (q + 1) == m * q + m;
    } else {
      MulMonotone(m, k + 1, q);
    }
  }

  /** After 2n(d + 1) probes the ports at offset d from every known one have been tried. */
  lemma PortsWithinCovered(ports: seq<nat>, known: nat, d: nat, down: bool)
    requires known < |ports|
    ensures exists i: nat :: i < 2 * |ports| * (d + 1) && ProbeOf(i, |ports|).position < |ports|
              && PortOf(ports, ProbeOf(i, |ports|)) == Moved(ports[known], d, down)
  {
    var p := Probe(known, d, down);
    var i := NumberOf(p, |ports|);
    ProbeOfNumber(p, |ports|);
    OffsetsInOrder(i, |ports|, d);
    assert i < 2 * |ports| * (d + 1) && ProbeOf(i, |ports|).position < |ports|;
  }

  /** So many rounds of punch_holes, and the ports at distance d from a known one have been tried. */
  lemma RoundsCover(ports: seq<nat>, rounds: nat, known: nat, d: nat, down: bool)
    requires known < |ports| && 2 * |ports| * (d + 1) <= 32 * rounds <= 0x1_0000_0000
    ensures exists j :: 0 <= j < 32 * rounds && ProbedPort(ports, 0, j) == Moved(ports[known], d, down)
  {
    PortsWithinCovered(ports, known, d, down);
    var j: nat :| j < 2 * |ports| * (d + 1) && ProbeOf(j, |ports|).position < |ports|
                  && PortOf(ports, ProbeOf(j, |ports|)) == Moved(ports[known], d, down);
    ProbesInOrder(ports, j);
  }
}

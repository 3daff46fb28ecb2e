/**
 When the answer of get_close_nodes is the 8 closest nodes.

 A full answer gives up the first node that is further away than the new one, which need not be a
 furthest one. `EvictionExact` says for one candidate, and `ClosestThroughout` for a whole list of
 candidates, when the answer stays the 8 closest; `FurthestFirstFails` shows a family of lists for
 which it does not. `AnswerOrder` says from the list alone when the returned answer is the 8 closest.
 Closeness is a matter of distances, because different ids can be equally far.
 */
module ClosestAnswer {
  import opened Wrappers
  import opened ClientDistance
  import opened DhtLists
  import opened CloseNodes
  import S = DhtStream

  function Distances(nodes: seq<Node>, target: Id): multiset<nat> {
    if nodes == [] then multiset{}
    else Distances(nodes[..|nodes| - 1], target) + multiset{Distance(target, nodes[|nodes| - 1].clientId)}
  }

  /** The distances of the good candidates, every id once. */
  function GoodDistances(cs: seq<ClientData>, target: Id, now: nat): multiset<nat> {
    if cs == [] then multiset{}
    else
      var before, c := cs[..|cs| - 1], cs[|cs| - 1];
      GoodDistances(before, target, now) +
      (if Bad(c, now) || c.clientId in GoodIds(before, now) then multiset{} else multiset{Distance(target, c.clientId)})
  }

  /** The answer is the 8 closest of the good candidates, or all of them if there are fewer. */
  ghost predicate HoldsClosest(a: Answer, cs: seq<ClientData>, target: Id, now: nat)
    requires a.num <= |a.nodes|
  {
    S.KSmallest(Distances(a.nodes[..a.num], target), GoodDistances(cs, target, now), 8)
  }

  // ---------- bags of distances ----------

  lemma {:induction false} DistancesConcat(s: seq<Node>, t: seq<Node>, target: Id)
    ensures Distances(s + t, target) == Distances(s, target) + Distances(t, target)
  {
    if t == [] {
      assert s + t == s;
    } else {
      assert (s + t)[..|s + t| - 1] == s + t[..|t| - 1];
      DistancesConcat(s, t[..|t| - 1], target);
    }
  }

  lemma DistancesWithout(nodes: seq<Node>, k: nat, target: Id)
    requires k < |nodes|
    ensures Distances(nodes, target) == Distances(Without(nodes, k), target) + multiset{Distance(target, nodes[k].clientId)}
  {
    var one := [nodes[k]];
    assert nodes == nodes[..k] + (one + nodes[k + 1..]);
    DistancesConcat(nodes[..k], one + nodes[k + 1..], target);
    DistancesConcat(one, nodes[k + 1..], target);
    DistancesConcat(nodes[..k], nodes[k + 1..], target);
    assert one[..0] == [];
  }

  lemma DistancesUpdate(nodes: seq<Node>, k: nat, n: Node, target: Id)
    requires k < |nodes|
    ensures Distances(nodes[k := n], target) ==
            Distances(Without(nodes, k), target) + multiset{Distance(target, n.clientId)}
  {
    DistancesWithout(nodes[k := n], k, target);
    assert Without(nodes[k := n], k) == Without(nodes, k);
  }

  lemma {:induction false} DistancesSize(nodes: seq<Node>, target: Id)
    ensures |Distances(nodes, target)| == |nodes|
  {
    if nodes != [] {
      DistancesSize(nodes[..|nodes| - 1], target);
    }
  }

  lemma {:induction false} DistanceFrom(nodes: seq<Node>, target: Id, x: nat) returns (i: nat)
    requires x in Distances(nodes, target)
    ensures i < |nodes| && Distance(target, nodes[i].clientId) == x
  {
    if Distance(target, nodes[|nodes| - 1].clientId) == x {
      i := |nodes| - 1;
    } else {
      i := DistanceFrom(nodes[..|nodes| - 1], target, x);
    }
  }

  /** No kept distance is above d exactly when there is no further node. */
  lemma AllWithin(nodes: seq<Node>, target: Id, d: nat)
    ensures (forall x :: x in Distances(nodes, target) ==> x <= d) <==>
            (forall i :: 0 <= i < |nodes| ==> Distance(target, nodes[i].clientId) <= d)
  {
    forall x | x in Distances(nodes, target) && (forall i :: 0 <= i < |nodes| ==> Distance(target, nodes[i].clientId) <= d)
      ensures x <= d
    {
      var i := DistanceFrom(nodes, target, x);
    }
    forall i | 0 <= i < |nodes|
      ensures Distance(target, nodes[i].clientId) in Distances(nodes, target)
    {
      DistancesWithout(nodes, i, target);
    }
  }

  lemma WithoutKeepsIds(nodes: seq<Node>, k: nat, ids: set<Id>)
    requires k < |nodes| && (forall i, j :: 0 <= i < j < |nodes| ==> nodes[i].clientId != nodes[j].clientId)
    requires forall i :: 0 <= i < |nodes| ==> nodes[i].clientId in ids
    ensures forall i, j :: 0 <= i < j < |Without(nodes, k)| ==>
                             Without(nodes, k)[i].clientId != Without(nodes, k)[j].clientId
    ensures forall i :: 0 <= i < |Without(nodes, k)| ==> Without(nodes, k)[i].clientId in ids - {nodes[k].clientId}
  {
  }

  /** Different good candidates contribute their distances side by side. */
  lemma {:induction false} DistancesIncluded(nodes: seq<Node>, cs: seq<ClientData>, target: Id, now: nat)
    requires forall i, j :: 0 <= i < j < |nodes| ==> nodes[i].clientId != nodes[j].clientId
    requires forall i :: 0 <= i < |nodes| ==> nodes[i].clientId in GoodIds(cs, now)
    ensures Distances(nodes, target) <= GoodDistances(cs, target, now)
    decreases |cs|
  {
    if cs != [] {
      var before, c := cs[..|cs| - 1], cs[|cs| - 1];
      if !Bad(c, now) && c.clientId !in GoodIds(before, now) && InNodeList(nodes, c.clientId) {
        var k :| 0 <= k < |nodes| && nodes[k].clientId == c.clientId;
        WithoutKeepsIds(nodes, k, GoodIds(cs, now));
        DistancesIncluded(Without(nodes, k), before, target, now);
        DistancesWithout(nodes, k, target);
      } else {
        DistancesIncluded(nodes, before, target, now);
      }
    }
  }

  lemma GoodDistancesAppend(cs: seq<ClientData>, c: ClientData, target: Id, now: nat)
    ensures GoodDistances(cs + [c], target, now) ==
            if Bad(c, now) || c.clientId in GoodIds(cs, now) then GoodDistances(cs, target, now)
            else GoodDistances(cs, target, now) + multiset{Distance(target, c.clientId)}
  {
    assert (cs + [c])[..|cs|] == cs;
  }

  // ---------- one candidate ----------

  /** The node that a full answer gives up for this id, if any, is a furthest one. */
  predicate GivesUpFurthest(nodes: seq<Node>, target: Id, id: Id) {
    var k := FirstFurther(nodes, target, id);
    k < |nodes| ==>
      forall i :: 0 <= i < |nodes| ==> Distance(target, nodes[i].clientId) <= Distance(target, nodes[k].clientId)
  }

  lemma EvictExact(rest: multiset<nat>, all: multiset<nat>, d: nat, m: nat)
    requires S.KSmallest(rest + multiset{m}, all, 8) && |rest| == 7 && d < m
    ensures S.KSmallest(rest + multiset{d}, all + multiset{d}, 8) <==> forall x :: x in rest ==> x <= m
  {
    if forall x :: x in rest ==> x <= m {
      S.SmallestEvict(rest, all, 8, d, m);
    } else {
      var x :| x in rest && x > m;
      assert x in rest + multiset{d} && m in all + multiset{d} - (rest + multiset{d});
    }
  }

  /** One more good candidate beside different good candidates: its distance is there as well. */
  lemma OneMoreIncluded(nodes: seq<Node>, cs: seq<ClientData>, n: Node, target: Id, now: nat)
    requires forall i, j :: 0 <= i < j < |nodes| ==> nodes[i].clientId != nodes[j].clientId
    requires forall i :: 0 <= i < |nodes| ==> nodes[i] in GoodNodes(cs, now)
    requires n.clientId in GoodIds(cs, now) && !InNodeList(nodes, n.clientId)
    ensures Distances(nodes, target) + multiset{Distance(target, n.clientId)} <= GoodDistances(cs, target, now)
  {
    var all := nodes + [n];
    forall i | 0 <= i < |all|
      ensures all[i].clientId in GoodIds(cs, now)
    {
      if i < |nodes| {
        GoodNodesHaveGoodIds(cs, now, nodes[i]);
      }
    }
    DistancesIncluded(all, cs, target, now);
    assert all[..|nodes|] == nodes;
  }

  lemma IncludedIsFurther(kept: multiset<nat>, all: multiset<nat>, d: nat)
    requires S.KSmallest(kept, all, 8) && kept + multiset{d} <= all
    ensures forall x :: x in kept ==> x <= d
  {
    assert d in all - kept;
  }

  /** A candidate seen before that is not in the answer is no closer than any node of it. */
  lemma SeenIsFurther(nodes: seq<Node>, cs: seq<ClientData>, n: Node, target: Id, now: nat)
    requires forall i, j :: 0 <= i < j < |nodes| ==> nodes[i].clientId != nodes[j].clientId
    requires forall i :: 0 <= i < |nodes| ==> nodes[i] in GoodNodes(cs, now)
    requires S.KSmallest(Distances(nodes, target), GoodDistances(cs, target, now), 8)
    requires n.clientId in GoodIds(cs, now) && !InNodeList(nodes, n.clientId)
    ensures FirstFurther(nodes, target, n.clientId) == |nodes|
  {
    OneMoreIncluded(nodes, cs, n, target, now);
    IncludedIsFurther(Distances(nodes, target), GoodDistances(cs, target, now), Distance(target, n.clientId));
    AllWithin(nodes, target, Distance(target, n.clientId));
  }

  lemma FullRejects(a: Answer, cs: seq<ClientData>, c: ClientData, target: Id, now: nat)
    requires |a.nodes| == 8 == a.num && HoldsClosest(a, cs, target, now) && !Bad(c, now)
    requires FirstFurther(a.nodes, target, c.clientId) == 8
    ensures HoldsClosest(a, cs + [c], target, now)
  {
    assert a.nodes[..8] == a.nodes;
    GoodDistancesAppend(cs, c, target, now);
    AllWithin(a.nodes, target, Distance(target, c.clientId));
    DistancesSize(a.nodes, target);
    if c.clientId !in GoodIds(cs, now) {
      S.SmallestReject(Distances(a.nodes, target), GoodDistances(cs, target, now), 8, Distance(target, c.clientId));
    }
  }

  lemma ReplaceExact(nodes: seq<Node>, k: nat, n: Node, all: multiset<nat>, target: Id)
    requires |nodes| == 8 && k < 8 && S.KSmallest(Distances(nodes, target), all, 8)
    requires Distance(target, n.clientId) < Distance(target, nodes[k].clientId)
    ensures S.KSmallest(Distances(nodes[k := n], target), all + multiset{Distance(target, n.clientId)}, 8) <==>
            forall i :: 0 <= i < 8 ==> Distance(target, nodes[i].clientId) <= Distance(target, nodes[k].clientId)
  {
    var rest, m := Distances(Without(nodes, k), target), Distance(target, nodes[k].clientId);
    DistancesWithout(nodes, k, target);
    DistancesUpdate(nodes, k, n, target);
    DistancesSize(Without(nodes, k), target);
    AllWithin(nodes, target, m);
    assert forall x :: x in rest ==> x in Distances(nodes, target);
    assert forall x :: x in Distances(nodes, target) ==> x in rest || x == m;
    EvictExact(rest, all, Distance(target, n.clientId), m);
  }

  lemma FullEvicts(a: Answer, cs: seq<ClientData>, c: ClientData, target: Id, now: nat)
    requires |a.nodes| == 8 == a.num && HoldsClosest(a, cs, target, now)
    requires !Bad(c, now) && c.clientId !in GoodIds(cs, now)
    requires FirstFurther(a.nodes, target, c.clientId) < 8
    ensures var k := FirstFurther(a.nodes, target, c.clientId);
      HoldsClosest(a.(nodes := a.nodes[k := Node(c.clientId, c.ipPort)]), cs + [c], target, now) <==>
      GivesUpFurthest(a.nodes, target, c.clientId)
  {
    var k, n := FirstFurther(a.nodes, target, c.clientId), Node(c.clientId, c.ipPort);
    var b := a.nodes[k := n];
    assert a.nodes[..8] == a.nodes && b[..8] == b;
    GoodDistancesAppend(cs, c, target, now);
    ReplaceExact(a.nodes, k, n, GoodDistances(cs, target, now), target);
  }

  /**
   A full answer that is the 8 closest so far is the 8 closest after one more candidate if and only
   if the first node further away than the candidate, if there is one, is a furthest node.
   */
  lemma EvictionExact(a: Answer, cs: seq<ClientData>, c: ClientData, target: Id, now: nat)
    requires |a.nodes| == 8 == a.num && Distinct(a) && FromCandidates(a, cs, now) && HoldsClosest(a, cs, target, now)
    requires !Bad(c, now) && !InNodeList(a.nodes, c.clientId)
    ensures HoldsClosest(Consider(a, c, target, now), cs + [c], target, now) <==>
            GivesUpFurthest(a.nodes, target, c.clientId)
  {
    if c.clientId in GoodIds(cs, now) {
      assert a.nodes[..8] == a.nodes;
      SeenIsFurther(a.nodes, cs, Node(c.clientId, c.ipPort), target, now);
    }
    if FirstFurther(a.nodes, target, c.clientId) == 8 {
      FullRejects(a, cs, c, target, now);
    } else {
      FullEvicts(a, cs, c, target, now);
    }
  }

  // ---------- a list of candidates ----------

  /** The candidate, if the code looks at it at all, costs a full answer only a furthest node. */
  predicate StepKeeps(a: Answer, c: ClientData, target: Id, now: nat) {
    a.num == 8 && !Bad(c, now) && !InNodeList(a.nodes, c.clientId) ==> GivesUpFurthest(a.nodes, target, c.clientId)
  }

  lemma UnknownIsNew(a: Answer, start: seq<Node>, cs: seq<ClientData>, c: ClientData, target: Id, now: nat)
    requires AnswerInv(a, start, cs, target, now) && Foreign(start, cs + [c], now) && a.num < 8
    requires !Bad(c, now) && !InNodeList(a.nodes, c.clientId)
    ensures c.clientId !in GoodIds(cs, now)
  {
    GoodAppend(cs, c, now);
    AllVisible(start, cs, now);
    IdsOfAre(a.nodes[..a.num], c.clientId);
    assert forall i :: 0 <= i < a.num ==> a.nodes[..a.num][i] == a.nodes[i];
  }

  lemma FillHolds(a: Answer, start: seq<Node>, cs: seq<ClientData>, c: ClientData, target: Id, now: nat)
    requires AnswerInv(a, start, cs, target, now) && Foreign(start, cs + [c], now) && a.num < 8
    requires HoldsClosest(a, cs, target, now) && !Bad(c, now) && !InNodeList(a.nodes, c.clientId)
    ensures HoldsClosest(Consider(a, c, target, now), cs + [c], target, now)
  {
    var d := Distance(target, c.clientId);
    var b := Consider(a, c, target, now);
    UnknownIsNew(a, start, cs, c, target, now);
    GoodDistancesAppend(cs, c, target, now);
    assert b.nodes[..b.num][..a.num] == a.nodes[..a.num];
    DistancesSize(a.nodes[..a.num], target);
    S.SmallestAdd(Distances(a.nodes[..a.num], target), GoodDistances(cs, target, now), 8, d);
  }

  lemma KnownHolds(a: Answer, start: seq<Node>, cs: seq<ClientData>, c: ClientData, target: Id, now: nat)
    requires AnswerInv(a, start, cs, target, now) && Foreign(start, cs + [c], now) && HoldsClosest(a, cs, target, now)
    requires Bad(c, now) || InNodeList(a.nodes, c.clientId)
    ensures HoldsClosest(a, cs + [c], target, now)
  {
    GoodAppend(cs, c, now);
    GoodDistancesAppend(cs, c, target, now);
    if !Bad(c, now) {
      var i :| 0 <= i < 8 && a.nodes[i].clientId == c.clientId;
      assert i < a.num;
      GoodNodesHaveGoodIds(cs, now, a.nodes[i]);
    }
  }

  lemma ConsiderExact(a: Answer, start: seq<Node>, cs: seq<ClientData>, c: ClientData, target: Id, now: nat)
    requires AnswerInv(a, start, cs, target, now) && Foreign(start, cs + [c], now) && HoldsClosest(a, cs, target, now)
    ensures HoldsClosest(Consider(a, c, target, now), cs + [c], target, now) <==> StepKeeps(a, c, target, now)
  {
    if Bad(c, now) || InNodeList(a.nodes, c.clientId) {
      KnownHolds(a, start, cs, c, target, now);
    } else if a.num < 8 {
      FillHolds(a, start, cs, c, target, now);
    } else {
      EvictionExact(a, cs, c, target, now);
    }
  }

  /** The answer after the first i candidates. */
  function After(start: seq<Node>, cs: seq<ClientData>, i: nat, target: Id, now: nat): Answer
    requires |start| == 8 && i <= |cs|
  {
    ConsiderAll(Answer(start, 0), cs[..i], target, now)
  }

  lemma {:induction false} GoodGrows(cs: seq<ClientData>, i: nat, now: nat)
    requires i <= |cs|
    ensures GoodIds(cs[..i], now) <= GoodIds(cs, now)
  {
    if i == |cs| {
      assert cs[..i] == cs;
    } else {
      GoodGrows(cs[..|cs| - 1], i, now);
      assert cs[..|cs| - 1][..i] == cs[..i];
    }
  }

  lemma AfterNext(start: seq<Node>, cs: seq<ClientData>, i: nat, target: Id, now: nat)
    requires |start| == 8 && i < |cs| && Foreign(start, cs, now)
    requires HoldsClosest(After(start, cs, i, target, now), cs[..i], target, now)
    ensures HoldsClosest(After(start, cs, i + 1, target, now), cs[..i + 1], target, now) <==>
            StepKeeps(After(start, cs, i, target, now), cs[i], target, now)
  {
    assert cs[..i + 1] == cs[..i] + [cs[i]] && cs[..i + 1][..i] == cs[..i];
    GoodGrows(cs, i + 1, now);
    ConsiderAllKeeps(start, cs[..i], target, now);
    ConsiderExact(After(start, cs, i, target, now), start, cs[..i], cs[i], target, now);
  }

  lemma {:induction false} HoldsAfter(start: seq<Node>, cs: seq<ClientData>, i: nat, target: Id, now: nat)
    requires |start| == 8 && i <= |cs| && Foreign(start, cs, now)
    requires forall j :: 0 <= j < i ==> StepKeeps(After(start, cs, j, target, now), cs[j], target, now)
    ensures HoldsClosest(After(start, cs, i, target, now), cs[..i], target, now)
  {
    if i > 0 {
      HoldsAfter(start, cs, i - 1, target, now);
      AfterNext(start, cs, i - 1, target, now);
    }
  }

  /**
   The answer is the 8 closest of the candidates looked at so far, all the way through the list, if
   and only if a furthest node is given up every time.
   */
  lemma ClosestThroughout(start: seq<Node>, cs: seq<ClientData>, target: Id, now: nat)
    requires |start| == 8 && Foreign(start, cs, now)
    ensures (forall i :: 0 <= i <= |cs| ==> HoldsClosest(After(start, cs, i, target, now), cs[..i], target, now)) <==>
            (forall i :: 0 <= i < |cs| ==> StepKeeps(After(start, cs, i, target, now), cs[i], target, now))
  {
    if forall i :: 0 <= i < |cs| ==> StepKeeps(After(start, cs, i, target, now), cs[i], target, now) {
      forall i | 0 <= i <= |cs|
        ensures HoldsClosest(After(start, cs, i, target, now), cs[..i], target, now)
      {
        HoldsAfter(start, cs, i, target, now);
      }
    }
    if forall i :: 0 <= i <= |cs| ==> HoldsClosest(After(start, cs, i, target, now), cs[..i], target, now) {
      forall i | 0 <= i < |cs|
        ensures StepKeeps(After(start, cs, i, target, now), cs[i], target, now)
      {
        assert HoldsClosest(After(start, cs, i + 1, target, now), cs[..i + 1], target, now);
        AfterNext(start, cs, i, target, now);
      }
    }
  }

  // ---------- lists whose answer is not the 8 closest ----------

  function NodeOf(c: ClientData): Node {
    Node(c.clientId, c.ipPort)
  }

  /** Good candidates, each closer than the one before. */
  ghost predicate Approaching(cs: seq<ClientData>, target: Id, now: nat) {
    && (forall i :: 0 <= i < |cs| ==> !Bad(cs[i], now))
    && (forall i, j :: 0 <= i < j < |cs| ==> Distance(target, cs[i].clientId) > Distance(target, cs[j].clientId))
  }

  lemma {:induction false} GoodMember(cs: seq<ClientData>, i: nat, now: nat)
    requires i < |cs| && !Bad(cs[i], now)
    ensures cs[i].clientId in GoodIds(cs, now)
  {
    if i < |cs| - 1 {
      GoodMember(cs[..|cs| - 1], i, now);
    }
  }

  lemma {:induction false} GoodDistanceMember(cs: seq<ClientData>, id: Id, target: Id, now: nat)
    requires id in GoodIds(cs, now)
    ensures Distance(target, id) in GoodDistances(cs, target, now)
  {
    if id in GoodIds(cs[..|cs| - 1], now) {
      GoodDistanceMember(cs[..|cs| - 1], id, target, now);
    }
  }

  /** Which candidate slot j holds after i candidates: slot 0 is overwritten again and again. */
  function Holder(i: nat, j: nat): nat {
    if j == 0 && i > 8 then i - 1 else j
  }

  ghost predicate ApproachInv(a: Answer, start: seq<Node>, cs: seq<ClientData>, i: nat) {
    && |a.nodes| == 8 == |start| && i <= |cs|
    && a.num == UpTo8(i)
    && (forall j :: 0 <= j < a.num ==> Holder(i, j) < i && a.nodes[j] == NodeOf(cs[Holder(i, j)]))
    && (forall j :: a.num <= j < 8 ==> a.nodes[j] == start[j])
  }

  lemma ApproachStep(a: Answer, start: seq<Node>, cs: seq<ClientData>, i: nat, target: Id, now: nat)
    requires ApproachInv(a, start, cs, i) && i < |cs| && Approaching(cs, target, now) && Foreign(start, cs, now)
    ensures ApproachInv(Consider(a, cs[i], target, now), start, cs, i + 1)
  {
    GoodMember(cs, i, now);
    assert !InNodeList(a.nodes, cs[i].clientId);
    if i >= 8 {
      assert a.nodes[0] == NodeOf(cs[Holder(i, 0)]);
      FirstFurtherIs(a.nodes, target, cs[i].clientId, 0);
    }
  }

  lemma {:induction false} ApproachAfter(start: seq<Node>, cs: seq<ClientData>, i: nat, target: Id, now: nat)
    requires |start| == 8 && i <= |cs| && Approaching(cs, target, now) && Foreign(start, cs, now)
    ensures ApproachInv(After(start, cs, i, target, now), start, cs, i)
  {
    if i > 0 {
      ApproachAfter(start, cs, i - 1, target, now);
      assert cs[..i][..i - 1] == cs[..i - 1];
      ApproachStep(After(start, cs, i - 1, target, now), start, cs, i - 1, target, now);
    }
  }

  /** From ten candidates on, each closer than the one before, the answer is never the 8 closest. */
  lemma FurthestFirstFails(start: seq<Node>, cs: seq<ClientData>, target: Id, now: nat)
    requires |start| == 8 && |cs| >= 10 && Approaching(cs, target, now) && Foreign(start, cs, now)
    ensures !HoldsClosest(ConsiderAll(Answer(start, 0), cs, target, now), cs, target, now)
  {
    var a := ConsiderAll(Answer(start, 0), cs, target, now);
    ApproachAfter(start, cs, |cs|, target, now);
    assert cs[..|cs|] == cs && a.nodes[..8] == a.nodes;
    var kept, all := Distances(a.nodes, target), GoodDistances(cs, target, now);
    var x, y := Distance(target, cs[1].clientId), Distance(target, cs[8].clientId);
    assert a.nodes[1] == NodeOf(cs[Holder(|cs|, 1)]);
    DistancesWithout(a.nodes, 1, target);
    GoodMember(cs, 8, now);
    GoodDistanceMember(cs, cs[8].clientId, target, now);
    if y in kept {
      var j := DistanceFrom(a.nodes, target, y);
      assert false;
    }
    assert x in kept && y in all - kept && x > y;
  }

  function Candidate(k: nat, now: nat): ClientData
    requires k < 256
  {
    ClientData(Ending(k as bv8), IpPort(0, 0), now, 0, IpPort(0, 0), 0)
  }

  lemma CandidateDistance(k: nat, now: nat)
    requires k < 128
    ensures Distance(ZERO_ID, Candidate(k, now).clientId) == k
  {
    var b := k as bv8;
    EndingDistance(b);
    assert 0 ^ b == b;
  }

  lemma {:induction false} GoodFrom(cs: seq<ClientData>, id: Id, now: nat) returns (i: nat)
    requires id in GoodIds(cs, now)
    ensures i < |cs| && cs[i].clientId == id
  {
    if cs[|cs| - 1].clientId == id {
      i := |cs| - 1;
    } else {
      i := GoodFrom(cs[..|cs| - 1], id, now);
    }
  }

  /** Nodes at the distances n, n - 1, ..., 1 from the id 0. */
  function Countdown(n: nat, now: nat): (cs: seq<ClientData>)
    requires n < 128
    ensures |cs| == n && forall i :: 0 <= i < n ==> cs[i] == Candidate(n - i, now)
  {
    seq(n, i requires 0 <= i < n => Candidate(n - i, now))
  }

  function Garbage(n: nat): (nodes: seq<Node>)
    ensures |nodes| == n && forall i :: 0 <= i < n ==> nodes[i] == Node(Ending(100), IpPort(0, 0))
  {
    seq(n, _ => Node(Ending(100), IpPort(0, 0)))
  }

  lemma CountdownApproaches(n: nat, now: nat)
    requires n < 100
    ensures Approaching(Countdown(n, now), ZERO_ID, now)
    ensures Ending(100) !in GoodIds(Countdown(n, now), now)
  {
    var cs := Countdown(n, now);
    forall i | 0 <= i < n
      ensures Distance(ZERO_ID, cs[i].clientId) == n - i
    {
      CandidateDistance(n - i, now);
    }
    CandidateDistance(100, now);
    if Ending(100) in GoodIds(cs, now) {
      var i := GoodFrom(cs, Ending(100), now);
      assert false;
    }
  }

  /**
   Ten nodes at the distances 10, 9, ..., 1, in this order: the answer keeps the node at distance 9
   and has lost the one at distance 2.
   */
  lemma TenNodesExample(now: nat)
    ensures var cs := Countdown(10, now);
      !HoldsClosest(ConsiderAll(Answer(Garbage(8), 0), cs, ZERO_ID, now), cs, ZERO_ID, now)
  {
    CountdownApproaches(10, now);
    FurthestFirstFails(Garbage(8), Countdown(10, now), ZERO_ID, now);
  }
}

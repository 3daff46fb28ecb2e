/**
 get_close_nodes of toxcore/DHT.c: the nodes put into an answer to a get-nodes request.

 What the answer guarantees for every list of candidates is stated by `CloseNodesFound`; when it
 is the 8 closest nodes is the subject of `ClosestAnswer`.
 */
module CloseNodes {
  import opened Wrappers
  import opened ClientDistance
  import opened DhtLists

  const MAX_SENT_NODES: nat := 8

  datatype Node = Node(clientId: Id, ipPort: IpPort)

  /** Index of the first node further from the target than `id`; |nodes| if there is none. */
  function FirstFurther(nodes: seq<Node>, target: Id, id: Id): (k: nat)
    ensures k <= |nodes|
    ensures k < |nodes| ==> Distance(target, nodes[k].clientId) > Distance(target, id)
    ensures forall j :: 0 <= j < k ==> Distance(target, nodes[j].clientId) <= Distance(target, id)
  {
    if nodes == [] || Distance(target, nodes[0].clientId) > Distance(target, id) then 0
    else 1 + FirstFurther(nodes[1..], target, id)
  }

  predicate InNodeList(nodes: seq<Node>, id: Id) {
    exists i :: 0 <= i < |nodes| && nodes[i].clientId == id
  }

  datatype Answer = Answer(nodes: seq<Node>, num: nat)

  /** What one candidate does to the answer. */
  function Consider(a: Answer, c: ClientData, target: Id, now: nat): Answer
    requires |a.nodes| == 8 && a.num <= 8
  {
    if Bad(c, now) || InNodeList(a.nodes, c.clientId) then a
    else if a.num < MAX_SENT_NODES then
      Answer(a.nodes[a.num := Node(c.clientId, c.ipPort)], a.num + 1)
    else
      var k := FirstFurther(a.nodes, target, c.clientId);
      if k < 8 then a.(nodes := a.nodes[k := Node(c.clientId, c.ipPort)]) else a
  }

  function ConsiderAll(a: Answer, cs: seq<ClientData>, target: Id, now: nat): (r: Answer)
    requires |a.nodes| == 8 && a.num <= 8
    ensures |r.nodes| == 8 && r.num <= 8
  {
    if cs == [] then a else Consider(ConsiderAll(a, cs[..|cs| - 1], target, now), cs[|cs| - 1], target, now)
  }

  function Flatten(lists: seq<seq<ClientData>>): seq<ClientData> {
    if lists == [] then [] else Flatten(lists[..|lists| - 1]) + lists[|lists| - 1]
  }

  // ---------- the loops ----------

  method ClientInNodelist(nodes: array<Node>, id: Id) returns (found: bool)
    ensures found <==> InNodeList(nodes[..], id)
  {
    for i := 0 to nodes.Length
      invariant forall j :: 0 <= j < i ==> nodes[j].clientId != id
    {
      if nodes[i].clientId == id {
        assert nodes[..][i].clientId == id;
        return true;
      }
    }
    return false;
  }

  lemma FirstFurtherIs(nodes: seq<Node>, target: Id, id: Id, k: nat)
    requires k < |nodes| && Distance(target, nodes[k].clientId) > Distance(target, id)
    requires forall j :: 0 <= j < k ==> Distance(target, nodes[j].clientId) <= Distance(target, id)
    ensures FirstFurther(nodes, target, id) == k
  {
  }

  /** The body of both candidate loops. */
  method ConsiderNode(nodes: array<Node>, num: nat, c: ClientData, target: Id, now: nat) returns (num': nat)
    requires nodes.Length == 8 && num <= 8
    modifies nodes
    ensures Answer(nodes[..], num') == Consider(Answer(old(nodes[..]), num), c, target, now)
  {
    num' := num;
    ghost var s := nodes[..];
    var inlist := ClientInNodelist(nodes, c.clientId);
    if IsTimeout(now, c.timestamp, BAD_NODE_TIMEOUT) || inlist {
      return;
    }
    if num < MAX_SENT_NODES {
      nodes[num] := Node(c.clientId, c.ipPort);
      num' := num + 1;
      return;
    }
    for k := 0 to 8
      invariant nodes[..] == s
      invariant forall j :: 0 <= j < k ==> Distance(target, s[j].clientId) <= Distance(target, c.clientId)
    {
      var closest := IdClosest(target, nodes[k].clientId, c.clientId);
      if closest == 2 {
        FirstFurtherIs(s, target, c.clientId, k);
        nodes[k] := Node(c.clientId, c.ipPort);
        return;
      }
    }
  }

  method ConsiderList(nodes: array<Node>, num: nat, cs: seq<ClientData>, target: Id, now: nat) returns (num': nat)
    requires nodes.Length == 8 && num <= 8
    modifies nodes
    ensures Answer(nodes[..], num') == ConsiderAll(Answer(old(nodes[..]), num), cs, target, now)
  {
    num' := num;
    for i := 0 to |cs|
      invariant num' <= 8
      invariant Answer(nodes[..], num') == ConsiderAll(Answer(old(nodes[..]), num), cs[..i], target, now)
    {
      assert cs[..i + 1][..i] == cs[..i];
      num' := ConsiderNode(nodes, num', cs[i], target, now);
    }
    assert cs[..|cs|] == cs;
  }

  lemma {:induction false} ConsiderAllConcat(a: Answer, cs: seq<ClientData>, ds: seq<ClientData>, target: Id, now: nat)
    requires |a.nodes| == 8 && a.num <= 8
    ensures ConsiderAll(a, cs + ds, target, now) == ConsiderAll(ConsiderAll(a, cs, target, now), ds, target, now)
  {
    if ds == [] {
      assert cs + ds == cs;
    } else {
      assert (cs + ds)[..|cs + ds| - 1] == cs + ds[..|ds| - 1];
      ConsiderAllConcat(a, cs, ds[..|ds| - 1], target, now);
    }
  }

  lemma FlattenStep(closeList: seq<ClientData>, lists: seq<seq<ClientData>>, i: nat)
    requires i < |lists|
    ensures closeList + Flatten(lists[..i + 1]) == (closeList + Flatten(lists[..i])) + lists[i]
  {
    assert lists[..i + 1][..i] == lists[..i];
  }

  /** First the list of close clients, then the list of every friend. */
  method GetCloseNodes(closeList: seq<ClientData>, friendLists: seq<seq<ClientData>>, target: Id, nodes: array<Node>, now: nat)
    returns (num: nat)
    requires nodes.Length == 8
    modifies nodes
    ensures Answer(nodes[..], num) ==
            ConsiderAll(Answer(old(nodes[..]), 0), closeList + Flatten(friendLists), target, now)
  {
    ghost var a := Answer(nodes[..], 0);
    num := ConsiderList(nodes, 0, closeList, target, now);
    ghost var seen := closeList;
    assert seen == closeList + Flatten(friendLists[..0]);
    for i := 0 to |friendLists|
      invariant num <= 8
      invariant seen == closeList + Flatten(friendLists[..i])
      invariant Answer(nodes[..], num) == ConsiderAll(a, seen, target, now)
    {
      num := ConsiderList(nodes, num, friendLists[i], target, now);
      ConsiderAllConcat(a, seen, friendLists[i], target, now);
      FlattenStep(closeList, friendLists, i);
      seen := seen + friendLists[i];
    }
    assert friendLists[..|friendLists|] == friendLists;
  }

  // ---------- what the answer guarantees ----------

  /** The good candidates, as nodes. */
  function GoodNodes(cs: seq<ClientData>, now: nat): set<Node> {
    if cs == [] then {}
    else
      var c := cs[|cs| - 1];
      GoodNodes(cs[..|cs| - 1], now) + (if Bad(c, now) then {} else {Node(c.clientId, c.ipPort)})
  }

  function GoodIds(cs: seq<ClientData>, now: nat): set<Id> {
    if cs == [] then {}
    else
      var c := cs[|cs| - 1];
      GoodIds(cs[..|cs| - 1], now) + (if Bad(c, now) then {} else {c.clientId})
  }

  function IdsOf(nodes: seq<Node>): set<Id> {
    if nodes == [] then {} else IdsOf(nodes[..|nodes| - 1]) + {nodes[|nodes| - 1].clientId}
  }

  function AnswerIds(a: Answer): set<Id>
    requires a.num <= |a.nodes|
  {
    IdsOf(a.nodes[..a.num])
  }

  lemma {:induction false} IdsOfAre(nodes: seq<Node>, id: Id)
    ensures id in IdsOf(nodes) <==> InNodeList(nodes, id)
  {
    if nodes != [] {
      var init := nodes[..|nodes| - 1];
      IdsOfAre(init, id);
      if InNodeList(init, id) {
        var i :| 0 <= i < |init| && init[i].clientId == id;
        assert nodes[i].clientId == id;
      }
      if InNodeList(nodes, id) && nodes[|nodes| - 1].clientId != id {
        var i :| 0 <= i < |nodes| && nodes[i].clientId == id;
        assert init[i].clientId == id;
      }
    }
  }

  ghost predicate Distinct(a: Answer)
    requires a.num <= |a.nodes|
  {
    forall i, j :: 0 <= i < j < a.num ==> a.nodes[i].clientId != a.nodes[j].clientId
  }

  /** Every node of the answer is a good candidate with the candidate's own address. */
  ghost predicate FromCandidates(a: Answer, cs: seq<ClientData>, now: nat)
    requires a.num <= |a.nodes|
  {
    forall i :: 0 <= i < a.num ==> a.nodes[i] in GoodNodes(cs, now)
  }

  ghost predicate Covers(a: Answer, target: Id, d: nat)
    requires a.num <= |a.nodes|
  {
    exists i :: 0 <= i < a.num && Distance(target, a.nodes[i].clientId) <= d
  }

  /** None of these ids is closer than every node of the answer. */
  ghost predicate HasClosest(a: Answer, ids: set<Id>, target: Id)
    requires a.num <= |a.nodes|
  {
    forall id :: id in ids ==> Covers(a, target, Distance(target, id))
  }

  /** What the slots hold before they are filled is no candidate's id. */
  ghost predicate Foreign(nodes: seq<Node>, cs: seq<ClientData>, now: nat) {
    forall i :: 0 <= i < |nodes| ==> nodes[i].clientId !in GoodIds(cs, now)
  }

  /**
   The good candidates that the code cannot overlook: it also compares with the slots that are not
   filled yet, and takes what happens to be there for a node of the answer.
   */
  function Visible(start: seq<Node>, cs: seq<ClientData>, now: nat): set<Id> {
    GoodIds(cs, now) - IdsOf(start)
  }

  ghost predicate AnswerInv(a: Answer, start: seq<Node>, cs: seq<ClientData>, target: Id, now: nat) {
    && |a.nodes| == |start| == 8 && a.num <= 8
    && (forall i :: a.num <= i < 8 ==> a.nodes[i] == start[i])
    && Distinct(a)
    && FromCandidates(a, cs, now)
    && HasClosest(a, Visible(start, cs, now), target)
    && (a.num < 8 ==> Visible(start, cs, now) <= AnswerIds(a))
  }

  lemma {:induction false} IdsOfSize(nodes: seq<Node>)
    requires forall i, j :: 0 <= i < j < |nodes| ==> nodes[i].clientId != nodes[j].clientId
    ensures |IdsOf(nodes)| == |nodes|
  {
    if nodes != [] {
      var init := nodes[..|nodes| - 1];
      IdsOfSize(init);
      IdsOfAre(init, nodes[|nodes| - 1].clientId);
    }
  }

  lemma GoodAppend(cs: seq<ClientData>, c: ClientData, now: nat)
    ensures GoodIds(cs + [c], now) == GoodIds(cs, now) + (if Bad(c, now) then {} else {c.clientId})
    ensures GoodNodes(cs + [c], now) == GoodNodes(cs, now) + (if Bad(c, now) then {} else {Node(c.clientId, c.ipPort)})
  {
    assert (cs + [c])[..|cs|] == cs;
  }

  function PutAt(a: Answer, k: nat, n: Node): Answer
    requires k < |a.nodes|
  {
    Answer(a.nodes[k := n], if k == a.num then a.num + 1 else a.num)
  }

  /** Slot k is new or held a node that is further away: whatever was covered stays covered. */
  lemma PutCovers(a: Answer, k: nat, n: Node, target: Id, d: nat)
    requires k < |a.nodes| && k <= a.num <= |a.nodes|
    requires k < a.num ==> Distance(target, a.nodes[k].clientId) > Distance(target, n.clientId)
    ensures Covers(a, target, d) ==> Covers(PutAt(a, k, n), target, d)
    ensures Distance(target, n.clientId) <= d ==> Covers(PutAt(a, k, n), target, d)
  {
    var b := PutAt(a, k, n);
    assert b.nodes[k] == n;
    if Covers(a, target, d) {
      var i :| 0 <= i < a.num && Distance(target, a.nodes[i].clientId) <= d;
      assert Distance(target, b.nodes[i].clientId) <= d;
    }
  }

  lemma PutKeeps(a: Answer, k: nat, start: seq<Node>, cs: seq<ClientData>, c: ClientData, target: Id, now: nat)
    requires |a.nodes| == 8 && a.num <= 8 && k < 8 && k <= a.num
    requires Distinct(a) && FromCandidates(a, cs, now) && HasClosest(a, Visible(start, cs, now), target) && !Bad(c, now)
    requires !InNodeList(a.nodes, c.clientId)
    requires k < a.num ==> Distance(target, a.nodes[k].clientId) > Distance(target, c.clientId)
    ensures var b := PutAt(a, k, Node(c.clientId, c.ipPort));
      Distinct(b) && FromCandidates(b, cs + [c], now) && HasClosest(b, Visible(start, cs + [c], now), target)
  {
    var n := Node(c.clientId, c.ipPort);
    GoodAppend(cs, c, now);
    forall id | id in Visible(start, cs + [c], now)
      ensures Covers(PutAt(a, k, n), target, Distance(target, id))
    {
      PutCovers(a, k, n, target, Distance(target, id));
    }
  }

  lemma SkipKeeps(a: Answer, start: seq<Node>, cs: seq<ClientData>, c: ClientData, target: Id, now: nat)
    requires a.num <= |a.nodes| && FromCandidates(a, cs, now) && HasClosest(a, Visible(start, cs, now), target)
    requires Bad(c, now) || c.clientId in IdsOf(start) || Covers(a, target, Distance(target, c.clientId))
    ensures FromCandidates(a, cs + [c], now) && HasClosest(a, Visible(start, cs + [c], now), target)
  {
    GoodAppend(cs, c, now);
  }

  lemma KnownKeeps(a: Answer, start: seq<Node>, cs: seq<ClientData>, c: ClientData, target: Id, now: nat)
    requires AnswerInv(a, start, cs, target, now)
    requires !Bad(c, now) && InNodeList(a.nodes, c.clientId)
    ensures AnswerInv(a, start, cs + [c], target, now)
  {
    GoodAppend(cs, c, now);
    var i :| 0 <= i < 8 && a.nodes[i].clientId == c.clientId;
    if i < a.num {
      assert a.nodes[..a.num][i].clientId == c.clientId;
    } else {
      assert start[i].clientId == c.clientId;
    }
    IdsOfAre(a.nodes[..a.num], c.clientId);
    IdsOfAre(start, c.clientId);
    SkipKeeps(a, start, cs, c, target, now);
  }

  lemma IdsAfterPut(a: Answer, n: Node)
    requires a.num < |a.nodes|
    ensures AnswerIds(PutAt(a, a.num, n)) == AnswerIds(a) + {n.clientId}
  {
    var b := PutAt(a, a.num, n);
    assert b.nodes[..b.num][..a.num] == a.nodes[..a.num];
  }

  lemma FillKeeps(a: Answer, start: seq<Node>, cs: seq<ClientData>, c: ClientData, target: Id, now: nat)
    requires AnswerInv(a, start, cs, target, now)
    requires !Bad(c, now) && !InNodeList(a.nodes, c.clientId) && a.num < 8
    ensures AnswerInv(PutAt(a, a.num, Node(c.clientId, c.ipPort)), start, cs + [c], target, now)
  {
    GoodAppend(cs, c, now);
    PutKeeps(a, a.num, start, cs, c, target, now);
    IdsAfterPut(a, Node(c.clientId, c.ipPort));
  }

  lemma FullKeeps(a: Answer, start: seq<Node>, cs: seq<ClientData>, c: ClientData, target: Id, now: nat)
    requires AnswerInv(a, start, cs, target, now)
    requires !Bad(c, now) && !InNodeList(a.nodes, c.clientId) && a.num == 8
    ensures AnswerInv(Consider(a, c, target, now), start, cs + [c], target, now)
  {
    var k := FirstFurther(a.nodes, target, c.clientId);
    if k < 8 {
      PutKeeps(a, k, start, cs, c, target, now);
    } else {
      assert Distance(target, a.nodes[0].clientId) <= Distance(target, c.clientId);
      SkipKeeps(a, start, cs, c, target, now);
    }
  }

  lemma ConsiderKeeps(a: Answer, start: seq<Node>, cs: seq<ClientData>, c: ClientData, target: Id, now: nat)
    requires AnswerInv(a, start, cs, target, now)
    ensures AnswerInv(Consider(a, c, target, now), start, cs + [c], target, now)
  {
    if Bad(c, now) {
      GoodAppend(cs, c, now);
      SkipKeeps(a, start, cs, c, target, now);
    } else if InNodeList(a.nodes, c.clientId) {
      KnownKeeps(a, start, cs, c, target, now);
    } else if a.num < 8 {
      FillKeeps(a, start, cs, c, target, now);
    } else {
      FullKeeps(a, start, cs, c, target, now);
    }
  }

  lemma {:induction false} ConsiderAllKeeps(start: seq<Node>, cs: seq<ClientData>, target: Id, now: nat)
    requires |start| == 8
    ensures AnswerInv(ConsiderAll(Answer(start, 0), cs, target, now), start, cs, target, now)
  {
    if cs != [] {
      var before, c := cs[..|cs| - 1], cs[|cs| - 1];
      assert before + [c] == cs;
      ConsiderAllKeeps(start, before, target, now);
      ConsiderKeeps(ConsiderAll(Answer(start, 0), before, target, now), start, before, c, target, now);
    }
  }

  lemma {:induction false} GoodNodesHaveGoodIds(cs: seq<ClientData>, now: nat, n: Node)
    requires n in GoodNodes(cs, now)
    ensures n.clientId in GoodIds(cs, now)
  {
    if n in GoodNodes(cs[..|cs| - 1], now) {
      GoodNodesHaveGoodIds(cs[..|cs| - 1], now, n);
    }
  }

  lemma {:induction false} IdsAreGood(nodes: seq<Node>, cs: seq<ClientData>, now: nat)
    requires forall i :: 0 <= i < |nodes| ==> nodes[i] in GoodNodes(cs, now)
    ensures IdsOf(nodes) <= GoodIds(cs, now)
  {
    if nodes != [] {
      IdsAreGood(nodes[..|nodes| - 1], cs, now);
      GoodNodesHaveGoodIds(cs, now, nodes[|nodes| - 1]);
    }
  }

  function UpTo8(n: nat): nat {
    if n < MAX_SENT_NODES then n else MAX_SENT_NODES
  }

  /**
   The answer consists of different good candidates, at most 8. It has as many as there are visible
   ones, and one of them is as close to the target as any visible candidate. If no slot happens to
   hold a candidate's id at the start, every good candidate is visible.
   */
  lemma CloseNodesFound(start: seq<Node>, cs: seq<ClientData>, target: Id, now: nat)
    requires |start| == 8
    ensures var a := ConsiderAll(Answer(start, 0), cs, target, now);
      && Distinct(a)
      && FromCandidates(a, cs, now)
      && HasClosest(a, Visible(start, cs, now), target)
      && UpTo8(|Visible(start, cs, now)|) <= a.num <= UpTo8(|GoodIds(cs, now)|)
    ensures Foreign(start, cs, now) ==> Visible(start, cs, now) == GoodIds(cs, now)
  {
    var a := ConsiderAll(Answer(start, 0), cs, target, now);
    ConsiderAllKeeps(start, cs, target, now);
    AnswerCount(a, start, cs, target, now);
    if Foreign(start, cs, now) {
      AllVisible(start, cs, now);
    }
  }

  lemma AnswerCount(a: Answer, start: seq<Node>, cs: seq<ClientData>, target: Id, now: nat)
    requires AnswerInv(a, start, cs, target, now)
    ensures UpTo8(|Visible(start, cs, now)|) <= a.num <= UpTo8(|GoodIds(cs, now)|)
  {
    var ids := AnswerIds(a);
    AnswerIdsCounted(a, cs, now);
    SubsetSize(ids, GoodIds(cs, now));
    if a.num < 8 {
      SubsetSize(Visible(start, cs, now), ids);
    }
  }

  lemma AnswerIdsCounted(a: Answer, cs: seq<ClientData>, now: nat)
    requires a.num <= |a.nodes| && Distinct(a) && FromCandidates(a, cs, now)
    ensures |AnswerIds(a)| == a.num && AnswerIds(a) <= GoodIds(cs, now)
  {
    IdsOfSize(a.nodes[..a.num]);
    IdsAreGood(a.nodes[..a.num], cs, now);
  }

  lemma AllVisible(start: seq<Node>, cs: seq<ClientData>, now: nat)
    requires Foreign(start, cs, now)
    ensures Visible(start, cs, now) == GoodIds(cs, now)
  {
    forall id | id in GoodIds(cs, now)
      ensures id !in IdsOf(start)
    {
      IdsOfAre(start, id);
    }
  }

  /** The only candidate is overlooked if and only if some slot happens to hold its id. */
  lemma OverlookedCandidate(start: seq<Node>, c: ClientData, target: Id, now: nat)
    requires |start| == 8 && !Bad(c, now)
    ensures GoodIds([c], now) == {c.clientId}
    ensures ConsiderAll(Answer(start, 0), [c], target, now).num == if InNodeList(start, c.clientId) then 0 else 1
  {
    assert [c][..0] == [];
  }

  lemma SubsetSize<T>(small: set<T>, large: set<T>)
    requires small <= large
    ensures |small| <= |large|
  {
    assert large == small + (large - small);
  }

  /** Once filled, a slot only gets closer to the target. */
  lemma {:induction false} SlotsOnlyGetCloser(a: Answer, cs: seq<ClientData>, target: Id, now: nat)
    requires |a.nodes| == 8 && a.num <= 8
    ensures var b := ConsiderAll(a, cs, target, now);
      && a.num <= b.num
      && forall i :: 0 <= i < a.num ==> Distance(target, b.nodes[i].clientId) <= Distance(target, a.nodes[i].clientId)
  {
    if cs != [] {
      SlotsOnlyGetCloser(a, cs[..|cs| - 1], target, now);
    }
  }
}

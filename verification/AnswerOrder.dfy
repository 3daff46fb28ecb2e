/**
 For which lists of candidates get_close_nodes returns the 8 closest, told from the list alone.

 Take the candidates without bad and repeated ones, and let `top` be the 8 closest of them, the
 earlier one first where distances tie. The first 8 candidates fill the slots. Every later member of
 `top` must then find its way into the first slot that still holds an outsider, past members of
 `top` that it must not displace. This succeeds exactly if the later members come closest first, and
 none of them is closer than a member in a slot in front of the one it is to fill.
 */
module AnswerOrder {
  import opened Wrappers
  import opened ClientDistance
  import opened DhtLists
  import opened CloseNodes
  import opened ClosestAnswer
  import S = DhtStream

  /** The good candidates, each id where it comes first. */
  function Firsts(cs: seq<ClientData>, now: nat): seq<ClientData> {
    if cs == [] then []
    else
      var before, c := cs[..|cs| - 1], cs[|cs| - 1];
      Firsts(before, now) + (if Bad(c, now) || c.clientId in GoodIds(before, now) then [] else [c])
  }

  predicate Listed(g: seq<ClientData>, id: Id) {
    exists i :: 0 <= i < |g| && g[i].clientId == id
  }

  ghost predicate DifferentIds(g: seq<ClientData>) {
    forall i, j :: 0 <= i < j < |g| ==> g[i].clientId != g[j].clientId
  }

  lemma ListedAppend(g: seq<ClientData>, c: ClientData, id: Id)
    ensures Listed(g + [c], id) <==> Listed(g, id) || id == c.clientId
  {
    if Listed(g, id) {
      var i :| 0 <= i < |g| && g[i].clientId == id;
      assert (g + [c])[i].clientId == id;
    }
    assert (g + [c])[|g|] == c;
  }

  lemma {:induction false} FirstsListed(cs: seq<ClientData>, now: nat, id: Id)
    ensures Listed(Firsts(cs, now), id) <==> id in GoodIds(cs, now)
  {
    if cs != [] {
      var before, c := cs[..|cs| - 1], cs[|cs| - 1];
      FirstsListed(before, now, id);
      if !Bad(c, now) && c.clientId !in GoodIds(before, now) {
        ListedAppend(Firsts(before, now), c, id);
      } else {
        assert Firsts(cs, now) == Firsts(before, now);
      }
    }
  }

  lemma {:induction false} FirstsDiffer(cs: seq<ClientData>, now: nat)
    ensures DifferentIds(Firsts(cs, now))
  {
    if cs != [] {
      var before, c := cs[..|cs| - 1], cs[|cs| - 1];
      FirstsDiffer(before, now);
      FirstsListed(before, now, c.clientId);
    }
  }

  lemma FirstsAppend(cs: seq<ClientData>, c: ClientData, now: nat)
    ensures Firsts(cs + [c], now) ==
            if Bad(c, now) || c.clientId in GoodIds(cs, now) then Firsts(cs, now) else Firsts(cs, now) + [c]
  {
    assert (cs + [c])[..|cs|] == cs;
  }

  lemma {:induction false} FirstsGrow(cs: seq<ClientData>, i: nat, now: nat)
    requires i <= |cs|
    ensures Firsts(cs[..i], now) <= Firsts(cs, now)
  {
    if i == |cs| {
      assert cs[..i] == cs;
    } else {
      FirstsGrow(cs[..|cs| - 1], i, now);
      assert cs[..|cs| - 1][..i] == cs[..i];
    }
  }

  // ---------- the order in which the closest must come ----------

  function Away(g: seq<ClientData>, i: nat, target: Id): nat
    requires i < |g|
  {
    Distance(target, g[i].clientId)
  }

  /** If one of two candidates is in `top` and the other is not, the one in `top` is closer, or as close and earlier. */
  predicate Ranked(g: seq<ClientData>, top: set<Id>, target: Id, p: nat, q: nat)
    requires p < q < |g|
  {
    && (g[p].clientId in top && g[q].clientId !in top ==> Away(g, p, target) <= Away(g, q, target))
    && (g[p].clientId !in top && g[q].clientId in top ==> Away(g, q, target) < Away(g, p, target))
  }

  /** `top` is the 8 closest of these, or all of them; where distances tie the earlier one counts as closer. */
  ghost predicate IsTop(g: seq<ClientData>, top: set<Id>, target: Id) {
    && (forall id :: id in top ==> Listed(g, id))
    && |top| == UpTo8(|g|)
    && (forall p, q :: 0 <= p < q < |g| ==> Ranked(g, top, target, p, q))
  }

  /** How many of the first n are in `top`. */
  function Held(g: seq<ClientData>, top: set<Id>, n: nat): (h: nat)
    requires n <= |g|
    ensures h <= n
  {
    if n == 0 then 0 else Held(g, top, n - 1) + if g[n - 1].clientId in top then 1 else 0
  }

  /** How many of the slots below j start with an outsider. */
  function Outsiders(g: seq<ClientData>, top: set<Id>, j: nat): nat
    requires j <= |g|
  {
    j - Held(g, top, j)
  }

  /** How many members of `top` come after the first 8 and before the i-th. */
  function Late(g: seq<ClientData>, top: set<Id>, i: nat): int
    requires 8 <= i <= |g|
  {
    Held(g, top, i) - Held(g, top, 8)
  }

  /** What the i-th candidate must satisfy: nothing closer is asked to make room for it. */
  ghost predicate ComesInOrder(g: seq<ClientData>, top: set<Id>, target: Id, i: nat)
    requires 8 <= i < |g|
  {
    && (forall h :: 8 <= h < i && g[h].clientId in top ==> Away(g, h, target) <= Away(g, i, target))
    && (forall j :: 0 <= j < 8 && g[j].clientId in top && Outsiders(g, top, j) <= Late(g, top, i) ==>
               Away(g, j, target) <= Away(g, i, target))
  }

  ghost predicate OrderedAt(g: seq<ClientData>, top: set<Id>, target: Id, i: nat)
    requires 8 <= i < |g|
  {
    g[i].clientId in top ==> ComesInOrder(g, top, target, i)
  }

  ghost predicate InOrder(g: seq<ClientData>, top: set<Id>, target: Id) {
    forall i :: 8 <= i < |g| ==> OrderedAt(g, top, target, i)
  }

  // ---------- counting ----------

  lemma {:induction false} HeldBetween(g: seq<ClientData>, top: set<Id>, m: nat, n: nat)
    requires m <= n <= |g|
    ensures Held(g, top, m) <= Held(g, top, n) <= Held(g, top, m) + (n - m)
  {
    if m < n {
      HeldBetween(g, top, m, n - 1);
    }
  }

  /** The slot of the r-th outsider. */
  lemma {:induction false} OutsiderSlot(g: seq<ClientData>, top: set<Id>, n: nat, r: nat) returns (j: nat)
    requires n <= |g| && r < Outsiders(g, top, n)
    ensures j < n && g[j].clientId !in top && Outsiders(g, top, j) == r
  {
    if g[n - 1].clientId !in top && Outsiders(g, top, n - 1) == r {
      j := n - 1;
    } else {
      j := OutsiderSlot(g, top, n - 1, r);
    }
  }

  /** The r-th late member of `top`. */
  lemma {:induction false} LateMember(g: seq<ClientData>, top: set<Id>, n: nat, r: nat) returns (i: nat)
    requires 8 <= n <= |g| && r < Late(g, top, n)
    ensures 8 <= i < n && g[i].clientId in top && Late(g, top, i) == r
  {
    if g[n - 1].clientId in top && Late(g, top, n - 1) == r {
      i := n - 1;
    } else {
      i := LateMember(g, top, n - 1, r);
    }
  }

  function IdsBelow(g: seq<ClientData>, n: nat): set<Id>
    requires n <= |g|
  {
    if n == 0 then {} else IdsBelow(g, n - 1) + {g[n - 1].clientId}
  }

  lemma {:induction false} IdsBelowAre(g: seq<ClientData>, n: nat, id: Id)
    requires n <= |g|
    ensures id in IdsBelow(g, n) <==> exists i :: 0 <= i < n && g[i].clientId == id
  {
    if n > 0 {
      IdsBelowAre(g, n - 1, id);
    }
  }

  lemma {:induction false} HeldCounts(g: seq<ClientData>, top: set<Id>, n: nat)
    requires n <= |g| && DifferentIds(g)
    ensures |top * IdsBelow(g, n)| == Held(g, top, n)
  {
    if n > 0 {
      var id := g[n - 1].clientId;
      HeldCounts(g, top, n - 1);
      IdsBelowAre(g, n - 1, id);
      if id in top {
        assert top * IdsBelow(g, n) == (top * IdsBelow(g, n - 1)) + {id};
      } else {
        assert top * IdsBelow(g, n) == top * IdsBelow(g, n - 1);
      }
    }
  }

  /** As many members of `top` come late as slots start with an outsider. */
  lemma LateFillOutsiders(g: seq<ClientData>, top: set<Id>, target: Id)
    requires DifferentIds(g) && IsTop(g, top, target) && |g| >= 8
    ensures Late(g, top, |g|) == Outsiders(g, top, 8)
  {
    HeldCounts(g, top, |g|);
    forall id | id in top
      ensures id in IdsBelow(g, |g|)
    {
      IdsBelowAre(g, |g|, id);
    }
    assert top * IdsBelow(g, |g|) == top;
  }

  // ---------- what the slots hold after n candidates, as long as all goes well ----------

  ghost predicate Seen(g: seq<ClientData>, n: nat, id: Id)
    requires n <= |g|
  {
    exists p :: 0 <= p < n && g[p].clientId == id
  }

  ghost predicate AllSeen(nodes: seq<Node>, g: seq<ClientData>, n: nat)
    requires n <= |g|
  {
    forall j :: 0 <= j < |nodes| ==> Seen(g, n, nodes[j].clientId)
  }

  /** The members of `top` that came first are where they were put. */
  ghost predicate EarlyInPlace(nodes: seq<Node>, g: seq<ClientData>, top: set<Id>)
    requires |nodes| == 8 <= |g|
  {
    forall j :: 0 <= j < 8 && g[j].clientId in top ==> nodes[j].clientId == g[j].clientId
  }

  /** Slot j is the one for the late member i. */
  predicate SlotFor(g: seq<ClientData>, top: set<Id>, j: nat, i: nat)
    requires j < 8 <= i < |g|
  {
    g[j].clientId !in top && g[i].clientId in top && Outsiders(g, top, j) == Late(g, top, i)
  }

  ghost predicate LateInPlace(nodes: seq<Node>, g: seq<ClientData>, top: set<Id>, n: nat)
    requires |nodes| == 8 <= n <= |g|
  {
    forall j, i :: 0 <= j < 8 <= i < n && SlotFor(g, top, j, i) ==> nodes[j].clientId == g[i].clientId
  }

  /** The other slots hold outsiders. */
  ghost predicate OutsidersLeft(nodes: seq<Node>, g: seq<ClientData>, top: set<Id>, n: nat)
    requires |nodes| == 8 <= n <= |g|
  {
    forall j :: 0 <= j < 8 && g[j].clientId !in top && Outsiders(g, top, j) >= Late(g, top, n) ==>
      nodes[j].clientId !in top
  }

  ghost predicate SlotInv(nodes: seq<Node>, g: seq<ClientData>, top: set<Id>, n: nat) {
    && |nodes| == 8 && 8 <= n <= |g|
    && AllSeen(nodes, g, n)
    && EarlyInPlace(nodes, g, top)
    && LateInPlace(nodes, g, top, n)
    && OutsidersLeft(nodes, g, top, n)
  }

  /** Which slots hold a member of `top`, and which member that is. */
  lemma SlotHolds(nodes: seq<Node>, g: seq<ClientData>, top: set<Id>, n: nat, j: nat)
    requires SlotInv(nodes, g, top, n) && j < 8
    ensures nodes[j].clientId in top <==> g[j].clientId in top || Outsiders(g, top, j) < Late(g, top, n)
  {
    if g[j].clientId !in top && Outsiders(g, top, j) < Late(g, top, n) {
      var i := LateMember(g, top, n, Outsiders(g, top, j));
      assert SlotFor(g, top, j, i);
    }
  }

  /** Members of `top` are closer than outsiders. */
  lemma TopIsCloser(g: seq<ClientData>, top: set<Id>, n: nat, q: nat, id: Id, target: Id)
    requires IsTop(g, top, target) && n <= |g| && Seen(g, n, id) && id in top && q < |g| && g[q].clientId !in top
    ensures Distance(target, id) <= Away(g, q, target)
  {
    var p :| 0 <= p < n && g[p].clientId == id;
    assert if p < q then Ranked(g, top, target, p, q) else Ranked(g, top, target, q, p);
  }

  lemma EarlierOutsider(g: seq<ClientData>, top: set<Id>, n: nat, id: Id, target: Id)
    requires IsTop(g, top, target) && n < |g| && Seen(g, n, id) && id !in top && g[n].clientId in top
    ensures Away(g, n, target) < Distance(target, id)
  {
    var p :| 0 <= p < n && g[p].clientId == id;
    assert Ranked(g, top, target, p, n);
  }

  lemma SeenNow(g: seq<ClientData>, n: nat)
    requires n < |g|
    ensures Seen(g, n + 1, g[n].clientId)
  {
  }

  lemma SeenNext(nodes: seq<Node>, g: seq<ClientData>, n: nat)
    requires n < |g| && AllSeen(nodes, g, n)
    ensures AllSeen(nodes, g, n + 1)
  {
    forall j | 0 <= j < |nodes|
      ensures Seen(g, n + 1, nodes[j].clientId)
    {
      var p :| 0 <= p < n && g[p].clientId == nodes[j].clientId;
      assert g[p].clientId == nodes[j].clientId;
    }
  }

  /** An outsider that is turned away. */
  lemma OutsiderPasses(nodes: seq<Node>, g: seq<ClientData>, top: set<Id>, n: nat)
    requires SlotInv(nodes, g, top, n) && n < |g| && g[n].clientId !in top
    ensures SlotInv(nodes, g, top, n + 1)
  {
    SeenNext(nodes, g, n);
  }

  /** An outsider only ever takes the place of an outsider. */
  lemma GivesWayToOutsider(nodes: seq<Node>, g: seq<ClientData>, top: set<Id>, n: nat, q: nat, k: nat, target: Id)
    requires |nodes| == 8 && n <= |g| && AllSeen(nodes, g, n) && IsTop(g, top, target)
    requires q < |g| && g[q].clientId !in top && k < 8 && Distance(target, nodes[k].clientId) > Away(g, q, target)
    ensures nodes[k].clientId !in top
  {
    if nodes[k].clientId in top {
      TopIsCloser(g, top, n, q, nodes[k].clientId, target);
    }
  }

  lemma OutsiderReplaces(nodes: seq<Node>, g: seq<ClientData>, top: set<Id>, n: nat, k: nat, node: Node)
    requires SlotInv(nodes, g, top, n) && k < 8 && nodes[k].clientId !in top
    requires Seen(g, n, node.clientId) && node.clientId !in top
    ensures SlotInv(nodes[k := node], g, top, n)
  {
    SlotHolds(nodes, g, top, n, k);
  }

  lemma OutsiderStep(nodes: seq<Node>, g: seq<ClientData>, top: set<Id>, n: nat, q: nat, k: nat, node: Node, target: Id)
    requires SlotInv(nodes, g, top, n) && IsTop(g, top, target) && q < n && node.clientId == g[q].clientId
    requires node.clientId !in top && k < 8 && Distance(target, nodes[k].clientId) > Distance(target, node.clientId)
    ensures SlotInv(nodes[k := node], g, top, n)
  {
    GivesWayToOutsider(nodes, g, top, n, q, k, target);
    assert Seen(g, n, node.clientId);
    OutsiderReplaces(nodes, g, top, n, k, node);
  }

  // ---------- a late member of `top` ----------

  /** The slot that the n-th candidate is to fill: the first that holds an outsider. */
  lemma FirstOutsiderSlot(nodes: seq<Node>, g: seq<ClientData>, top: set<Id>, n: nat) returns (k: nat)
    requires SlotInv(nodes, g, top, n) && Late(g, top, n) < Outsiders(g, top, 8)
    ensures k < 8 && g[k].clientId !in top && Outsiders(g, top, k) == Late(g, top, n)
    ensures nodes[k].clientId !in top
    ensures forall j :: 0 <= j < k ==> nodes[j].clientId in top
  {
    HeldBetween(g, top, 8, n);
    k := OutsiderSlot(g, top, 8, Late(g, top, n));
    forall j | 0 <= j < k
      ensures nodes[j].clientId in top
    {
      HeldBetween(g, top, j, k);
      if g[j].clientId !in top {
        HeldBetween(g, top, j + 1, k);
      }
      SlotHolds(nodes, g, top, n, j);
    }
  }

  /** In front of it no slot is further away than a candidate that comes in order. */
  lemma FrontIsCloser(nodes: seq<Node>, g: seq<ClientData>, top: set<Id>, n: nat, k: nat, j: nat, target: Id)
    requires SlotInv(nodes, g, top, n) && n < |g| && ComesInOrder(g, top, target, n)
    requires j < k < 8 && g[k].clientId !in top && Outsiders(g, top, k) == Late(g, top, n)
    ensures Distance(target, nodes[j].clientId) <= Away(g, n, target)
  {
    HeldBetween(g, top, j, k);
    if g[j].clientId !in top {
      HeldBetween(g, top, j + 1, k);
      var i := LateMember(g, top, n, Outsiders(g, top, j));
      assert SlotFor(g, top, j, i);
    }
  }

  lemma LateStep(nodes: seq<Node>, g: seq<ClientData>, top: set<Id>, n: nat, node: Node, target: Id) returns (k: nat)
    requires SlotInv(nodes, g, top, n) && IsTop(g, top, target) && n < |g| && g[n].clientId in top
    requires ComesInOrder(g, top, target, n) && Late(g, top, n) < Outsiders(g, top, 8)
    requires node.clientId == g[n].clientId
    ensures k < 8 && FirstFurther(nodes, target, g[n].clientId) == k && SlotInv(nodes[k := node], g, top, n + 1)
  {
    k := FirstOutsiderSlot(nodes, g, top, n);
    forall j | 0 <= j < k
      ensures Distance(target, nodes[j].clientId) <= Away(g, n, target)
    {
      FrontIsCloser(nodes, g, top, n, k, j, target);
    }
    EarlierOutsider(g, top, n, nodes[k].clientId, target);
    FirstFurtherIs(nodes, target, g[n].clientId, k);
    LateFills(nodes, g, top, n, k, node);
  }

  lemma SameOutsiders(g: seq<ClientData>, top: set<Id>, j: nat, k: nat)
    requires j < |g| && k < |g| && g[j].clientId !in top && g[k].clientId !in top && Outsiders(g, top, j) == Outsiders(g, top, k)
    ensures j == k
  {
    if j < k {
      HeldBetween(g, top, j + 1, k);
    } else if k < j {
      HeldBetween(g, top, k + 1, j);
    }
  }

  lemma LateFillsSlot(nodes: seq<Node>, g: seq<ClientData>, top: set<Id>, n: nat, k: nat, node: Node)
    requires |nodes| == 8 <= n < |g| && LateInPlace(nodes, g, top, n) && k < 8 && SlotFor(g, top, k, n)
    requires node.clientId == g[n].clientId
    ensures LateInPlace(nodes[k := node], g, top, n + 1)
  {
    forall j, i | 0 <= j < 8 <= i < n + 1 && SlotFor(g, top, j, i)
      ensures nodes[k := node][j].clientId == g[i].clientId
    {
      if i < n {
        HeldBetween(g, top, i + 1, n);
      } else {
        SameOutsiders(g, top, j, k);
      }
    }
  }

  lemma LateFills(nodes: seq<Node>, g: seq<ClientData>, top: set<Id>, n: nat, k: nat, node: Node)
    requires SlotInv(nodes, g, top, n) && n < |g| && node.clientId == g[n].clientId
    requires k < 8 && SlotFor(g, top, k, n)
    ensures SlotInv(nodes[k := node], g, top, n + 1)
  {
    SeenNext(nodes, g, n);
    SeenNow(g, n);
    LateFillsSlot(nodes, g, top, n, k, node);
  }

  /** A late member that does not come in order displaces a member of `top`. */
  lemma LateDisplaces(nodes: seq<Node>, g: seq<ClientData>, top: set<Id>, n: nat, target: Id)
    requires SlotInv(nodes, g, top, n) && IsTop(g, top, target) && n < |g| && g[n].clientId in top
    requires !ComesInOrder(g, top, target, n) && Late(g, top, n) < Outsiders(g, top, 8)
    ensures var k := FirstFurther(nodes, target, g[n].clientId); k < 8 && nodes[k].clientId in top
  {
    var k := FirstOutsiderSlot(nodes, g, top, n);
    var j := FurtherInFront(nodes, g, top, n, k, target);
  }

  lemma FurtherLate(nodes: seq<Node>, g: seq<ClientData>, top: set<Id>, n: nat, k: nat, h: nat) returns (j: nat)
    requires |nodes| == 8 <= h < n < |g| && LateInPlace(nodes, g, top, n) && g[h].clientId in top
    requires k < 8 && g[k].clientId !in top && Outsiders(g, top, k) == Late(g, top, n) < Outsiders(g, top, 8)
    ensures j < k && nodes[j].clientId == g[h].clientId
  {
    HeldBetween(g, top, 8, h);
    HeldBetween(g, top, h + 1, n);
    j := OutsiderSlot(g, top, 8, Late(g, top, h));
    assert SlotFor(g, top, j, h);
    if k < j {
      HeldBetween(g, top, k, j);
    }
  }

  lemma EarlyInFront(g: seq<ClientData>, top: set<Id>, k: nat, j: nat)
    requires j < 8 <= |g| && k < 8 && g[k].clientId !in top && g[j].clientId in top
    requires Outsiders(g, top, j) <= Outsiders(g, top, k)
    ensures j < k
  {
    if k < j {
      HeldBetween(g, top, k + 1, j);
    }
  }

  lemma FurtherInFront(nodes: seq<Node>, g: seq<ClientData>, top: set<Id>, n: nat, k: nat, target: Id) returns (j: nat)
    requires SlotInv(nodes, g, top, n) && n < |g| && !ComesInOrder(g, top, target, n)
    requires k < 8 && g[k].clientId !in top && Outsiders(g, top, k) == Late(g, top, n) < Outsiders(g, top, 8)
    ensures j < k && Distance(target, nodes[j].clientId) > Away(g, n, target)
  {
    if h :| 8 <= h < n && g[h].clientId in top && Away(g, h, target) > Away(g, n, target) {
      j := FurtherLate(nodes, g, top, n, k, h);
    } else {
      j :| 0 <= j < 8 && g[j].clientId in top && Outsiders(g, top, j) <= Late(g, top, n) && Away(g, j, target) > Away(g, n, target);
      EarlyInFront(g, top, k, j);
    }
  }

  // ---------- one candidate after another ----------

  ghost predicate OnTrack(a: Answer, g: seq<ClientData>, top: set<Id>, n: nat) {
    && |a.nodes| == 8 && a.num == UpTo8(n) && n <= |g|
    && (n < 8 ==> forall j :: 0 <= j < n ==> a.nodes[j].clientId == g[j].clientId)
    && (n >= 8 ==> SlotInv(a.nodes, g, top, n))
  }

  lemma SlotsFull(nodes: seq<Node>, g: seq<ClientData>, top: set<Id>)
    requires |nodes| == 8 <= |g| && (forall j :: 0 <= j < 8 ==> nodes[j].clientId == g[j].clientId)
    ensures SlotInv(nodes, g, top, 8)
  {
    forall j | 0 <= j < 8
      ensures Seen(g, 8, nodes[j].clientId)
    {
      assert g[j].clientId == nodes[j].clientId;
    }
  }

  /** Every member of `top` that came by is in the answer. */
  lemma TopPlaced(nodes: seq<Node>, g: seq<ClientData>, top: set<Id>, n: nat, p: nat)
    requires SlotInv(nodes, g, top, n) && p < n && g[p].clientId in top && Late(g, top, n) <= Outsiders(g, top, 8)
    ensures InNodeList(nodes, g[p].clientId)
  {
    if p < 8 {
      assert nodes[p].clientId == g[p].clientId;
    } else {
      HeldBetween(g, top, 8, p);
      HeldBetween(g, top, p + 1, n);
      var j := OutsiderSlot(g, top, 8, Late(g, top, p));
      assert SlotFor(g, top, j, p);
    }
  }

  lemma LateEnough(g: seq<ClientData>, top: set<Id>, n: nat, target: Id)
    requires DifferentIds(g) && IsTop(g, top, target) && 8 <= n <= |g|
    ensures Late(g, top, n) <= Outsiders(g, top, 8)
    ensures n < |g| && g[n].clientId in top ==> Late(g, top, n) < Outsiders(g, top, 8)
  {
    LateFillOutsiders(g, top, target);
    HeldBetween(g, top, n, |g|);
    if n < |g| {
      HeldBetween(g, top, n + 1, |g|);
    }
  }

  /** A candidate that comes again. */
  lemma RepeatStep(a: Answer, g: seq<ClientData>, top: set<Id>, n: nat, p: nat, c: ClientData, target: Id, now: nat)
    requires DifferentIds(g) && IsTop(g, top, target) && OnTrack(a, g, top, n)
    requires !Bad(c, now) && p < n && g[p].clientId == c.clientId
    ensures OnTrack(Consider(a, c, target, now), g, top, n)
  {
    if n < 8 {
      assert a.nodes[p].clientId == c.clientId;
    } else if !InNodeList(a.nodes, c.clientId) {
      LateEnough(g, top, n, target);
      if c.clientId in top {
        TopPlaced(a.nodes, g, top, n, p);
      }
      var k := FirstFurther(a.nodes, target, c.clientId);
      if k < 8 {
        OutsiderStep(a.nodes, g, top, n, p, k, Node(c.clientId, c.ipPort), target);
      }
    }
  }

  lemma FillStep(a: Answer, g: seq<ClientData>, top: set<Id>, n: nat, node: Node)
    requires OnTrack(a, g, top, n) && n < 8 && n < |g| && g[n].clientId == node.clientId
    ensures OnTrack(Answer(a.nodes[n := node], n + 1), g, top, n + 1)
  {
    if n == 7 {
      SlotsFull(a.nodes[7 := node], g, top);
    }
  }

  /** A candidate that is new. */
  lemma NewStep(a: Answer, g: seq<ClientData>, top: set<Id>, n: nat, c: ClientData, target: Id, now: nat)
    requires DifferentIds(g) && IsTop(g, top, target) && OnTrack(a, g, top, n)
    requires !Bad(c, now) && !InNodeList(a.nodes, c.clientId) && n < |g| && g[n].clientId == c.clientId
    requires n >= 8 && c.clientId in top ==> ComesInOrder(g, top, target, n)
    ensures OnTrack(Consider(a, c, target, now), g, top, n + 1)
  {
    var node := Node(c.clientId, c.ipPort);
    if n < 8 {
      FillStep(a, g, top, n, node);
    } else if c.clientId in top {
      LateEnough(g, top, n, target);
      var k := LateStep(a.nodes, g, top, n, node, target);
    } else {
      var k := FirstFurther(a.nodes, target, c.clientId);
      OutsiderPasses(a.nodes, g, top, n);
      if k < 8 {
        OutsiderStep(a.nodes, g, top, n + 1, n, k, node, target);
      }
    }
  }

  lemma NewNotListed(a: Answer, start: seq<Node>, cs: seq<ClientData>, c: ClientData, target: Id, now: nat)
    requires AnswerInv(a, start, cs, target, now) && Foreign(start, cs + [c], now)
    requires !Bad(c, now) && c.clientId !in GoodIds(cs, now)
    ensures !InNodeList(a.nodes, c.clientId)
  {
    GoodAppend(cs, c, now);
    forall i | 0 <= i < 8
      ensures a.nodes[i].clientId != c.clientId
    {
      if i < a.num {
        GoodNodesHaveGoodIds(cs, now, a.nodes[i]);
      }
    }
  }

  /** The first n candidates came in order. */
  ghost predicate OrderedUpTo(g: seq<ClientData>, top: set<Id>, target: Id, n: nat)
    requires n <= |g|
  {
    forall i :: 8 <= i < n ==> OrderedAt(g, top, target, i)
  }

  lemma NextFirst(cs: seq<ClientData>, c: ClientData, g: seq<ClientData>, now: nat)
    requires !Bad(c, now) && c.clientId !in GoodIds(cs, now) && Firsts(cs + [c], now) <= g
    ensures |Firsts(cs + [c], now)| == |Firsts(cs, now)| + 1 <= |g| && g[|Firsts(cs, now)|] == c
  {
    FirstsAppend(cs, c, now);
    assert Firsts(cs + [c], now)[|Firsts(cs, now)|] == c;
  }

  lemma EarlierFirst(cs: seq<ClientData>, id: Id, g: seq<ClientData>, now: nat) returns (p: nat)
    requires id in GoodIds(cs, now) && Firsts(cs, now) <= g
    ensures p < |Firsts(cs, now)| && g[p].clientId == id
  {
    FirstsListed(cs, now, id);
    p :| 0 <= p < |Firsts(cs, now)| && Firsts(cs, now)[p].clientId == id;
  }

  lemma TrackNew(a: Answer, g: seq<ClientData>, top: set<Id>, n: nat, c: ClientData, target: Id, now: nat)
    requires DifferentIds(g) && IsTop(g, top, target) && OnTrack(a, g, top, n)
    requires !Bad(c, now) && !InNodeList(a.nodes, c.clientId) && n < |g| && g[n] == c
    requires OrderedUpTo(g, top, target, n + 1)
    ensures OnTrack(Consider(a, c, target, now), g, top, n + 1)
  {
    assert n >= 8 ==> OrderedAt(g, top, target, n);
    NewStep(a, g, top, n, c, target, now);
  }

  lemma TrackStep(a: Answer, cs: seq<ClientData>, c: ClientData, g: seq<ClientData>, top: set<Id>, target: Id, now: nat)
    requires !Bad(c, now) && c.clientId !in GoodIds(cs, now) ==> !InNodeList(a.nodes, c.clientId)
    requires DifferentIds(g) && IsTop(g, top, target) && Firsts(cs, now) <= g && Firsts(cs + [c], now) <= g
    requires OnTrack(a, g, top, |Firsts(cs, now)|) && OrderedUpTo(g, top, target, |Firsts(cs + [c], now)|)
    ensures OnTrack(Consider(a, c, target, now), g, top, |Firsts(cs + [c], now)|)
  {
    if Bad(c, now) || c.clientId in GoodIds(cs, now) {
      FirstsAppend(cs, c, now);
      if !Bad(c, now) {
        var p := EarlierFirst(cs, c.clientId, g, now);
        RepeatStep(a, g, top, |Firsts(cs, now)|, p, c, target, now);
      }
    } else {
      NextFirst(cs, c, g, now);
      TrackNew(a, g, top, |Firsts(cs, now)|, c, target, now);
    }
  }

  /** The i-th candidate and those before it. */
  lemma Prefixes(start: seq<Node>, cs: seq<ClientData>, i: nat, target: Id, now: nat)
    requires |start| == 8 && i < |cs|
    ensures cs[..i + 1] == cs[..i] + [cs[i]]
    ensures Firsts(cs[..i], now) <= Firsts(cs, now) && Firsts(cs[..i + 1], now) <= Firsts(cs, now)
    ensures |Firsts(cs[..i], now)| <= |Firsts(cs[..i + 1], now)|
    ensures GoodIds(cs[..i] + [cs[i]], now) <= GoodIds(cs, now)
    ensures After(start, cs, i + 1, target, now) == Consider(After(start, cs, i, target, now), cs[i], target, now)
  {
    assert cs[..i + 1] == cs[..i] + [cs[i]] && cs[..i + 1][..i] == cs[..i];
    FirstsGrow(cs, i, now);
    FirstsGrow(cs, i + 1, now);
    FirstsAppend(cs[..i], cs[i], now);
    GoodGrows(cs, i + 1, now);
  }

  /** New candidates are not in the answer yet. */
  lemma NewNotListedAfter(start: seq<Node>, cs: seq<ClientData>, i: nat, target: Id, now: nat)
    requires |start| == 8 && i < |cs| && Foreign(start, cs, now)
    requires !Bad(cs[i], now) && cs[i].clientId !in GoodIds(cs[..i], now)
    ensures !InNodeList(After(start, cs, i, target, now).nodes, cs[i].clientId)
  {
    Prefixes(start, cs, i, target, now);
    ConsiderAllKeeps(start, cs[..i], target, now);
    NewNotListed(After(start, cs, i, target, now), start, cs[..i], cs[i], target, now);
  }

  lemma {:induction false} TrackAll(start: seq<Node>, cs: seq<ClientData>, i: nat, top: set<Id>, target: Id, now: nat)
    requires |start| == 8 && i <= |cs| && Foreign(start, cs, now) && IsTop(Firsts(cs, now), top, target)
    requires |Firsts(cs[..i], now)| <= |Firsts(cs, now)| && OrderedUpTo(Firsts(cs, now), top, target, |Firsts(cs[..i], now)|)
    ensures OnTrack(After(start, cs, i, target, now), Firsts(cs, now), top, |Firsts(cs[..i], now)|)
  {
    if i > 0 {
      Prefixes(start, cs, i - 1, target, now);
      FirstsDiffer(cs, now);
      TrackAll(start, cs, i - 1, top, target, now);
      if !Bad(cs[i - 1], now) && cs[i - 1].clientId !in GoodIds(cs[..i - 1], now) {
        NewNotListedAfter(start, cs, i - 1, target, now);
      }
      TrackStep(After(start, cs, i - 1, target, now), cs[..i - 1], cs[i - 1], Firsts(cs, now), top, target, now);
    }
  }

  lemma SameSize(small: set<Id>, large: set<Id>)
    requires small <= large && |small| == |large|
    ensures forall id :: id in large ==> id in small
  {
    assert large == small + (large - small);
    assert |large - small| == 0;
  }

  lemma TopInAnswer(a: Answer, g: seq<ClientData>, top: set<Id>, target: Id, id: Id)
    requires DifferentIds(g) && IsTop(g, top, target) && OnTrack(a, g, top, |g|) && id in top
    ensures id in AnswerIds(a)
  {
    var p :| 0 <= p < |g| && g[p].clientId == id;
    if |g| < 8 {
      assert a.nodes[..a.num][p].clientId == id;
    } else {
      LateEnough(g, top, |g|, target);
      TopPlaced(a.nodes, g, top, |g|, p);
      assert a.nodes[..8] == a.nodes;
    }
    IdsOfAre(a.nodes[..a.num], id);
  }

  /** All members of `top` are there in the end. */
  lemma TrackEnds(a: Answer, g: seq<ClientData>, top: set<Id>, target: Id)
    requires DifferentIds(g) && IsTop(g, top, target) && OnTrack(a, g, top, |g|) && Distinct(a)
    ensures AnswerIds(a) == top
  {
    forall id | id in top
      ensures id in AnswerIds(a)
    {
      TopInAnswer(a, g, top, target, id);
    }
    IdsOfSize(a.nodes[..a.num]);
    SameSize(top, AnswerIds(a));
  }

  // ---------- a member of `top` that is lost ----------

  /** No good candidate comes twice. */
  ghost predicate NoRepeats(cs: seq<ClientData>, now: nat) {
    forall i :: 0 <= i < |cs| ==> Bad(cs[i], now) || cs[i].clientId !in GoodIds(cs[..i], now)
  }

  ghost predicate Lost(a: Answer, cs: seq<ClientData>, id: Id, now: nat) {
    |a.nodes| == 8 == a.num && id in GoodIds(cs, now) && !InNodeList(a.nodes, id)
  }

  lemma LostStays(a: Answer, cs: seq<ClientData>, c: ClientData, id: Id, target: Id, now: nat)
    requires Lost(a, cs, id, now) && (Bad(c, now) || c.clientId !in GoodIds(cs, now))
    ensures Lost(Consider(a, c, target, now), cs + [c], id, now)
  {
    GoodAppend(cs, c, now);
  }

  lemma DisplacedIsLost(a: Answer, cs: seq<ClientData>, c: ClientData, k: nat, target: Id, now: nat)
    requires |a.nodes| == 8 == a.num && Distinct(a) && FromCandidates(a, cs, now)
    requires !Bad(c, now) && c.clientId !in GoodIds(cs, now) && k < 8 && k == FirstFurther(a.nodes, target, c.clientId)
    requires !InNodeList(a.nodes, c.clientId)
    ensures Lost(Consider(a, c, target, now), cs + [c], a.nodes[k].clientId, now)
  {
    GoodAppend(cs, c, now);
    GoodNodesHaveGoodIds(cs, now, a.nodes[k]);
    var id := a.nodes[k].clientId;
    var nodes := a.nodes[k := Node(c.clientId, c.ipPort)];
    forall j | 0 <= j < 8
      ensures nodes[j].clientId != id
    {
      assert j < k || j == k || k < j;
    }
  }

  /** The first candidate out of order costs a member of `top`. */
  lemma OutOfOrderLoses(a: Answer, start: seq<Node>, cs: seq<ClientData>, c: ClientData, g: seq<ClientData>, top: set<Id>, target: Id, now: nat)
    returns (id: Id)
    requires AnswerInv(a, start, cs, target, now) && Foreign(start, cs + [c], now) && (Bad(c, now) || c.clientId !in GoodIds(cs, now))
    requires DifferentIds(g) && IsTop(g, top, target) && Firsts(cs, now) <= g && Firsts(cs + [c], now) <= g
    requires OnTrack(a, g, top, |Firsts(cs, now)|)
    requires OrderedUpTo(g, top, target, |Firsts(cs, now)|) && !OrderedUpTo(g, top, target, |Firsts(cs + [c], now)|)
    ensures id in top && Lost(Consider(a, c, target, now), cs + [c], id, now)
  {
    var n := |Firsts(cs, now)|;
    FirstsAppend(cs, c, now);
    NextFirst(cs, c, g, now);
    OrderBreaks(g, top, target, n);
    NewNotListed(a, start, cs, c, target, now);
    var k := Displaced(a.nodes, g, top, n, target);
    DisplacedIsLost(a, cs, c, k, target, now);
    id := a.nodes[k].clientId;
  }

  lemma OrderBreaks(g: seq<ClientData>, top: set<Id>, target: Id, n: nat)
    requires n < |g| && OrderedUpTo(g, top, target, n) && !OrderedUpTo(g, top, target, n + 1)
    ensures 8 <= n && g[n].clientId in top && !ComesInOrder(g, top, target, n)
  {
  }

  lemma Displaced(nodes: seq<Node>, g: seq<ClientData>, top: set<Id>, n: nat, target: Id) returns (k: nat)
    requires DifferentIds(g) && IsTop(g, top, target) && SlotInv(nodes, g, top, n)
    requires n < |g| && g[n].clientId in top && !ComesInOrder(g, top, target, n)
    ensures k < 8 && k == FirstFurther(nodes, target, g[n].clientId) && nodes[k].clientId in top
  {
    LateEnough(g, top, n, target);
    LateDisplaces(nodes, g, top, n, target);
    k := FirstFurther(nodes, target, g[n].clientId);
  }

  lemma NoneYet(cs: seq<ClientData>, now: nat)
    ensures Firsts(cs[..0], now) == []
  {
  }

  lemma LostAt(start: seq<Node>, cs: seq<ClientData>, i: nat, top: set<Id>, target: Id, now: nat) returns (id: Id)
    requires |start| == 8 && i < |cs| && Foreign(start, cs, now) && NoRepeats(cs, now) && IsTop(Firsts(cs, now), top, target)
    requires |Firsts(cs[..i], now)| <= |Firsts(cs, now)| && OrderedUpTo(Firsts(cs, now), top, target, |Firsts(cs[..i], now)|)
    requires |Firsts(cs[..i + 1], now)| <= |Firsts(cs, now)|
    requires !OrderedUpTo(Firsts(cs, now), top, target, |Firsts(cs[..i + 1], now)|)
    ensures id in top && Lost(After(start, cs, i + 1, target, now), cs[..i + 1], id, now)
  {
    Prefixes(start, cs, i, target, now);
    FirstsDiffer(cs, now);
    TrackAll(start, cs, i, top, target, now);
    ConsiderAllKeeps(start, cs[..i], target, now);
    id := OutOfOrderLoses(After(start, cs, i, target, now), start, cs[..i], cs[i], Firsts(cs, now), top, target, now);
  }

  lemma {:induction false} LostInTheEnd(start: seq<Node>, cs: seq<ClientData>, i: nat, top: set<Id>, target: Id, now: nat)
    returns (id: Id)
    requires |start| == 8 && i <= |cs| && Foreign(start, cs, now) && NoRepeats(cs, now) && IsTop(Firsts(cs, now), top, target)
    requires |Firsts(cs[..i], now)| <= |Firsts(cs, now)| && !OrderedUpTo(Firsts(cs, now), top, target, |Firsts(cs[..i], now)|)
    ensures id in top && Lost(After(start, cs, i, target, now), cs[..i], id, now)
  {
    NoneYet(cs, now);
    assert i > 0;
    Prefixes(start, cs, i - 1, target, now);
    if OrderedUpTo(Firsts(cs, now), top, target, |Firsts(cs[..i - 1], now)|) {
      id := LostAt(start, cs, i - 1, top, target, now);
    } else {
      id := LostInTheEnd(start, cs, i - 1, top, target, now);
      LostStays(After(start, cs, i - 1, target, now), cs[..i - 1], cs[i - 1], id, target, now);
    }
  }

  // ---------- the returned answer ----------

  /** If the closest come in order, the answer is the 8 closest: bad candidates, repeats and ties do not matter. */
  lemma ReturnsTop(start: seq<Node>, cs: seq<ClientData>, top: set<Id>, target: Id, now: nat)
    requires |start| == 8 && Foreign(start, cs, now) && IsTop(Firsts(cs, now), top, target)
    requires InOrder(Firsts(cs, now), top, target)
    ensures AnswerIds(ConsiderAll(Answer(start, 0), cs, target, now)) == top
  {
    assert cs[..|cs|] == cs;
    FirstsDiffer(cs, now);
    TrackAll(start, cs, |cs|, top, target, now);
    ConsiderAllKeeps(start, cs, target, now);
    TrackEnds(After(start, cs, |cs|, target, now), Firsts(cs, now), top, target);
  }

  /** Without repeats, if and only if. */
  lemma ReturnsTopIff(start: seq<Node>, cs: seq<ClientData>, top: set<Id>, target: Id, now: nat)
    requires |start| == 8 && Foreign(start, cs, now) && IsTop(Firsts(cs, now), top, target) && NoRepeats(cs, now)
    ensures AnswerIds(ConsiderAll(Answer(start, 0), cs, target, now)) == top <==> InOrder(Firsts(cs, now), top, target)
  {
    if InOrder(Firsts(cs, now), top, target) {
      ReturnsTop(start, cs, top, target, now);
    } else {
      assert cs[..|cs|] == cs;
      var id := LostInTheEnd(start, cs, |cs|, top, target, now);
      var a := After(start, cs, |cs|, target, now);
      assert a.nodes[..8] == a.nodes;
      IdsOfAre(a.nodes, id);
    }
  }

  // ---------- distances ----------

  /** A distance that the answer lacks belongs to a candidate that it lacks. */
  lemma {:induction false} MissingDistance(nodes: seq<Node>, cs: seq<ClientData>, target: Id, now: nat, y: nat) returns (id: Id)
    requires forall i, j :: 0 <= i < j < |nodes| ==> nodes[i].clientId != nodes[j].clientId
    requires forall i :: 0 <= i < |nodes| ==> nodes[i].clientId in GoodIds(cs, now)
    requires y in GoodDistances(cs, target, now) - Distances(nodes, target)
    ensures id in GoodIds(cs, now) && !InNodeList(nodes, id) && Distance(target, id) == y
    decreases |cs|
  {
    var before, c := cs[..|cs| - 1], cs[|cs| - 1];
    if !Bad(c, now) && c.clientId !in GoodIds(before, now) && InNodeList(nodes, c.clientId) {
      var k :| 0 <= k < |nodes| && nodes[k].clientId == c.clientId;
      WithoutKeepsIds(nodes, k, GoodIds(cs, now));
      DistancesWithout(nodes, k, target);
      id := MissingDistance(Without(nodes, k), before, target, now, y);
      NotListedEither(nodes, k, id);
    } else if !Bad(c, now) && c.clientId !in GoodIds(before, now) && Distance(target, c.clientId) == y {
      id := c.clientId;
    } else {
      id := MissingDistance(nodes, before, target, now, y);
    }
  }

  lemma NotListedEither(nodes: seq<Node>, k: nat, id: Id)
    requires k < |nodes| && !InNodeList(Without(nodes, k), id) && nodes[k].clientId != id
    ensures !InNodeList(nodes, id)
  {
    forall i | 0 <= i < |nodes|
      ensures nodes[i].clientId != id
    {
      if i < k {
        assert nodes[i] == Without(nodes, k)[i];
      } else if i > k {
        assert nodes[i] == Without(nodes, k)[i - 1];
      }
    }
  }

  lemma {:induction false} GoodDistancesSize(cs: seq<ClientData>, target: Id, now: nat)
    ensures |GoodDistances(cs, target, now)| == |Firsts(cs, now)|
  {
    if cs != [] {
      GoodDistancesSize(cs[..|cs| - 1], target, now);
    }
  }

  lemma TopCloserThan(g: seq<ClientData>, top: set<Id>, id: Id, other: Id, target: Id)
    requires IsTop(g, top, target) && id in top && Listed(g, other) && other !in top
    ensures Distance(target, id) <= Distance(target, other)
    ensures DifferentDistances(g, target) ==> Distance(target, id) < Distance(target, other)
  {
    var q :| 0 <= q < |g| && g[q].clientId == other;
    var p :| 0 <= p < |g| && g[p].clientId == id;
    assert if p < q then Ranked(g, top, target, p, q) else Ranked(g, top, target, q, p);
    if DifferentDistances(g, target) {
      assert Away(g, p, target) != Away(g, q, target);
    }
  }

  /** Whoever is in `top` is as close as whoever is not. */
  lemma TopClosest(cs: seq<ClientData>, top: set<Id>, id: Id, other: Id, target: Id, now: nat)
    requires IsTop(Firsts(cs, now), top, target) && id in top && other in GoodIds(cs, now) && other !in top
    ensures Distance(target, id) <= Distance(target, other)
    ensures DifferentDistances(Firsts(cs, now), target) ==> Distance(target, id) < Distance(target, other)
  {
    FirstsListed(cs, now, other);
    TopCloserThan(Firsts(cs, now), top, id, other, target);
  }

  ghost predicate DifferentDistances(g: seq<ClientData>, target: Id) {
    forall p, q :: 0 <= p < q < |g| ==> Away(g, p, target) != Away(g, q, target)
  }

  /** The members of an answer, as a list. */
  lemma AnswerList(a: Answer, cs: seq<ClientData>, now: nat, id: Id)
    requires a.num <= |a.nodes| && FromCandidates(a, cs, now)
    ensures forall i :: 0 <= i < a.num ==> a.nodes[..a.num][i].clientId in GoodIds(cs, now)
    ensures id in AnswerIds(a) <==> InNodeList(a.nodes[..a.num], id)
  {
    forall i | 0 <= i < a.num
      ensures a.nodes[..a.num][i].clientId in GoodIds(cs, now)
    {
      GoodNodesHaveGoodIds(cs, now, a.nodes[i]);
    }
    IdsOfAre(a.nodes[..a.num], id);
  }

  lemma TopIsSmallest(a: Answer, cs: seq<ClientData>, top: set<Id>, target: Id, now: nat, x: nat, y: nat)
    requires a.num <= |a.nodes| && Distinct(a) && FromCandidates(a, cs, now)
    requires IsTop(Firsts(cs, now), top, target) && AnswerIds(a) == top
    requires x in Distances(a.nodes[..a.num], target)
    requires y in GoodDistances(cs, target, now) - Distances(a.nodes[..a.num], target)
    ensures x <= y
  {
    var nodes := a.nodes[..a.num];
    var i := DistanceFrom(nodes, target, x);
    AnswerList(a, cs, now, nodes[i].clientId);
    assert InNodeList(nodes, nodes[i].clientId);
    var id := MissingDistance(nodes, cs, target, now, y);
    AnswerList(a, cs, now, id);
    TopClosest(cs, top, nodes[i].clientId, id, target, now);
  }

  lemma TopHoldsClosest(a: Answer, cs: seq<ClientData>, top: set<Id>, target: Id, now: nat)
    requires a.num <= |a.nodes| && Distinct(a) && FromCandidates(a, cs, now)
    requires IsTop(Firsts(cs, now), top, target) && AnswerIds(a) == top
    ensures HoldsClosest(a, cs, target, now)
  {
    var nodes := a.nodes[..a.num];
    AnswerList(a, cs, now, ZERO_ID);
    DistancesIncluded(nodes, cs, target, now);
    DistancesSize(nodes, target);
    GoodDistancesSize(cs, target, now);
    AnswerIdsCounted(a, cs, now);
    forall x, y | x in Distances(nodes, target) && y in GoodDistances(cs, target, now) - Distances(nodes, target)
      ensures x <= y
    {
      TopIsSmallest(a, cs, top, target, now, x, y);
    }
  }

  lemma NotSubset(a: set<Id>, b: set<Id>) returns (id: Id)
    requires a != b && |a| == |b|
    ensures id in a && id !in b
  {
    if a <= b {
      SameSize(a, b);
    }
    id :| id in a && id !in b;
  }

  lemma ClosestIsTop(a: Answer, cs: seq<ClientData>, top: set<Id>, target: Id, now: nat)
    requires a.num <= |a.nodes| && Distinct(a) && FromCandidates(a, cs, now)
    requires IsTop(Firsts(cs, now), top, target) && DifferentDistances(Firsts(cs, now), target)
    requires HoldsClosest(a, cs, target, now)
    ensures AnswerIds(a) == top
  {
    var nodes := a.nodes[..a.num];
    DistancesSize(nodes, target);
    GoodDistancesSize(cs, target, now);
    AnswerIdsCounted(a, cs, now);
    if AnswerIds(a) != top {
      var missing := NotSubset(top, AnswerIds(a));
      var extra := NotSubset(AnswerIds(a), top);
      FirstsListed(cs, now, missing);
      MissingIsFurther(a, cs, missing, extra, target, now);
      TopClosest(cs, top, missing, extra, target, now);
    }
  }

  lemma MissingIsFurther(a: Answer, cs: seq<ClientData>, missing: Id, extra: Id, target: Id, now: nat)
    requires a.num <= |a.nodes| && Distinct(a) && FromCandidates(a, cs, now) && HoldsClosest(a, cs, target, now)
    requires missing in GoodIds(cs, now) && missing !in AnswerIds(a) && extra in AnswerIds(a)
    ensures Distance(target, extra) <= Distance(target, missing)
  {
    var nodes := a.nodes[..a.num];
    AnswerList(a, cs, now, missing);
    AnswerList(a, cs, now, extra);
    OneMoreIncluded(nodes, cs, Node(missing, IpPort(0, 0)), target, now);
    IncludedIsFurther(Distances(nodes, target), GoodDistances(cs, target, now), Distance(target, missing));
    AllWithin(nodes, target, Distance(target, missing));
  }

  /** If the closest come in order, the returned answer is the 8 closest. */
  lemma ReturnsClosest(start: seq<Node>, cs: seq<ClientData>, top: set<Id>, target: Id, now: nat)
    requires |start| == 8 && Foreign(start, cs, now) && IsTop(Firsts(cs, now), top, target)
    requires InOrder(Firsts(cs, now), top, target)
    ensures HoldsClosest(ConsiderAll(Answer(start, 0), cs, target, now), cs, target, now)
  {
    ReturnsTop(start, cs, top, target, now);
    ConsiderAllKeeps(start, cs, target, now);
    TopHoldsClosest(ConsiderAll(Answer(start, 0), cs, target, now), cs, top, target, now);
  }

  /**
   For candidates at different distances, none of them twice: the returned answer is the 8 closest of
   them if and only if the closest come in order.
   */
  lemma ReturnsClosestIff(start: seq<Node>, cs: seq<ClientData>, top: set<Id>, target: Id, now: nat)
    requires |start| == 8 && Foreign(start, cs, now) && IsTop(Firsts(cs, now), top, target)
    requires NoRepeats(cs, now) && DifferentDistances(Firsts(cs, now), target)
    ensures HoldsClosest(ConsiderAll(Answer(start, 0), cs, target, now), cs, target, now) <==>
            InOrder(Firsts(cs, now), top, target)
  {
    var a := ConsiderAll(Answer(start, 0), cs, target, now);
    ReturnsTopIff(start, cs, top, target, now);
    ConsiderAllKeeps(start, cs, target, now);
    if HoldsClosest(a, cs, target, now) {
      ClosestIsTop(a, cs, top, target, now);
    } else if AnswerIds(a) == top {
      TopHoldsClosest(a, cs, top, target, now);
    }
  }

  // ---------- every list has its 8 closest ----------

  lemma {:induction false} IdsBelowSize(g: seq<ClientData>, n: nat)
    requires n <= |g| && DifferentIds(g)
    ensures |IdsBelow(g, n)| == n
  {
    if n > 0 {
      IdsBelowSize(g, n - 1);
      IdsBelowAre(g, n - 1, g[n - 1].clientId);
    }
  }

  lemma FewAreTop(g: seq<ClientData>, target: Id)
    requires DifferentIds(g) && |g| <= 8
    ensures IsTop(g, IdsBelow(g, |g|), target)
  {
    IdsBelowSize(g, |g|);
    forall id | id in IdsBelow(g, |g|)
      ensures Listed(g, id)
    {
      IdsBelowAre(g, |g|, id);
    }
    forall p, q | 0 <= p < q < |g|
      ensures Ranked(g, IdsBelow(g, |g|), target, p, q)
    {
      IdsBelowAre(g, |g|, g[p].clientId);
      IdsBelowAre(g, |g|, g[q].clientId);
    }
  }

  /** p is no further than m, or comes no later where both are as far. */
  predicate NotBehind(g: seq<ClientData>, target: Id, p: nat, m: nat)
    requires p < |g| && m < |g|
  {
    Away(g, p, target) < Away(g, m, target) || (Away(g, p, target) == Away(g, m, target) && p <= m)
  }

  /** The last of the members of `top` among the first n. */
  lemma {:induction false} LastOfTop(g: seq<ClientData>, top: set<Id>, target: Id, n: nat) returns (m: nat)
    requires n <= |g| && Held(g, top, n) > 0
    ensures m < n && g[m].clientId in top
    ensures forall p :: 0 <= p < n && g[p].clientId in top ==> NotBehind(g, target, p, m)
  {
    if Held(g, top, n - 1) == 0 {
      m := n - 1;
      forall p | 0 <= p < n && g[p].clientId in top
        ensures p == m
      {
        if p < m {
          HeldBetween(g, top, p + 1, n - 1);
        }
      }
    } else {
      m := LastOfTop(g, top, target, n - 1);
      if g[n - 1].clientId in top && Away(g, m, target) <= Away(g, n - 1, target) {
        m := n - 1;
      }
    }
  }

  lemma TopUnchanged(g: seq<ClientData>, top: set<Id>, m: nat, target: Id)
    requires |g| > 8 && DifferentIds(g) && IsTop(g[..|g| - 1], top, target)
    requires m < |g| - 1 && g[m].clientId in top && Away(g, m, target) <= Away(g, |g| - 1, target)
    requires forall p :: 0 <= p < |g| - 1 && g[p].clientId in top ==> NotBehind(g, target, p, m)
    requires g[|g| - 1].clientId !in top
    ensures forall p, q :: 0 <= p < q < |g| ==> Ranked(g, top, target, p, q)
  {
    forall p, q | 0 <= p < q < |g|
      ensures Ranked(g, top, target, p, q)
    {
      if q < |g| - 1 {
        assert Ranked(g[..|g| - 1], top, target, p, q);
      }
    }
  }

  /** Who is in `top` after the m-th has given way to the last. */
  lemma Exchanged(g: seq<ClientData>, top: set<Id>, next: set<Id>, m: nat, p: nat)
    requires DifferentIds(g) && m < |g| - 1 && p < |g| && next == top - {g[m].clientId} + {g[|g| - 1].clientId}
    ensures g[p].clientId in next <==> p == |g| - 1 || (p != m && g[p].clientId in top)
  {
    if p < m {
      assert g[p].clientId != g[m].clientId;
    } else if m < p {
      assert g[m].clientId != g[p].clientId;
    }
    if p < |g| - 1 {
      assert g[p].clientId != g[|g| - 1].clientId;
    }
  }

  lemma RankedChanged(g: seq<ClientData>, top: set<Id>, next: set<Id>, m: nat, target: Id, p: nat, q: nat)
    requires DifferentIds(g) && p < q < |g| && m < |g| - 1 && next == top - {g[m].clientId} + {g[|g| - 1].clientId}
    requires q < |g| - 1 ==> Ranked(g, top, target, p, q)
    requires p < m ==> Ranked(g, top, target, p, m)
    requires m < p ==> Ranked(g, top, target, m, p)
    requires g[m].clientId in top && Away(g, m, target) > Away(g, |g| - 1, target)
    requires g[p].clientId in top ==> NotBehind(g, target, p, m)
    requires g[q].clientId in top && q < |g| - 1 ==> NotBehind(g, target, q, m)
    ensures Ranked(g, next, target, p, q)
  {
    Exchanged(g, top, next, m, p);
    Exchanged(g, top, next, m, q);
  }

  lemma TopChanged(g: seq<ClientData>, top: set<Id>, next: set<Id>, m: nat, target: Id)
    requires |g| > 8 && DifferentIds(g) && IsTop(g[..|g| - 1], top, target)
    requires m < |g| - 1 && g[m].clientId in top && Away(g, m, target) > Away(g, |g| - 1, target)
    requires forall p :: 0 <= p < |g| - 1 && g[p].clientId in top ==> NotBehind(g, target, p, m)
    requires next == top - {g[m].clientId} + {g[|g| - 1].clientId}
    ensures forall p, q :: 0 <= p < q < |g| ==> Ranked(g, next, target, p, q)
  {
    var n := |g| - 1;
    forall p, q | 0 <= p < q < |g|
      ensures Ranked(g, next, target, p, q)
    {
      if q < n {
        assert Ranked(g[..n], top, target, p, q);
      }
      if p < m {
        assert Ranked(g[..n], top, target, p, m);
      } else if m < p {
        assert Ranked(g[..n], top, target, m, p);
      }
      RankedChanged(g, top, next, m, target, p, q);
    }
  }

  lemma ListedBefore(g: seq<ClientData>, n: nat, id: Id)
    requires n <= |g| && Listed(g[..n], id)
    ensures Listed(g, id)
  {
    var i :| 0 <= i < n && g[..n][i].clientId == id;
    assert g[i].clientId == id;
  }

  lemma TopNext(g: seq<ClientData>, top: set<Id>, target: Id) returns (next: set<Id>)
    requires |g| > 8 && DifferentIds(g) && IsTop(g[..|g| - 1], top, target)
    ensures IsTop(g, next, target)
  {
    var n := |g| - 1;
    forall id | id in top
      ensures id in IdsBelow(g, n) && Listed(g, id)
    {
      ListedBefore(g, n, id);
      var i :| 0 <= i < n && g[..n][i].clientId == id;
      assert g[i].clientId == id;
      IdsBelowAre(g, n, id);
    }
    assert top * IdsBelow(g, n) == top;
    HeldCounts(g, top, n);
    IdsBelowAre(g, n, g[n].clientId);
    var m := LastOfTop(g, top, target, n);
    if Away(g, m, target) <= Away(g, n, target) {
      TopUnchanged(g, top, m, target);
      next := top;
    } else {
      next := top - {g[m].clientId} + {g[n].clientId};
      TopChanged(g, top, next, m, target);
    }
  }

  lemma {:induction false} TopExists(g: seq<ClientData>, target: Id) returns (top: set<Id>)
    requires DifferentIds(g)
    ensures IsTop(g, top, target)
  {
    if |g| <= 8 {
      FewAreTop(g, target);
      top := IdsBelow(g, |g|);
    } else {
      var before := TopExists(g[..|g| - 1], target);
      top := TopNext(g, before, target);
    }
  }
}

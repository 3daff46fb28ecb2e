/**
 The bounded node lists of toxcore/DHT.c: the 32 clients closest to us and, for every friend, the
 8 clients closest to that friend. `now` is the clock reading of the call.
 */
module DhtLists {
  import opened Wrappers
  import opened ClientDistance
  import QuickSort

  const BAD_NODE_TIMEOUT: nat := 70

  datatype ClientData = ClientData(
    clientId: Id,
    ipPort: IpPort,
    timestamp: nat,
    lastPinged: nat,
    retIpPort: IpPort,
    retTimestamp: nat)

  datatype ClientPair = ClientPair(c1: Id, c2: ClientData)

  predicate IsTimeout(now: nat, timestamp: nat, timeout: nat) {
    timestamp + timeout <= now
  }

  predicate Bad(c: ClientData, now: nat) {
    IsTimeout(now, c.timestamp, BAD_NODE_TIMEOUT)
  }

  /** The entry that a new client leaves in the slot of `c`. */
  function Replaced(c: ClientData, id: Id, addr: IpPort, now: nat): ClientData {
    c.(clientId := id, ipPort := addr, timestamp := now, retIpPort := IpPort(0, 0), retTimestamp := 0)
  }

  function Refreshed(c: ClientData, id: Id, addr: IpPort, now: nat): ClientData {
    c.(clientId := id, ipPort := addr, timestamp := now)
  }

  predicate Matches(c: ClientData, id: Id, addr: IpPort) {
    c.ipPort == addr || c.clientId == id
  }

  // ---------- sorting ----------

  /** -1, 0, 1: a client that is further from `c1` comes first. */
  function ClientIdCmp(p1: ClientPair, p2: ClientPair): int {
    var c := Closest(p1.c1, p1.c2.clientId, p2.c2.clientId);
    if c == 2 then -1 else c
  }

  ghost predicate FurthestFirst(s: seq<ClientData>, comp: Id) {
    forall i, j :: 0 <= i < j < |s| ==> Distance(comp, s[i].clientId) >= Distance(comp, s[j].clientId)
  }

  ghost predicate SameTarget(dom: set<ClientPair>, comp: Id) {
    forall p :: p in dom ==> p.c1 == comp
  }

  /** The comparator is a total preorder on pairs that share their first component. */
  lemma CmpIsPreorder(dom: set<ClientPair>, comp: Id)
    requires SameTarget(dom, comp)
    ensures QuickSort.PreorderOn(ClientIdCmp, dom)
  {
  }

  function PairUp(s: seq<ClientData>, comp: Id): (p: seq<ClientPair>)
    ensures |p| == |s| && forall i :: 0 <= i < |s| ==> p[i] == ClientPair(comp, s[i])
  {
    seq(|s|, i requires 0 <= i < |s| => ClientPair(comp, s[i]))
  }

  function Seconds(p: seq<ClientPair>): (s: seq<ClientData>)
    ensures |s| == |p| && forall i :: 0 <= i < |p| ==> s[i] == p[i].c2
  {
    seq(|p|, i requires 0 <= i < |p| => p[i].c2)
  }

  function Without<T>(s: seq<T>, j: nat): seq<T>
    requires j < |s|
  {
    s[..j] + s[j + 1..]
  }

  lemma WithoutMultiset<T>(s: seq<T>, j: nat)
    requires j < |s|
    ensures multiset(s) == multiset(Without(s, j)) + multiset{s[j]}
  {
    assert s == s[..j] + [s[j]] + s[j + 1..];
  }

  lemma SecondsWithout(p: seq<ClientPair>, j: nat)
    requires j < |p|
    ensures multiset(Seconds(p)) == multiset(Seconds(Without(p, j))) + multiset{p[j].c2}
  {
    WithoutMultiset(Seconds(p), j);
    assert Seconds(Without(p, j)) == Without(Seconds(p), j);
  }

  lemma {:induction false} SecondsPermuted(p: seq<ClientPair>, q: seq<ClientPair>)
    requires multiset(p) == multiset(q)
    ensures multiset(Seconds(p)) == multiset(Seconds(q))
  {
    if p == [] {
      assert |multiset(q)| == 0;
    } else {
      assert p[0] in multiset(q);
      var j :| 0 <= j < |q| && q[j] == p[0];
      WithoutMultiset(p, 0);
      WithoutMultiset(q, j);
      QuickSort.Cancel(multiset(Without(p, 0)), multiset(Without(q, j)), multiset{p[0]});
      SecondsPermuted(Without(p, 0), Without(q, j));
      SecondsWithout(p, 0);
      SecondsWithout(q, j);
    }
  }

  lemma SortedPairs(p: seq<ClientPair>, comp: Id)
    requires QuickSort.Sorted(ClientIdCmp, p, 0, |p|) && (forall i :: 0 <= i < |p| ==> p[i].c1 == comp)
    ensures FurthestFirst(Seconds(p), comp)
  {
    forall i, j | 0 <= i < j < |p|
      ensures Distance(comp, Seconds(p)[i].clientId) >= Distance(comp, Seconds(p)[j].clientId)
    {
      assert ClientIdCmp(p[i], p[j]) <= 0;
    }
  }

  method MakePairs(list: array<ClientData>, comp: Id) returns (pairs: array<ClientPair>)
    ensures fresh(pairs) && pairs[..] == PairUp(list[..], comp)
  {
    pairs := new ClientPair[list.Length](i => ClientPair(comp, ClientData(comp, IpPort(0, 0), 0, 0, IpPort(0, 0), 0)));
    for i := 0 to list.Length
      invariant forall j :: 0 <= j < i ==> pairs[j] == ClientPair(comp, list[j])
    {
      pairs[i] := ClientPair(comp, list[i]);
    }
  }

  method CopyBack(list: array<ClientData>, pairs: array<ClientPair>)
    requires list.Length == pairs.Length
    modifies list
    ensures list[..] == Seconds(pairs[..])
  {
    for i := 0 to list.Length
      invariant forall j :: 0 <= j < i ==> list[j] == pairs[j].c2
    {
      list[i] := pairs[i].c2;
    }
  }

  /** Turns the list into pairs that the quicksort can compare, and back. */
  method SortList(list: array<ClientData>, comp: Id)
    modifies list
    ensures FurthestFirst(list[..], comp)
    ensures multiset(list[..]) == multiset(old(list[..]))
  {
    ghost var s := list[..];
    var pairs := MakePairs(list, comp);
    ghost var paired := pairs[..];
    ghost var dom := set p | p in paired;
    assert QuickSort.Within(paired, 0, |paired|, dom);
    SortPairs(pairs, comp, dom);
    PairsSorted(s, paired, pairs[..], comp, dom);
    CopyBack(list, pairs);
  }

  method SortPairs(pairs: array<ClientPair>, ghost comp: Id, ghost dom: set<ClientPair>)
    requires SameTarget(dom, comp) && QuickSort.Within(pairs[..], 0, pairs.Length, dom)
    modifies pairs
    ensures QuickSort.Rearranged(old(pairs[..]), pairs[..], 0, pairs.Length)
    ensures QuickSort.Sorted(ClientIdCmp, pairs[..], 0, pairs.Length)
  {
    CmpIsPreorder(dom, comp);
    QuickSort.Sort(pairs, 0, pairs.Length, ClientIdCmp, dom);
  }

  lemma PairsSorted(s: seq<ClientData>, paired: seq<ClientPair>, sorted: seq<ClientPair>, comp: Id, dom: set<ClientPair>)
    requires paired == PairUp(s, comp) && SameTarget(dom, comp) && QuickSort.Within(paired, 0, |paired|, dom)
    requires QuickSort.Rearranged(paired, sorted, 0, |paired|) && QuickSort.Sorted(ClientIdCmp, sorted, 0, |sorted|)
    ensures FurthestFirst(Seconds(sorted), comp) && multiset(Seconds(sorted)) == multiset(s)
  {
    QuickSort.WithinKept(paired, sorted, 0, |paired|, dom);
    SortedPairs(sorted, comp);
    SecondsPermuted(sorted, paired);
    assert Seconds(paired) == s;
  }

  // ---------- adding a client ----------

  /** Index of the first entry with this address or this id; |s| if there is none. */
  function FirstMatch(s: seq<ClientData>, id: Id, addr: IpPort): (i: nat)
    ensures i <= |s|
    ensures i < |s| ==> Matches(s[i], id, addr)
    ensures forall j :: 0 <= j < i ==> !Matches(s[j], id, addr)
  {
    if s == [] || Matches(s[0], id, addr) then 0 else 1 + FirstMatch(s[1..], id, addr)
  }

  function FirstBad(s: seq<ClientData>, now: nat): (i: nat)
    ensures i <= |s|
    ensures i < |s| ==> Bad(s[i], now)
    ensures forall j :: 0 <= j < i ==> !Bad(s[j], now)
  {
    if s == [] || Bad(s[0], now) then 0 else 1 + FirstBad(s[1..], now)
  }

  /** t with its first entry replaced, if that entry is further away than the new client. */
  function EvictFirst(t: seq<ClientData>, id: Id, addr: IpPort, now: nat, comp: Id): seq<ClientData> {
    if |t| > 0 && Distance(comp, t[0].clientId) > Distance(comp, id) then t[0 := Replaced(t[0], id, addr, now)] else t
  }

  /** From list s to list s' when no entry matches and none is bad: only a furthest entry can go. */
  ghost predicate ReplacedFurthest(s: seq<ClientData>, s': seq<ClientData>, id: Id, addr: IpPort, now: nat, comp: Id) {
    exists t :: multiset(t) == multiset(s) && FurthestFirst(t, comp) && s' == EvictFirst(t, id, addr, now, comp)
  }

  /** What offering one client does to a list. */
  ghost predicate Added(s: seq<ClientData>, s': seq<ClientData>, id: Id, addr: IpPort, now: nat, comp: Id) {
    var match0, bad0 := FirstMatch(s, id, addr), FirstBad(s, now);
    if match0 < |s| then s' == s[match0 := Refreshed(s[match0], id, addr, now)]
    else if bad0 < |s| then s' == s[bad0 := Replaced(s[bad0], id, addr, now)]
    else ReplacedFurthest(s, s', id, addr, now, comp)
  }

  lemma FirstMatchIs(s: seq<ClientData>, id: Id, addr: IpPort, i: nat)
    requires i < |s| && Matches(s[i], id, addr) && (forall j :: 0 <= j < i ==> !Matches(s[j], id, addr))
    ensures FirstMatch(s, id, addr) == i
  {
  }

  lemma FirstBadIs(s: seq<ClientData>, now: nat, i: nat)
    requires i < |s| && Bad(s[i], now) && (forall j :: 0 <= j < i ==> !Bad(s[j], now))
    ensures FirstBad(s, now) == i
  {
  }

  method ClientInList(list: array<ClientData>, id: Id, addr: IpPort, now: nat) returns (found: bool)
    modifies list
    ensures found <==> FirstMatch(old(list[..]), id, addr) < list.Length
    ensures list[..] == var s := old(list[..]); var k := FirstMatch(s, id, addr);
      if k < |s| then s[k := Refreshed(s[k], id, addr, now)] else s
  {
    ghost var s := list[..];
    for i := 0 to list.Length
      invariant list[..] == s
      invariant forall j :: 0 <= j < i ==> !Matches(s[j], id, addr)
    {
      if list[i].ipPort == addr {
        FirstMatchIs(s, id, addr, i);
        list[i] := list[i].(clientId := id);
      }
      if list[i].clientId == id {
        FirstMatchIs(s, id, addr, i);
        list[i] := list[i].(timestamp := now, ipPort := addr);
        return true;
      }
    }
    return false;
  }

  /** `replaced` stands for the return value 0. */
  method ReplaceBad(list: array<ClientData>, id: Id, addr: IpPort, now: nat) returns (replaced: bool)
    modifies list
    ensures replaced <==> FirstBad(old(list[..]), now) < list.Length
    ensures list[..] == var s := old(list[..]); var k := FirstBad(s, now);
      if k < |s| then s[k := Replaced(s[k], id, addr, now)] else s
  {
    ghost var s := list[..];
    for i := 0 to list.Length
      invariant list[..] == s
      invariant forall j :: 0 <= j < i ==> !Bad(s[j], now)
    {
      if IsTimeout(now, list[i].timestamp, BAD_NODE_TIMEOUT) {
        FirstBadIs(s, now, i);
        list[i] := Replaced(list[i], id, addr, now);
        return true;
      }
    }
    return false;
  }

  predicate HasFurther(s: seq<ClientData>, comp: Id, d: nat) {
    exists i :: 0 <= i < |s| && Distance(comp, s[i].clientId) > d
  }

  lemma FurtherMoves(s: seq<ClientData>, t: seq<ClientData>, comp: Id, d: nat)
    requires multiset(s) == multiset(t) && HasFurther(s, comp, d)
    ensures HasFurther(t, comp, d)
  {
    var i :| 0 <= i < |s| && Distance(comp, s[i].clientId) > d;
    assert s[i] in multiset(t);
  }

  lemma PermutedHasFurther(s: seq<ClientData>, t: seq<ClientData>, comp: Id, d: nat)
    requires multiset(s) == multiset(t)
    ensures HasFurther(s, comp, d) <==> HasFurther(t, comp, d)
  {
    if HasFurther(s, comp, d) {
      FurtherMoves(s, t, comp, d);
    }
    if HasFurther(t, comp, d) {
      FurtherMoves(t, s, comp, d);
    }
  }

  /** The loop looks for any entry that is further away; after sorting that can only be the first. */
  method ReplaceGood(list: array<ClientData>, id: Id, addr: IpPort, now: nat, comp: Id) returns (replaced: bool)
    modifies list
    ensures ReplacedFurthest(old(list[..]), list[..], id, addr, now, comp)
    ensures replaced <==> HasFurther(old(list[..]), comp, Distance(comp, id))
  {
    ghost var s := list[..];
    SortList(list, comp);
    ghost var t := list[..];
    PermutedHasFurther(s, t, comp, Distance(comp, id));
    for i := 0 to list.Length
      invariant list[..] == t
      invariant forall j :: 0 <= j < i ==> Distance(comp, t[j].clientId) <= Distance(comp, id)
    {
      var closest := IdClosest(comp, list[i].clientId, id);
      if closest == 2 {
        assert Distance(comp, t[i].clientId) > Distance(comp, id);
        list[i] := Replaced(list[i], id, addr, now);
        assert list[..] == EvictFirst(t, id, addr, now, comp);
        return true;
      }
    }
    assert list[..] == EvictFirst(t, id, addr, now, comp);
    return false;
  }

  method AddToList(list: array<ClientData>, id: Id, addr: IpPort, now: nat, comp: Id)
    modifies list
    ensures Added(old(list[..]), list[..], id, addr, now, comp)
  {
    var found := ClientInList(list, id, addr, now);
    if !found {
      var replaced := ReplaceBad(list, id, addr, now);
      if !replaced {
        var _ := ReplaceGood(list, id, addr, now, comp);
      }
    }
  }

  // ---------- what an entry is worth afterwards ----------

  predicate Known(c: ClientData, id: Id, addr: IpPort) {
    c.clientId == id || c.ipPort == addr
  }

  /** The entry names this client at this address and is good for exactly the next 70 seconds. */
  ghost predicate GoodFor70(c: ClientData, id: Id, addr: IpPort, now: nat) {
    c.clientId == id && c.ipPort == addr && forall t: nat :: !Bad(c, t) <==> t < now + 70
  }

  /** Only entry k has changed. */
  ghost predicate OnlyChanged(s: seq<ClientData>, s': seq<ClientData>, k: nat) {
    |s'| == |s| && forall j :: 0 <= j < |s| && j != k ==> s'[j] == s[j]
  }

  /**
   A client that is known by its id or by its address keeps its entry, the first that matches, with
   both brought up to date; what the entry knows besides is kept.
   */
  lemma KnownIsRefreshed(s: seq<ClientData>, s': seq<ClientData>, id: Id, addr: IpPort, now: nat, comp: Id, i: nat)
    returns (k: nat)
    requires Added(s, s', id, addr, now, comp) && i < |s| && Known(s[i], id, addr)
    ensures k <= i && Known(s[k], id, addr) && (forall j :: 0 <= j < k ==> !Known(s[j], id, addr))
    ensures OnlyChanged(s, s', k) && GoodFor70(s'[k], id, addr, now)
    ensures s'[k].lastPinged == s[k].lastPinged && s'[k].retIpPort == s[k].retIpPort && s'[k].retTimestamp == s[k].retTimestamp
  {
    k := FirstMatch(s, id, addr);
  }

  /** A new client takes the first entry not heard of for 70 seconds, which forgets the address it had returned. */
  lemma NewTakesBad(s: seq<ClientData>, s': seq<ClientData>, id: Id, addr: IpPort, now: nat, comp: Id, i: nat)
    returns (k: nat)
    requires Added(s, s', id, addr, now, comp) && (forall j :: 0 <= j < |s| ==> !Known(s[j], id, addr))
    requires i < |s| && s[i].timestamp + 70 <= now
    ensures k <= i && s[k].timestamp + 70 <= now && (forall j :: 0 <= j < k ==> now < s[j].timestamp + 70)
    ensures OnlyChanged(s, s', k) && GoodFor70(s'[k], id, addr, now)
    ensures s'[k].lastPinged == s[k].lastPinged && s'[k].retIpPort == IpPort(0, 0) && s'[k].retTimestamp == 0
  {
    assert FirstMatch(s, id, addr) == |s|;
    k := FirstBad(s, now);
  }

  predicate Holds(s: seq<ClientData>, id: Id) {
    exists k :: 0 <= k < |s| && s[k].clientId == id
  }

  lemma EvictedHolds(t: seq<ClientData>, id: Id, addr: IpPort, now: nat, comp: Id)
    requires FurthestFirst(t, comp) && !Holds(t, id)
    ensures Holds(EvictFirst(t, id, addr, now, comp), id) <==> HasFurther(t, comp, Distance(comp, id))
    ensures var s' := EvictFirst(t, id, addr, now, comp);
      forall k :: 0 <= k < |s'| && s'[k].clientId == id ==> s'[k] == Replaced(t[0], id, addr, now)
  {
    var s' := EvictFirst(t, id, addr, now, comp);
    if |t| > 0 && Distance(comp, t[0].clientId) > Distance(comp, id) {
      assert s'[0].clientId == id;
    }
  }

  lemma PermutedHolds(s: seq<ClientData>, t: seq<ClientData>, id: Id)
    requires multiset(s) == multiset(t) && !Holds(s, id)
    ensures !Holds(t, id)
  {
    forall k | 0 <= k < |t|
      ensures t[k].clientId != id
    {
      assert t[k] in multiset(s);
    }
  }

  /** Otherwise the new client is in the list, good for 70 seconds, exactly if some entry is further away. */
  lemma NewTakesFurthest(s: seq<ClientData>, s': seq<ClientData>, id: Id, addr: IpPort, now: nat, comp: Id)
    requires Added(s, s', id, addr, now, comp) && (forall j :: 0 <= j < |s| ==> !Known(s[j], id, addr))
    requires forall j :: 0 <= j < |s| ==> now < s[j].timestamp + 70
    ensures Holds(s', id) <==> HasFurther(s, comp, Distance(comp, id))
    ensures forall k :: 0 <= k < |s'| && s'[k].clientId == id ==>
                        GoodFor70(s'[k], id, addr, now) && s'[k].retIpPort == IpPort(0, 0) && s'[k].retTimestamp == 0
  {
    assert FirstMatch(s, id, addr) == |s| && FirstBad(s, now) == |s|;
    var t: seq<ClientData> :| multiset(t) == multiset(s) && FurthestFirst(t, comp) && s' == EvictFirst(t, id, addr, now, comp);
    PermutedHasFurther(s, t, comp, Distance(comp, id));
    PermutedHolds(s, t, id);
    EvictedHolds(t, id, addr, now, comp);
  }

  datatype DhtFriend = DhtFriend(clientId: Id, clientList: array<ClientData>)

  class Dht {
    const selfPublicKey: Id
    const closeClientlist: array<ClientData>
    var friendsList: seq<DhtFriend>

    ghost predicate Separate()
      reads this
    {
      && (forall i :: 0 <= i < |friendsList| ==> friendsList[i].clientList != closeClientlist)
      && (forall i, j :: 0 <= i < j < |friendsList| ==> friendsList[i].clientList != friendsList[j].clientList)
    }

    constructor (id: Id, closeList: array<ClientData>, friends: seq<DhtFriend>)
      ensures selfPublicKey == id && closeClientlist == closeList && friendsList == friends
    {
      selfPublicKey, closeClientlist, friendsList := id, closeList, friends;
    }

    method AddtoLists(addr: IpPort, id: Id, now: nat)
      requires Separate()
      modifies closeClientlist, set f | f in friendsList :: f.clientList
      ensures Added(old(closeClientlist[..]), closeClientlist[..], id, addr, now, selfPublicKey)
      ensures forall i :: 0 <= i < |friendsList| ==>
                Added(old(friendsList[i].clientList[..]), friendsList[i].clientList[..], id, addr, now, friendsList[i].clientId)
    {
      AddToList(closeClientlist, id, addr, now, selfPublicKey);
      ghost var close := closeClientlist[..];
      for k := 0 to |friendsList|
        invariant closeClientlist[..] == close
        invariant forall i :: 0 <= i < k ==>
          Added(old(friendsList[i].clientList[..]), friendsList[i].clientList[..], id, addr, now, friendsList[i].clientId)
        invariant forall i :: k <= i < |friendsList| ==> friendsList[i].clientList[..] == old(friendsList[i].clientList[..])
      {
        AddToList(friendsList[k].clientList, id, addr, now, friendsList[k].clientId);
      }
    }
  }
}

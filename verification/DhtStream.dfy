/**
 Offering clients one after another to a list of k entries keeps the k closest: only a furthest
 entry is ever evicted. Stated on distances, because different ids can be equally far.
 */
module DhtStream {
  import opened Wrappers
  import opened ClientDistance
  import opened DhtLists
  import QuickSort

  datatype Offer = Offer(id: Id, addr: IpPort, now: nat)

  const EMPTY_ENTRY: ClientData := ClientData(ZERO_ID, IpPort(0, 0), 0, 0, IpPort(0, 0), 0)

  /** New clients, offered within BAD_NODE_TIMEOUT of the first. */
  ghost predicate NewClients(offers: seq<Offer>, start: nat) {
    && BAD_NODE_TIMEOUT <= start
    && (forall i :: 0 <= i < |offers| ==>
               && offers[i].id != ZERO_ID
               && offers[i].addr != IpPort(0, 0)
               && start <= offers[i].now < start + BAD_NODE_TIMEOUT)
    && (forall i, j :: 0 <= i < j < |offers| ==> offers[i].id != offers[j].id && offers[i].addr != offers[j].addr)
  }

  /** lists[i + 1] results from lists[i] by the i-th offer; lists[0] has k empty entries. */
  ghost predicate IsStream(lists: seq<seq<ClientData>>, offers: seq<Offer>, comp: Id, k: nat) {
    && |lists| == |offers| + 1
    && lists[0] == seq(k, _ => EMPTY_ENTRY)
    && (forall i :: 0 <= i < |offers| ==>
               Added(lists[i], lists[i + 1], offers[i].id, offers[i].addr, offers[i].now, comp))
  }

  /** Distances of the entries that hold a client. */
  function Kept(s: seq<ClientData>, comp: Id): multiset<nat> {
    if s == [] then multiset{}
    else (if s[0].timestamp > 0 then multiset{Distance(comp, s[0].clientId)} else multiset{}) + Kept(s[1..], comp)
  }

  function Offered(offers: seq<Offer>, comp: Id): multiset<nat> {
    if offers == [] then multiset{}
    else Offered(offers[..|offers| - 1], comp) + multiset{Distance(comp, offers[|offers| - 1].id)}
  }

  /** The k smallest of `all`, or all of them if there are fewer. */
  ghost predicate KSmallest(kept: multiset<nat>, all: multiset<nat>, k: nat) {
    && kept <= all
    && |kept| == (if |all| < k then |all| else k)
    && (forall x, y :: x in kept && y in all - kept ==> x <= y)
  }

  // ---------- bags of distances ----------

  function One(c: ClientData, comp: Id): multiset<nat> {
    if c.timestamp > 0 then multiset{Distance(comp, c.clientId)} else multiset{}
  }

  lemma {:induction false} KeptConcat(s: seq<ClientData>, t: seq<ClientData>, comp: Id)
    ensures Kept(s + t, comp) == Kept(s, comp) + Kept(t, comp)
  {
    if s == [] {
      assert s + t == t;
    } else {
      assert (s + t)[1..] == s[1..] + t;
      KeptConcat(s[1..], t, comp);
    }
  }

  lemma KeptWithout(s: seq<ClientData>, j: nat, comp: Id)
    requires j < |s|
    ensures Kept(s, comp) == Kept(Without(s, j), comp) + One(s[j], comp)
  {
    assert s == s[..j] + ([s[j]] + s[j + 1..]);
    KeptConcat(s[..j], [s[j]] + s[j + 1..], comp);
    KeptConcat([s[j]], s[j + 1..], comp);
    KeptConcat(s[..j], s[j + 1..], comp);
  }

  lemma KeptUpdate(s: seq<ClientData>, j: nat, c: ClientData, comp: Id)
    requires j < |s|
    ensures Kept(s[j := c], comp) == Kept(Without(s, j), comp) + One(c, comp)
  {
    KeptWithout(s[j := c], j, comp);
    assert Without(s[j := c], j) == Without(s, j);
  }

  lemma {:induction false} KeptPermuted(s: seq<ClientData>, t: seq<ClientData>, comp: Id)
    requires multiset(s) == multiset(t)
    ensures Kept(s, comp) == Kept(t, comp)
  {
    if s == [] {
      assert |multiset(t)| == 0;
    } else {
      assert s[0] in multiset(t);
      var j :| 0 <= j < |t| && t[j] == s[0];
      WithoutMultiset(s, 0);
      WithoutMultiset(t, j);
      QuickSort.Cancel(multiset(Without(s, 0)), multiset(Without(t, j)), multiset{s[0]});
      KeptPermuted(Without(s, 0), Without(t, j), comp);
      KeptWithout(s, 0, comp);
      KeptWithout(t, j, comp);
    }
  }

  lemma {:induction false} KeptMember(s: seq<ClientData>, comp: Id, x: nat) returns (i: nat)
    requires x in Kept(s, comp)
    ensures i < |s| && s[i].timestamp > 0 && Distance(comp, s[i].clientId) == x
  {
    if s[0].timestamp > 0 && Distance(comp, s[0].clientId) == x {
      i := 0;
    } else {
      var j := KeptMember(s[1..], comp, x);
      i := j + 1;
    }
  }

  lemma {:induction false} KeptSize(s: seq<ClientData>, comp: Id)
    ensures |Kept(s, comp)| <= |s|
    ensures |Kept(s, comp)| == |s| <==> forall i :: 0 <= i < |s| ==> s[i].timestamp > 0
  {
    if s != [] {
      KeptSize(s[1..], comp);
      assert forall i :: 0 < i < |s| ==> s[i] == s[1..][i - 1];
      if forall i :: 0 <= i < |s[1..]| ==> s[1..][i].timestamp > 0 {
        assert forall i :: 0 < i < |s| ==> s[i].timestamp > 0;
      }
    }
  }

  lemma {:induction false} OfferedSize(offers: seq<Offer>, comp: Id)
    ensures |Offered(offers, comp)| == |offers|
  {
    if offers != [] {
      OfferedSize(offers[..|offers| - 1], comp);
    }
  }

  // ---------- the k smallest ----------

  lemma SmallestAdd(kept: multiset<nat>, all: multiset<nat>, k: nat, d: nat)
    requires KSmallest(kept, all, k) && |kept| < k
    ensures KSmallest(kept + multiset{d}, all + multiset{d}, k)
  {
    FullSub(kept, all);
  }

  lemma FullSub(kept: multiset<nat>, all: multiset<nat>)
    requires kept <= all && |kept| == |all|
    ensures kept == all
  {
    assert all == kept + (all - kept);
    assert |all - kept| == 0;
  }

  lemma SmallestReject(kept: multiset<nat>, all: multiset<nat>, k: nat, d: nat)
    requires KSmallest(kept, all, k) && |kept| == k && (forall x :: x in kept ==> x <= d)
    ensures KSmallest(kept, all + multiset{d}, k)
  {
    assert all + multiset{d} - kept == (all - kept) + multiset{d};
  }

  lemma SmallestEvict(kept: multiset<nat>, all: multiset<nat>, k: nat, d: nat, m: nat)
    requires KSmallest(kept + multiset{m}, all, k) && |kept| + 1 == k
    requires d < m && (forall x :: x in kept ==> x <= m)
    ensures KSmallest(kept + multiset{d}, all + multiset{d}, k)
  {
    assert all == (kept + multiset{m}) + (all - (kept + multiset{m}));
    var rest := all - (kept + multiset{m});
    assert all + multiset{d} - (kept + multiset{d}) == rest + multiset{m};
    forall x, y | x in kept + multiset{d} && y in rest + multiset{m}
      ensures x <= y
    {
      assert m in kept + multiset{m};
      if y != m {
        assert y in rest;
      }
    }
  }

  // ---------- the stream ----------

  ghost predicate FromOffers(c: ClientData, offers: seq<Offer>, start: nat) {
    && start <= c.timestamp < start + BAD_NODE_TIMEOUT
    && exists j :: 0 <= j < |offers| && c.clientId == offers[j].id && c.ipPort == offers[j].addr
  }

  ghost predicate Unused(c: ClientData) {
    c.timestamp == 0 && c.clientId == ZERO_ID && c.ipPort == IpPort(0, 0)
  }

  /** Every entry is unused or holds one of the clients offered so far. */
  ghost predicate EntriesInv(s: seq<ClientData>, offers: seq<Offer>, start: nat) {
    forall i :: 0 <= i < |s| ==> Unused(s[i]) || FromOffers(s[i], offers, start)
  }

  lemma NotOfferedBefore(c: ClientData, offers: seq<Offer>, start: nat)
    requires offers != [] && NewClients(offers, start)
    requires Unused(c) || FromOffers(c, offers[..|offers| - 1], start)
    ensures !Matches(c, offers[|offers| - 1].id, offers[|offers| - 1].addr)
  {
    if !Unused(c) {
      var j :| 0 <= j < |offers| - 1 && c.clientId == offers[..|offers| - 1][j].id && c.ipPort == offers[..|offers| - 1][j].addr;
      assert offers[..|offers| - 1][j] == offers[j];
    }
  }

  lemma NoMatch(s: seq<ClientData>, offers: seq<Offer>, start: nat)
    requires offers != [] && NewClients(offers, start) && EntriesInv(s, offers[..|offers| - 1], start)
    ensures FirstMatch(s, offers[|offers| - 1].id, offers[|offers| - 1].addr) == |s|
  {
    forall i | 0 <= i < |s|
      ensures !Matches(s[i], offers[|offers| - 1].id, offers[|offers| - 1].addr)
    {
      NotOfferedBefore(s[i], offers, start);
    }
  }

  lemma BadIsUnused(s: seq<ClientData>, offers: seq<Offer>, start: nat, now: nat)
    requires BAD_NODE_TIMEOUT <= start <= now < start + BAD_NODE_TIMEOUT && EntriesInv(s, offers, start)
    ensures forall i :: 0 <= i < |s| ==> (Bad(s[i], now) <==> s[i].timestamp == 0)
  {
  }

  lemma EntriesGrow(s: seq<ClientData>, offers: seq<Offer>, o: Offer, start: nat)
    requires EntriesInv(s, offers, start)
    ensures EntriesInv(s, offers + [o], start)
  {
    forall i | 0 <= i < |s|
      ensures Unused(s[i]) || FromOffers(s[i], offers + [o], start)
    {
      if !Unused(s[i]) {
        var j :| 0 <= j < |offers| && s[i].clientId == offers[j].id && s[i].ipPort == offers[j].addr;
        assert (offers + [o])[j] == offers[j];
      }
    }
  }

  lemma EntriesReplace(s: seq<ClientData>, i: nat, offers: seq<Offer>, o: Offer, start: nat)
    requires i < |s| && EntriesInv(s, offers, start) && start <= o.now < start + BAD_NODE_TIMEOUT
    ensures EntriesInv(s[i := Replaced(s[i], o.id, o.addr, o.now)], offers + [o], start)
  {
    EntriesGrow(s, offers, o, start);
    var c := Replaced(s[i], o.id, o.addr, o.now);
    assert FromOffers(c, offers + [o], start) by {
      assert (offers + [o])[|offers|] == o;
    }
  }

  lemma EntriesPermuted(s: seq<ClientData>, t: seq<ClientData>, offers: seq<Offer>, start: nat)
    requires EntriesInv(s, offers, start) && multiset(s) == multiset(t)
    ensures EntriesInv(t, offers, start)
  {
    forall i | 0 <= i < |t|
      ensures Unused(t[i]) || FromOffers(t[i], offers, start)
    {
      assert t[i] in multiset(s);
    }
  }

  ghost predicate StreamInv(s: seq<ClientData>, offers: seq<Offer>, comp: Id, k: nat, start: nat) {
    |s| == k && EntriesInv(s, offers, start) && KSmallest(Kept(s, comp), Offered(offers, comp), k)
  }

  lemma OfferedAppend(offers: seq<Offer>, o: Offer, comp: Id)
    ensures Offered(offers + [o], comp) == Offered(offers, comp) + multiset{Distance(comp, o.id)}
  {
    assert (offers + [o])[..|offers|] == offers;
  }

  lemma KeptFill(s: seq<ClientData>, i: nat, c: ClientData, comp: Id)
    requires i < |s| && s[i].timestamp == 0 && c.timestamp > 0
    ensures Kept(s[i := c], comp) == Kept(s, comp) + multiset{Distance(comp, c.clientId)}
    ensures |Kept(s, comp)| < |s|
  {
    KeptSize(s, comp);
    KeptWithout(s, i, comp);
    KeptUpdate(s, i, c, comp);
  }

  lemma OfferFills(s: seq<ClientData>, offers: seq<Offer>, o: Offer, comp: Id, k: nat, start: nat, i: nat)
    requires StreamInv(s, offers, comp, k, start) && BAD_NODE_TIMEOUT <= start <= o.now < start + BAD_NODE_TIMEOUT
    requires i < |s| && s[i].timestamp == 0
    ensures StreamInv(s[i := Replaced(s[i], o.id, o.addr, o.now)], offers + [o], comp, k, start)
  {
    EntriesReplace(s, i, offers, o, start);
    KeptFill(s, i, Replaced(s[i], o.id, o.addr, o.now), comp);
    SmallestAdd(Kept(s, comp), Offered(offers, comp), k, Distance(comp, o.id));
    OfferedAppend(offers, o, comp);
  }

  lemma FirstIsFurthest(t: seq<ClientData>, comp: Id)
    requires FurthestFirst(t, comp) && |t| > 0
    ensures forall x :: x in Kept(t, comp) ==> x <= Distance(comp, t[0].clientId)
  {
    forall x | x in Kept(t, comp)
      ensures x <= Distance(comp, t[0].clientId)
    {
      var i := KeptMember(t, comp, x);
    }
  }

  lemma EvictSmallest(t: seq<ClientData>, all: multiset<nat>, comp: Id, k: nat, c: ClientData)
    requires |t| == k > 0 && FurthestFirst(t, comp) && (forall i :: 0 <= i < |t| ==> t[i].timestamp > 0)
    requires KSmallest(Kept(t, comp), all, k)
    requires c.timestamp > 0 && Distance(comp, t[0].clientId) > Distance(comp, c.clientId)
    ensures KSmallest(Kept(t[0 := c], comp), all + multiset{Distance(comp, c.clientId)}, k)
  {
    var rest := Kept(Without(t, 0), comp);
    KeptSize(t, comp);
    KeptWithout(t, 0, comp);
    KeptUpdate(t, 0, c, comp);
    FirstIsFurthest(t, comp);
    assert forall x :: x in rest ==> x in Kept(t, comp);
    SmallestEvict(rest, all, k, Distance(comp, c.clientId), Distance(comp, t[0].clientId));
  }

  lemma RejectSmallest(t: seq<ClientData>, all: multiset<nat>, comp: Id, k: nat, d: nat)
    requires |t| == k && FurthestFirst(t, comp) && (forall i :: 0 <= i < |t| ==> t[i].timestamp > 0)
    requires KSmallest(Kept(t, comp), all, k)
    requires |t| > 0 ==> Distance(comp, t[0].clientId) <= d
    ensures KSmallest(Kept(t, comp), all + multiset{d}, k)
  {
    KeptSize(t, comp);
    if |t| > 0 {
      FirstIsFurthest(t, comp);
    }
    SmallestReject(Kept(t, comp), all, k, d);
  }

  lemma OfferEvicts(t: seq<ClientData>, offers: seq<Offer>, o: Offer, comp: Id, k: nat, start: nat)
    requires StreamInv(t, offers, comp, k, start) && BAD_NODE_TIMEOUT <= start <= o.now < start + BAD_NODE_TIMEOUT
    requires FurthestFirst(t, comp) && (forall i :: 0 <= i < |t| ==> t[i].timestamp > 0)
    ensures StreamInv(EvictFirst(t, o.id, o.addr, o.now, comp), offers + [o], comp, k, start)
  {
    OfferedAppend(offers, o, comp);
    if |t| > 0 && Distance(comp, t[0].clientId) > Distance(comp, o.id) {
      EntriesReplace(t, 0, offers, o, start);
      EvictSmallest(t, Offered(offers, comp), comp, k, Replaced(t[0], o.id, o.addr, o.now));
    } else {
      EntriesGrow(t, offers, o, start);
      RejectSmallest(t, Offered(offers, comp), comp, k, Distance(comp, o.id));
    }
  }

  lemma OfferKeeps(s: seq<ClientData>, s': seq<ClientData>, offers: seq<Offer>, comp: Id, k: nat, start: nat)
    requires offers != [] && NewClients(offers, start)
    requires StreamInv(s, offers[..|offers| - 1], comp, k, start)
    requires var o := offers[|offers| - 1]; Added(s, s', o.id, o.addr, o.now, comp)
    ensures StreamInv(s', offers, comp, k, start)
  {
    var before, o := offers[..|offers| - 1], offers[|offers| - 1];
    assert before + [o] == offers;
    NoMatch(s, offers, start);
    BadIsUnused(s, before, start, o.now);
    if FirstBad(s, o.now) < |s| {
      OfferFills(s, before, o, comp, k, start, FirstBad(s, o.now));
    } else {
      var t :| multiset(t) == multiset(s) && FurthestFirst(t, comp) && s' == EvictFirst(t, o.id, o.addr, o.now, comp);
      SortedSame(s, t, before, comp, k, start);
      OfferEvicts(t, before, o, comp, k, start);
    }
  }

  lemma SortedSame(s: seq<ClientData>, t: seq<ClientData>, offers: seq<Offer>, comp: Id, k: nat, start: nat)
    requires StreamInv(s, offers, comp, k, start) && multiset(s) == multiset(t)
    requires forall i :: 0 <= i < |s| ==> s[i].timestamp > 0
    ensures StreamInv(t, offers, comp, k, start)
    ensures forall i :: 0 <= i < |t| ==> t[i].timestamp > 0
  {
    KeptPermuted(s, t, comp);
    EntriesPermuted(s, t, offers, start);
    assert |multiset(s)| == |s| && |multiset(t)| == |t|;
    forall i | 0 <= i < |t|
      ensures t[i].timestamp > 0
    {
      assert t[i] in multiset(s);
    }
  }

  lemma {:induction false} StreamStart(k: nat, comp: Id, start: nat)
    ensures StreamInv(seq(k, _ => EMPTY_ENTRY), [], comp, k, start)
  {
    var s := seq(k, _ => EMPTY_ENTRY);
    if k > 0 {
      StreamStart(k - 1, comp, start);
      assert s[1..] == seq(k - 1, _ => EMPTY_ENTRY);
    }
  }

  lemma {:induction false} StreamKeeps(lists: seq<seq<ClientData>>, offers: seq<Offer>, comp: Id, k: nat, start: nat, i: nat)
    requires IsStream(lists, offers, comp, k) && NewClients(offers, start) && i <= |offers|
    ensures StreamInv(lists[i], offers[..i], comp, k, start)
  {
    if i == 0 {
      StreamStart(k, comp, start);
    } else {
      StreamKeeps(lists, offers, comp, k, start, i - 1);
      assert offers[..i][..i - 1] == offers[..i - 1];
      OfferKeeps(lists[i - 1], lists[i], offers[..i], comp, k, start);
    }
  }

  /** After any number of new clients the list holds exactly the k smallest distances ever offered. */
  lemma KeepsTheClosest(lists: seq<seq<ClientData>>, offers: seq<Offer>, comp: Id, k: nat, start: nat)
    requires IsStream(lists, offers, comp, k) && NewClients(offers, start)
    ensures |lists[|offers|]| == k
    ensures KSmallest(Kept(lists[|offers|], comp), Offered(offers, comp), k)
  {
    StreamKeeps(lists, offers, comp, k, start, |offers|);
    assert offers[..|offers|] == offers;
  }
}

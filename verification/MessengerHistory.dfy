/**
 A messenger over its whole life: friends are added and deleted, come and go, and files are loaded,
 into a messenger that is unused or already in use.
 */
module MessengerHistory {
  import opened Bytes
  import opened MessengerFriends
  import opened MessengerStore
  import opened Remainders

  // ---------- what Messenger_load keeps ----------

  predicate LoadsKeys(data: Text) {
    |data| != 0xFFFF_FFFF && |data| >= FIXED
  }

  /**
   Messenger_load takes over the keys of the file even if it fails later on. They must not belong
   to someone to whom a friend request is open.
   */
  ghost predicate KeyAllowed(s: State, data: Text) {
    LoadsKeys(data) ==> forall i :: 0 <= i < |s.friends| && s.friends[i].status in {1, 2} ==> s.friends[i].clientId != data[..32]
  }

  /** Whoever is in the list stays in its slot, with the same status. */
  ghost predicate FriendsStay(s: State, s': State) {
    && s'.publicKey == s.publicKey
    && |s.friends| <= |s'.friends|
    && forall i :: 0 <= i < |s.friends| && s.friends[i].status > 0 ==>
      s'.friends[i].status == s.friends[i].status && s'.friends[i].clientId == s.friends[i].clientId
  }

  lemma PlaceStays(s: State, f: Friend)
    ensures FriendsStay(s, s.(friends := Place(s.friends, f)))
    ensures f.status > 0 && LastLive(s.friends) ==> LastLive(Place(s.friends, f))
  {
  }

  lemma ConfirmedStays(s: State, id: Text, name: Text)
    requires |name| == 128
    ensures var (s', n) := AddFriendNorequest(s, id);
      && FriendsStay(s, SetFriendName(s', n, name))
      && (LastLive(s.friends) ==> LastLive(SetFriendName(s', n, name).friends))
  {
    PlaceStays(s, EMPTY_FRIEND.(clientId := id, status := FRIEND_CONFIRMED));
  }

  lemma RequestStays(s: State, address: Text, info: Text)
    requires |address| == 38
    ensures FriendsStay(s, AddFriend(s, address, info).0)
    ensures LastLive(s.friends) ==> LastLive(AddFriend(s, address, info).0.friends)
  {
    PlaceStays(s, Friend(address[..32], FRIEND_ADDED, info, Zeros(128), address[32..36]));
  }

  lemma LoadFriendStays(s: State, f: Friend)
    requires Sized(f)
    ensures FriendsStay(s, LoadFriend(s, f))
    ensures LastLive(s.friends) ==> LastLive(LoadFriend(s, f).friends)
  {
    if f.status >= 3 {
      ConfirmedStays(s, f.clientId, f.name);
    } else if f.status != 0 {
      AddressParts(f.clientId, f.nospam);
      RequestStays(s, AddressOf(f.clientId, f.nospam), f.info);
    }
  }

  lemma LoadFriendKeeps(s: State, f: Friend)
    requires StateInv(s) && Sized(f)
    ensures StateInv(LoadFriend(s, f))
  {
    if f.status >= 3 {
      AddFriendNorequestKeeps(s, f.clientId);
      var (s', n) := AddFriendNorequest(s, f.clientId);
      if 0 <= n < |s'.friends| {
        UpdateKeeps(s', n, s'.friends[n].(name := f.name));
      }
    } else if f.status != 0 {
      AddressParts(f.clientId, f.nospam);
      AddFriendKeeps(s, AddressOf(f.clientId, f.nospam), f.info);
    }
  }

  lemma {:induction false} LoadFriendsKeeps(l: Layout, s: State, raw: Text, n: nat)
    requires LayoutLaws(l) && l.friendSize * n <= |raw|
    ensures StateInv(s) ==> StateInv(LoadFriends(l, s, raw, n))
    ensures FriendsStay(s, LoadFriends(l, s, raw, n))
    ensures LastLive(s.friends) ==> LastLive(LoadFriends(l, s, raw, n).friends)
    decreases n
  {
    if n > 0 {
      var f := l.get(raw[..l.friendSize]);
      OneRecord(l, n);
      LoadFriendStays(s, f);
      if StateInv(s) {
        LoadFriendKeeps(s, f);
      }
      LoadFriendsKeeps(l, LoadFriend(s, f), raw[l.friendSize..], n - 1);
    }
  }

  lemma LoadListKeeps(l: Layout, s: State, data: Text)
    requires LayoutLaws(l) && |data| >= 4
    ensures StateInv(s) ==> StateInv(LoadFriendList(l, s, data).state)
    ensures FriendsStay(s, LoadFriendList(l, s, data).state)
    ensures LastLive(s.friends) ==> LastLive(LoadFriendList(l, s, data).state.friends)
  {
    var size := Value(data[..4]);
    var rest := data[4..];
    if |rest| >= size && size % l.friendSize == 0 {
      CountFits(size, l.friendSize);
      LoadFriendsKeeps(l, s, rest[..size], (size / l.friendSize) % 65536);
    }
  }

  /** The messenger with the keys of the file. */
  function Keyed(s: State, data: Text): State
    requires |data| >= FIXED
  {
    s.(publicKey := data[..32], secretKey := data[32..64], nospam := data[64..68])
  }

  lemma LoadStays(l: Layout, s: State, data: Text)
    requires LayoutLaws(l)
    ensures LastLive(s.friends) ==> LastLive(Load(l, s, data).state.friends)
    ensures LoadsKeys(data) ==> FriendsStay(Keyed(s, data), Load(l, s, data).state)
    ensures LoadsKeys(data) && StateInv(Keyed(s, data)) ==> StateInv(Load(l, s, data).state)
  {
    if LoadsKeys(data) {
      var size := Value(data[68..72]);
      if |data| - FIXED >= size && DhtLoads(l, size) {
        LoadListKeeps(l, Keyed(s, data), data[72..][size..]);
      }
    }
  }

  /**
   Loading any data, into any messenger, keeps the invariant of the friend list if and only if the
   key of the file is nobody's to whom a request is open. For an unused messenger it always does.
   */
  lemma LoadKeeps(l: Layout, s: State, data: Text)
    requires LayoutLaws(l) && StateInv(s)
    ensures StateInv(Load(l, s, data).state) <==> KeyAllowed(s, data)
    ensures Unused(s) ==> KeyAllowed(s, data)
  {
    if LoadsKeys(data) {
      LoadStays(l, s, data);
      if !KeyAllowed(s, data) {
        var i :| 0 <= i < |s.friends| && s.friends[i].status in {1, 2} && s.friends[i].clientId == data[..32];
        assert !FriendInv(Load(l, s, data).state.friends[i], Load(l, s, data).state.publicKey);
      }
    }
  }

  // ---------- histories ----------

  ghost predicate NextOp(s: State, s': State) {
    exists op :: WellFormed(op) && s' == ApplyOp(s, op)
  }

  ghost predicate NextLoad(l: Layout, s: State, s': State)
    requires LayoutLaws(l)
  {
    exists data :: KeyAllowed(s, data) && s' == Load(l, s, data).state
  }

  /** The states an initially unused messenger goes through, loading files included. */
  ghost predicate IsHistory(l: Layout, history: seq<State>)
    requires LayoutLaws(l)
  {
    && |history| > 0
    && Unused(history[0])
    && |history[0].publicKey| == 32 && |history[0].secretKey| == 32 && |history[0].nospam| == 4
    && (forall i :: 0 <= i < |history| - 1 ==> NextOp(history[i], history[i + 1]) || NextLoad(l, history[i], history[i + 1]))
  }

  lemma NextKeeps(l: Layout, s: State, s': State)
    requires LayoutLaws(l) && StateInv(s) && LastLive(s.friends) && (NextOp(s, s') || NextLoad(l, s, s'))
    ensures StateInv(s') && LastLive(s'.friends)
  {
    if NextOp(s, s') {
      var op :| WellFormed(op) && s' == ApplyOp(s, op);
      OpKeeps(s, op);
      OpKeepsLast(s, op);
    } else {
      var data :| KeyAllowed(s, data) && s' == Load(l, s, data).state;
      LoadKeeps(l, s, data);
      LoadStays(l, s, data);
    }
  }

  /**
   In every history of a messenger: no two friends have the same id, a friend whose request is still
   open has a request text of 1 to 983 bytes and is not ourselves, and the list does not end in a hole.
   */
  lemma {:induction false} HistoryKeeps(l: Layout, history: seq<State>, i: nat)
    requires LayoutLaws(l) && IsHistory(l, history) && i < |history|
    ensures StateInv(history[i]) && LastLive(history[i].friends)
  {
    if i > 0 {
      HistoryKeeps(l, history, i - 1);
      NextKeeps(l, history[i - 1], history[i]);
    }
  }

  /** The round trip in every state of every history. */
  lemma SaveLoadAnyHistory(l: Layout, history: seq<State>, i: nat, dht: Text, blank: State)
    requires LayoutLaws(l) && IsHistory(l, history) && i < |history| && Unused(blank) && DhtLoads(l, |dht|)
    requires Size(l, history[i], dht) < 0xFFFF_FFFF
    ensures var s := history[i];
      Load(l, blank, Save(l, s, dht)) == Loaded(0, s.(friends := RestoredAll(s.friends[..|s.friends| % 65536])))
  {
    HistoryKeeps(l, history, i);
    SaveLoad(l, history[i], dht, blank);
  }

  lemma AllReached(friends: seq<Friend>, n: nat)
    requires LastLive(friends) && n <= |friends|
    ensures RestoredAll(friends[..n]) == RestoredAll(friends) <==> n == |friends|
  {
    RestoredPart(friends, n);
    if n < |friends| {
      assert friends[|friends| - 1].status != 0;
    }
  }

  lemma CountExact(n: nat)
    ensures n % 65536 <= n
    ensures n % 65536 == n <==> n < 65536
  {
  }

  /** In every history, saving and loading restores every friend if and only if there are fewer than 65536 slots. */
  lemma RestoredIff(l: Layout, history: seq<State>, i: nat, dht: Text, blank: State)
    requires LayoutLaws(l) && IsHistory(l, history) && i < |history| && Unused(blank) && DhtLoads(l, |dht|)
    requires Size(l, history[i], dht) < 0xFFFF_FFFF
    ensures var s := history[i];
      Load(l, blank, Save(l, s, dht)) == Loaded(0, s.(friends := RestoredAll(s.friends))) <==> |s.friends| < 65536
  {
    HistoryKeeps(l, history, i);
    SaveLoadAnyHistory(l, history, i, dht, blank);
    CountExact(|history[i].friends|);
    AllReached(history[i].friends, |history[i].friends| % 65536);
  }

  /** The key of anybody to whom a request is open breaks the invariant, in a file too short to load. */
  lemma ForeignKeyExample(l: Layout, s: State, i: nat)
    requires LayoutLaws(l) && StateInv(s) && i < |s.friends| && s.friends[i].status in {1, 2}
    ensures !StateInv(Load(l, s, s.friends[i].clientId + Zeros(44)).state)
  {
    var data := s.friends[i].clientId + Zeros(44);
    assert data[..32] == s.friends[i].clientId;
    LoadKeeps(l, s, data);
  }

  lemma {:induction false} RestoredTwice(friends: seq<Friend>)
    ensures RestoredAll(RestoredAll(friends)) == RestoredAll(friends)
    ensures |RestoredAll(friends)| <= |friends|
  {
    if friends != [] {
      RestoredTwice(friends[1..]);
      if friends[0].status > 0 {
        assert RestoredAll(friends)[1..] == RestoredAll(friends[1..]);
        assert Restored(Restored(friends[0])) == Restored(friends[0]);
      } else {
        assert RestoredAll(friends) == RestoredAll(friends[1..]);
      }
    }
  }

  lemma SavedAsIs(l: Layout, s: State, dht: Text, blank: State)
    requires LayoutLaws(l) && StateInv(s) && DhtLoads(l, |dht|) && Unused(blank) && Size(l, s, dht) < 0xFFFF_FFFF
    requires RestoredAll(s.friends) == s.friends && |s.friends| < 65536
    ensures Load(l, blank, Save(l, s, dht)) == Loaded(0, s)
  {
    SaveLoad(l, s, dht, blank);
    CountExact(|s.friends|);
    assert s.friends[..|s.friends|] == s.friends;
  }

  lemma SizeShrinks(l: Layout, s: State, s': State, dht: Text)
    requires |s'.friends| <= |s.friends| && s'.name == s.name
    ensures Size(l, s', dht) <= Size(l, s, dht)
  {
    MulMonotone(l.friendSize, |s'.friends|, |s.friends|);
  }

  lemma RestoredKeeps(l: Layout, s: State, dht: Text, blank: State) returns (s': State)
    requires LayoutLaws(l) && StateInv(s) && DhtLoads(l, |dht|) && Unused(blank) && Size(l, s, dht) < 0xFFFF_FFFF
    requires |blank.publicKey| == 32 && |blank.secretKey| == 32 && |blank.nospam| == 4
    ensures Load(l, blank, Save(l, s, dht)) == Loaded(0, s')
    ensures StateInv(s') && s'.name == s.name
    ensures RestoredAll(s'.friends) == s'.friends && |s'.friends| < 65536 && |s'.friends| <= |s.friends|
  {
    SaveLoad(l, s, dht, blank);
    s' := Load(l, blank, Save(l, s, dht)).state;
    LoadKeeps(l, blank, Save(l, s, dht));
    CountExact(|s.friends|);
    RestoredTwice(s.friends[..|s.friends| % 65536]);
  }

  /** What was once saved and loaded is saved and loaded again without any change. */
  lemma SecondCycle(l: Layout, history: seq<State>, i: nat, dht: Text, blank: State, blank': State)
    requires LayoutLaws(l) && IsHistory(l, history) && i < |history| && Unused(blank) && Unused(blank') && DhtLoads(l, |dht|)
    requires |blank.publicKey| == 32 && |blank.secretKey| == 32 && |blank.nospam| == 4
    requires Size(l, history[i], dht) < 0xFFFF_FFFF
    ensures var s := Load(l, blank, Save(l, history[i], dht)).state;
      Load(l, blank', Save(l, s, dht)) == Loaded(0, s)
  {
    HistoryKeeps(l, history, i);
    var s := RestoredKeeps(l, history[i], dht, blank);
    SizeShrinks(l, history[i], s, dht);
    SavedAsIs(l, s, dht, blank');
  }

  // ---------- 65536 friends ----------

  function NumberedId(k: nat): (id: Text)
    ensures |id| == 32
  {
    Little(k, 4) + Zeros(28)
  }

  lemma NumberedIdsDiffer(j: nat, k: nat)
    requires j < k < 0x1_0000_0000
    ensures NumberedId(j) != NumberedId(k)
  {
    LittleValue(j, 4);
    LittleValue(k, 4);
    assert NumberedId(j)[..4] == Little(j, 4) && NumberedId(k)[..4] == Little(k, 4);
  }

  ghost predicate Numbered(friends: seq<Friend>) {
    forall i :: 0 <= i < |friends| ==> friends[i].status == FRIEND_CONFIRMED && friends[i].clientId == NumberedId(i)
  }

  lemma AddNumbered(s: State)
    requires Numbered(s.friends) && |s.friends| < 65536
    ensures var s' := ApplyOp(s, OpAddFriendNorequest(NumberedId(|s.friends|)));
      s'.name == s.name && Numbered(s'.friends) && |s'.friends| == |s.friends| + 1
  {
    forall i | 0 <= i < |s.friends|
      ensures s.friends[i].clientId != NumberedId(|s.friends|)
    {
      NumberedIdsDiffer(i, |s.friends|);
    }
    NoHoles(s.friends);
  }

  lemma {:induction false} NumberedHistory(l: Layout, blank: State, n: nat) returns (history: seq<State>)
    requires LayoutLaws(l) && n <= 65536 && Unused(blank)
    requires |blank.publicKey| == 32 && |blank.secretKey| == 32 && |blank.nospam| == 4
    ensures IsHistory(l, history)
    ensures var s := history[|history| - 1]; s.name == [] && Numbered(s.friends) && |s.friends| == n
  {
    if n == 0 {
      history := [blank];
    } else {
      var before := NumberedHistory(l, blank, n - 1);
      var s := before[|before| - 1];
      AddNumbered(s);
      history := before + [ApplyOp(s, OpAddFriendNorequest(NumberedId(n - 1)))];
      assert NextOp(history[|before| - 1], history[|before|]);
    }
  }

  /** A messenger with exactly 65536 friends can be reached, and saving and loading it loses all of them. */
  lemma AllFriendsLost(l: Layout, dht: Text, blank: State) returns (history: seq<State>)
    requires LayoutLaws(l) && Unused(blank) && DhtLoads(l, |dht|)
    requires |blank.publicKey| == 32 && |blank.secretKey| == 32 && |blank.nospam| == 4
    requires FIXED + |dht| + l.friendSize * 65536 + 2 < 0xFFFF_FFFF
    ensures IsHistory(l, history)
    ensures var s := history[|history| - 1];
      && |s.friends| == 65536 && (forall i :: 0 <= i < 65536 ==> s.friends[i].status == FRIEND_CONFIRMED)
      && Load(l, blank, Save(l, s, dht)) == Loaded(0, s.(friends := []))
  {
    history := NumberedHistory(l, blank, 65536);
    SaveLoadAnyHistory(l, history, |history| - 1, dht, blank);
    assert history[|history| - 1].friends[..0] == [];
  }
}

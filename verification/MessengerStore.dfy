/**
 Messenger_save and Messenger_load of toxcore/Messenger.c: a printer and a parser for one byte
 string, and the round trip between them.

 Integers are stored in the byte order of a little-endian host. The friend list is stored as the
 raw memory of its records; how a record is laid out is a parameter. The part written by DHT_save
 is an opaque string; DHT_load is represented by the two tests that can make it fail.
 */
module MessengerStore {
  import opened Bytes
  import opened MessengerFriends
  import opened Remainders

  /** sizeof(Friend), sizeof(close_clientlist), sizeof(DHT_Friend), and copying a record out and in. */
  datatype Layout = Layout(
    friendSize: nat,
    closeListSize: nat,
    dhtFriendSize: nat,
    put: Friend -> Text,
    get: Text -> Friend)

  /** The record has room for these values. */
  predicate Fits(f: Friend) {
    Sized(f) && f.status < 256 && |f.info| <= 1024
  }

  ghost predicate LayoutLaws(l: Layout) {
    && l.friendSize > 0 && l.dhtFriendSize > 0
    && (forall f :: Fits(f) ==> |l.put(f)| == l.friendSize && l.get(l.put(f)) == f)
    && (forall b :: Fits(l.get(b)))
  }

  // A record laid out without padding, to show that the laws can be met.

  function PackedPut(f: Friend): Text
    requires Fits(f)
  {
    f.clientId + f.name + f.nospam + [f.status] + Little(|f.info|, 2) + f.info + Zeros(1024 - |f.info|)
  }

  function PackedGet(b: Text): (f: Friend)
    ensures Fits(f)
  {
    if |b| == 1191 && Value(b[165..167]) <= 1024 then
      Friend(b[..32], b[164], b[167..167 + Value(b[165..167])], b[32..160], b[160..164])
    else EMPTY_FRIEND
  }

  /** A field between what lies before and behind it. */
  lemma Field(b: Text, before: Text, part: Text, behind: Text)
    requires b == before + part + behind
    ensures b[|before|..|before| + |part|] == part
  {
  }

  lemma PackedFields(f: Friend, b: Text)
    requires Fits(f) && b == PackedPut(f)
    ensures |b| == 1191
    ensures b[..32] == f.clientId && b[32..160] == f.name && b[160..164] == f.nospam && b[164] == f.status
    ensures b[165..167] == Little(|f.info|, 2) && b[167..167 + |f.info|] == f.info
  {
    var zeros := Zeros(1024 - |f.info|);
    var size := Little(|f.info|, 2);
    var fixed := f.clientId + f.name + f.nospam + [f.status];
    assert b == fixed + size + (f.info + zeros);
    Field(b, fixed, size, f.info + zeros);
    assert b == (fixed + size) + f.info + zeros;
    Field(b, fixed + size, f.info, zeros);
    assert b[..165] == fixed;
    assert fixed[..32] == f.clientId && fixed[32..160] == f.name && fixed[160..164] == f.nospam;
    assert b[..32] == fixed[..32] && b[32..160] == fixed[32..160] && b[160..164] == fixed[160..164] && b[164] == fixed[164];
  }

  lemma PackedRoundTrip(f: Friend)
    requires Fits(f)
    ensures |PackedPut(f)| == 1191 && PackedGet(PackedPut(f)) == f
  {
    LittleValue(|f.info|, 2);
    PackedFields(f, PackedPut(f));
  }

  lemma LawsCanBeMet(closeListSize: nat, dhtFriendSize: nat)
    requires dhtFriendSize > 0
    ensures LayoutLaws(Layout(1191, closeListSize, dhtFriendSize, f => if Fits(f) then PackedPut(f) else [], PackedGet))
  {
    forall f | Fits(f)
      ensures |PackedPut(f)| == 1191 && PackedGet(PackedPut(f)) == f
    {
      PackedRoundTrip(f);
    }
  }

  predicate DhtLoads(l: Layout, size: nat)
    requires l.dhtFriendSize > 0
  {
    size >= l.closeListSize && (size - l.closeListSize) % l.dhtFriendSize == 0
  }

  /** The list of close clients and a whole number of friends. */
  lemma DhtLoadsIff(l: Layout, size: nat)
    requires l.dhtFriendSize > 0
    ensures DhtLoads(l, size) <==> exists k: nat :: size == l.closeListSize + l.dhtFriendSize * k
  {
    if DhtLoads(l, size) {
      var rest := size - l.closeListSize;
      assert rest == l.dhtFriendSize * (rest / l.dhtFriendSize) + rest % l.dhtFriendSize;
      assert size == l.closeListSize + l.dhtFriendSize * (rest / l.dhtFriendSize);
    }
    forall k: nat | size == l.closeListSize + l.dhtFriendSize * k
      ensures DhtLoads(l, size)
    {
      Remainder(size - l.closeListSize, k, 0, l.dhtFriendSize);
    }
  }

  const KEYS: nat := 64
  const FIXED: nat := 64 + 3 * 4

  // ---------- saving ----------

  function FriendRecords(l: Layout, friends: seq<Friend>): Text {
    if friends == [] then [] else l.put(friends[0]) + FriendRecords(l, friends[1..])
  }

  function Size(l: Layout, s: State, dht: Text): nat {
    FIXED + |dht| + l.friendSize * |s.friends| + 2 + |s.name|
  }

  /** Keys, nospam and the DHT. */
  function Head(s: State, dht: Text): Text {
    s.publicKey + s.secretKey + s.nospam + Little(|dht|, 4) + dht
  }

  function NamePart(name: Text): Text {
    Little(|name|, 2) + name
  }

  function FriendPart(l: Layout, friends: seq<Friend>): Text {
    Little(l.friendSize * |friends|, 4) + FriendRecords(l, friends)
  }

  function Save(l: Layout, s: State, dht: Text): Text {
    Head(s, dht) + (FriendPart(l, s.friends) + NamePart(s.name))
  }

  // ---------- loading ----------

  /** What one stored record adds to the friend list. */
  function LoadFriend(s: State, f: Friend): State
    requires Sized(f)
  {
    if f.status >= 3 then
      var (s', n) := AddFriendNorequest(s, f.clientId);
      SetFriendName(s', n, f.name)
    else if f.status != 0 then
      AddFriend(s, AddressOf(f.clientId, f.nospam), f.info).0
    else s
  }

  lemma OneRecord(l: Layout, n: nat)
    requires n > 0
    ensures l.friendSize * n == l.friendSize * (n - 1) + l.friendSize && l.friendSize <= l.friendSize * n
  {
    MulMonotone(l.friendSize, 1, n);
  }

  /** The first n records of `raw`. */
  function LoadFriends(l: Layout, s: State, raw: Text, n: nat): State
    requires LayoutLaws(l) && l.friendSize * n <= |raw|
    decreases n
  {
    if n == 0 then s
    else
      OneRecord(l, n);
      LoadFriends(l, LoadFriend(s, l.get(raw[..l.friendSize])), raw[l.friendSize..], n - 1)
  }

  datatype Loaded = Loaded(code: int, state: State)

  /** The tail of the file: a 16-bit length and our own name, to the last byte. */
  function LoadName(s: State, data: Text): Loaded {
    if |data| < 2 then Loaded(-1, s)
    else if |data| - 2 != Value(data[..2]) then Loaded(-1, s)
    else Loaded(0, SetName(s, data[2..]))
  }

  function LoadFriendList(l: Layout, s: State, data: Text): Loaded
    requires LayoutLaws(l) && |data| >= 4
  {
    var size := Value(data[..4]);
    var rest := data[4..];
    if |rest| < size || size % l.friendSize != 0 then Loaded(-1, s)
    else
      CountFits(size, l.friendSize);
      var n := (size / l.friendSize) % 65536;
      LoadName(LoadFriends(l, s, rest[..size], n), rest[size..])
  }

  /** The count is stored in a 16-bit variable, so it never exceeds the number of records. */
  lemma CountFits(size: nat, friendSize: nat)
    requires friendSize > 0
    ensures friendSize * ((size / friendSize) % 65536) <= size
  {
    var q := size / friendSize;
    assert q % 65536 <= q;
    assert size == friendSize * q + size % friendSize;
    MulMonotone(friendSize, q % 65536, q);
  }

  function Load(l: Layout, s: State, data: Text): Loaded
    requires LayoutLaws(l)
  {
    if |data| == 0xFFFF_FFFF || |data| < FIXED then Loaded(-1, s)
    else
      var s' := s.(publicKey := data[..32], secretKey := data[32..64], nospam := data[64..68]);
      var size := Value(data[68..72]);
      var rest := data[72..];
      if |data| - FIXED < size || !DhtLoads(l, size) then Loaded(-1, s')
      else LoadFriendList(l, s', rest[size..])
  }

  // ---------- the round trip ----------

  /** What becomes of a friend: a confirmed friend keeps its name, an open request starts again. */
  function Restored(f: Friend): Friend {
    if f.status >= 3 then EMPTY_FRIEND.(clientId := f.clientId, status := FRIEND_CONFIRMED, name := f.name)
    else Friend(f.clientId, FRIEND_ADDED, f.info, Zeros(128), f.nospam)
  }

  function RestoredOne(f: Friend): seq<Friend> {
    if f.status > 0 then [Restored(f)] else []
  }

  /** The friends in order, holes closed. */
  function RestoredAll(friends: seq<Friend>): seq<Friend> {
    if friends == [] then [] else RestoredOne(friends[0]) + RestoredAll(friends[1..])
  }

  function Reload(s: State, friends: seq<Friend>): State
    requires forall i :: 0 <= i < |friends| ==> Sized(friends[i])
    decreases |friends|
  {
    if friends == [] then s else Reload(LoadFriend(s, friends[0]), friends[1..])
  }

  lemma {:induction false} RecordsSize(l: Layout, friends: seq<Friend>)
    requires LayoutLaws(l) && (forall i :: 0 <= i < |friends| ==> Fits(friends[i]))
    ensures |FriendRecords(l, friends)| == l.friendSize * |friends|
  {
    if friends != [] {
      RecordsSize(l, friends[1..]);
      assert l.friendSize * |friends| == l.friendSize * (|friends| - 1) + l.friendSize;
    }
  }

  /** Reading the first n records back is offering these friends one by one. */
  lemma {:induction false} LoadSavedRecords(l: Layout, s: State, friends: seq<Friend>, n: nat)
    requires LayoutLaws(l) && (forall i :: 0 <= i < |friends| ==> Fits(friends[i])) && n <= |friends|
    ensures l.friendSize * n <= |FriendRecords(l, friends)|
    ensures LoadFriends(l, s, FriendRecords(l, friends), n) == Reload(s, friends[..n])
    decreases n
  {
    RecordsSize(l, friends);
    MulMonotone(l.friendSize, n, |friends|);
    if n > 0 {
      var raw := FriendRecords(l, friends);
      assert raw[..l.friendSize] == l.put(friends[0]);
      assert raw[l.friendSize..] == FriendRecords(l, friends[1..]);
      LoadSavedRecords(l, LoadFriend(s, friends[0]), friends[1..], n - 1);
      assert friends[..n][1..] == friends[1..][..n - 1];
    }
  }

  lemma NoHoles(friends: seq<Friend>)
    requires forall i :: 0 <= i < |friends| ==> friends[i].status > 0
    ensures FreeSlot(friends) == |friends|
  {
    FreeSlotIs(friends, |friends|);
  }

  lemma AddressParts(id: Text, nospam: Text)
    requires |id| == 32 && |nospam| == 4
    ensures var a := AddressOf(id, nospam);
      |a| == 38 && a[..32] == id && a[32..36] == nospam && Checksum(a[..36]) == (a[36], a[37])
  {
    var a := AddressOf(id, nospam);
    assert a[..36] == id + nospam;
  }

  /** A friend that is not in the list yet goes to its end. */
  lemma LoadFriendAppends(s: State, f: Friend)
    requires FriendInv(f, s.publicKey)
    requires forall i :: 0 <= i < |s.friends| ==> s.friends[i].status > 0 && s.friends[i].clientId != f.clientId
    ensures LoadFriend(s, f) == s.(friends := s.friends + RestoredOne(f))
  {
    NoHoles(s.friends);
    if f.status >= 3 {
      assert (s.friends + [EMPTY_FRIEND.(clientId := f.clientId, status := FRIEND_CONFIRMED)])[|s.friends| := Restored(f)]
        == s.friends + [Restored(f)];
    } else if f.status > 0 {
      AddressParts(f.clientId, f.nospam);
    }
  }

  /** All of `friends` can be appended to a list that has no holes and none of them. */
  ghost predicate Appendable(s: State, friends: seq<Friend>) {
    && (forall i :: 0 <= i < |friends| ==> Sized(friends[i]) && FriendInv(friends[i], s.publicKey))
    && DistinctFriends(friends)
    && (forall i :: 0 <= i < |s.friends| ==> s.friends[i].status > 0)
    && (forall i, j :: 0 <= i < |s.friends| && 0 <= j < |friends| && friends[j].status > 0 ==>
               s.friends[i].clientId != friends[j].clientId)
  }

  lemma LoadFirst(s: State, friends: seq<Friend>)
    requires Appendable(s, friends) && friends != []
    ensures LoadFriend(s, friends[0]) == s.(friends := s.friends + RestoredOne(friends[0]))
    ensures Appendable(LoadFriend(s, friends[0]), friends[1..])
  {
    if friends[0].status > 0 {
      LoadFriendAppends(s, friends[0]);
    } else {
      assert s.friends + [] == s.friends;
    }
  }

  lemma ReloadFirst(s: State, friends: seq<Friend>) returns (s': State)
    requires Appendable(s, friends) && friends != []
    ensures s' == s.(friends := s.friends + RestoredOne(friends[0]))
    ensures Appendable(s', friends[1..]) && Reload(s, friends) == Reload(s', friends[1..])
  {
    LoadFirst(s, friends);
    s' := LoadFriend(s, friends[0]);
  }

  lemma ConcatAssociative<T>(a: seq<T>, b: seq<T>, c: seq<T>)
    ensures (a + b) + c == a + (b + c)
  {
  }

  lemma {:induction false} ReloadRestores(s: State, friends: seq<Friend>)
    requires Appendable(s, friends)
    ensures Reload(s, friends) == s.(friends := s.friends + RestoredAll(friends))
    decreases |friends|
  {
    if friends == [] {
      assert s.friends + [] == s.friends;
    } else {
      var s' := ReloadFirst(s, friends);
      ReloadRestores(s', friends[1..]);
      ConcatAssociative(s.friends, RestoredOne(friends[0]), RestoredAll(friends[1..]));
    }
  }

  // ---------- the file ----------

  lemma SavedSize(l: Layout, s: State, dht: Text)
    requires LayoutLaws(l) && StateInv(s)
    ensures |Save(l, s, dht)| == Size(l, s, dht)
  {
    AllFit(s);
    RecordsSize(l, s.friends);
  }

  lemma LoadSavedName(s: State, name: Text)
    requires |name| <= MAX_NAME_LENGTH
    ensures LoadName(s, NamePart(name)) == Loaded(0, SetName(s, name))
  {
    var data := NamePart(name);
    LittleValue(|name|, 2);
    assert data[..2] == Little(|name|, 2);
    assert data[2..] == name;
  }

  lemma SplitPart(head: Text, raw: Text, tail: Text)
    requires |head| == 4
    ensures var data := head + raw + tail;
      && |data| == 4 + |raw| + |tail|
      && data[..4] == head
      && data[4..][..|raw|] == raw
      && data[4..][|raw|..] == tail
  {
    var data := head + raw + tail;
    assert data[4..] == raw + tail;
  }

  lemma RecordCount(size: nat, count: nat, each: nat)
    requires each > 0 && size == each * count
    ensures size % each == 0 && size / each == count
  {
    Remainder(size, count, 0, each);
    Quotient(size, count, 0, each);
  }

  lemma FriendPartParses(l: Layout, friends: seq<Friend>, tail: Text)
    requires LayoutLaws(l) && (forall i :: 0 <= i < |friends| ==> Fits(friends[i]))
    requires l.friendSize * |friends| < 0x1_0000_0000
    ensures var data, size := FriendPart(l, friends) + tail, l.friendSize * |friends|;
      && |data| == 4 + size + |tail|
      && Value(data[..4]) == size
      && data[4..][..size] == FriendRecords(l, friends)
      && data[4..][size..] == tail
  {
    var size := l.friendSize * |friends|;
    LittleValue(size, 4);
    RecordsSize(l, friends);
    SplitPart(Little(size, 4), FriendRecords(l, friends), tail);
  }

  lemma LoadSavedList(l: Layout, s: State, friends: seq<Friend>, name: Text, n: nat)
    requires LayoutLaws(l) && (forall i :: 0 <= i < |friends| ==> Fits(friends[i])) && n == |friends| % 65536
    requires l.friendSize * |friends| < 0x1_0000_0000 && |name| <= MAX_NAME_LENGTH
    ensures n <= |friends|
    ensures LoadFriendList(l, s, FriendPart(l, friends) + NamePart(name)) ==
            Loaded(0, SetName(Reload(s, friends[..n]), name))
  {
    FriendPartParses(l, friends, NamePart(name));
    RecordCount(l.friendSize * |friends|, |friends|, l.friendSize);
    LoadSavedRecords(l, s, friends, n);
    LoadSavedName(Reload(s, friends[..n]), name);
  }

  lemma HeadParses(s: State, dht: Text, tail: Text)
    requires StateInv(s) && |dht| < 0x1_0000_0000
    ensures var data := Head(s, dht) + tail;
      && |data| == 72 + |dht| + |tail|
      && data[..32] == s.publicKey && data[32..64] == s.secretKey && data[64..68] == s.nospam
      && Value(data[68..72]) == |dht|
      && data[72..][|dht|..] == tail
  {
    var data := Head(s, dht) + tail;
    LittleValue(|dht|, 4);
    assert data[68..72] == Little(|dht|, 4);
  }

  lemma LoadSavedHead(l: Layout, blank: State, s: State, dht: Text, tail: Text)
    requires LayoutLaws(l) && StateInv(s) && DhtLoads(l, |dht|) && |tail| >= 4
    requires 72 + |dht| + |tail| < 0xFFFF_FFFF
    ensures Load(l, blank, Head(s, dht) + tail) ==
            LoadFriendList(l, blank.(publicKey := s.publicKey, secretKey := s.secretKey, nospam := s.nospam), tail)
  {
    HeadParses(s, dht, tail);
  }

  lemma ReloadIntoUnused(s: State, blank: State, n: nat)
    requires StateInv(s) && Unused(blank) && n <= |s.friends| && blank.publicKey == s.publicKey
    ensures Reload(blank, s.friends[..n]) == blank.(friends := RestoredAll(s.friends[..n]))
  {
    ReloadRestores(blank, s.friends[..n]);
    assert [] + RestoredAll(s.friends[..n]) == RestoredAll(s.friends[..n]);
  }

  lemma SaveLoadFriends(l: Layout, s: State, keyed: State)
    requires LayoutLaws(l) && StateInv(s) && Unused(keyed) && keyed.publicKey == s.publicKey
    requires l.friendSize * |s.friends| < 0x1_0000_0000
    ensures LoadFriendList(l, keyed, FriendPart(l, s.friends) + NamePart(s.name)) ==
            Loaded(0, keyed.(friends := RestoredAll(s.friends[..|s.friends| % 65536]), name := s.name))
  {
    AllFit(s);
    var n := |s.friends| % 65536;
    ReloadIntoUnused(s, keyed, n);
    LoadSavedList(l, keyed, s.friends, s.name, n);
    SetNameUnused(keyed.(friends := RestoredAll(s.friends[..n])), s.name);
  }

  lemma SetNameUnused(s: State, name: Text)
    requires s.name == [] && |name| <= MAX_NAME_LENGTH
    ensures SetName(s, name) == s.(name := name)
  {
  }

  lemma AllFit(s: State)
    requires StateInv(s)
    ensures forall i :: 0 <= i < |s.friends| ==> Fits(s.friends[i])
  {
  }

  /**
   Loading what was saved into an unused messenger succeeds and restores keys, nospam, name and the
   friends in order. The count of records is kept in 16 bits, so what is restored is the first
   (number of slots mod 65536) slots; `MessengerHistory.RestoredIff` says when these are all friends.
   */
  lemma SaveLoad(l: Layout, s: State, dht: Text, blank: State)
    requires LayoutLaws(l) && StateInv(s) && DhtLoads(l, |dht|) && Unused(blank)
    requires Size(l, s, dht) < 0xFFFF_FFFF
    ensures Load(l, blank, Save(l, s, dht)) ==
            Loaded(0, s.(friends := RestoredAll(s.friends[..|s.friends| % 65536])))
  {
    SavedSize(l, s, dht);
    LoadSavedHead(l, blank, s, dht, FriendPart(l, s.friends) + NamePart(s.name));
    SaveLoadFriends(l, s, blank.(publicKey := s.publicKey, secretKey := s.secretKey, nospam := s.nospam));
  }

  lemma {:induction false} RestoredConcat(a: seq<Friend>, b: seq<Friend>)
    ensures RestoredAll(a + b) == RestoredAll(a) + RestoredAll(b)
  {
    if a == [] {
      assert a + b == b;
    } else {
      assert (a + b)[1..] == a[1..] + b;
      RestoredConcat(a[1..], b);
    }
  }

  lemma {:induction false} RestoredNone(friends: seq<Friend>)
    ensures RestoredAll(friends) == [] <==> forall i :: 0 <= i < |friends| ==> friends[i].status == 0
  {
    if friends != [] {
      RestoredNone(friends[1..]);
      assert forall i :: 0 < i < |friends| ==> friends[i] == friends[1..][i - 1];
      if forall i :: 0 <= i < |friends[1..]| ==> friends[1..][i].status == 0 {
        assert forall i :: 0 < i < |friends| ==> friends[i].status == 0;
      }
    }
  }

  /** The first n slots restore all friends if and only if the other slots are holes. */
  lemma RestoredPart(friends: seq<Friend>, n: nat)
    requires n <= |friends|
    ensures RestoredAll(friends[..n]) == RestoredAll(friends) <==>
            forall i :: n <= i < |friends| ==> friends[i].status == 0
  {
    var a, b := friends[..n], friends[n..];
    assert friends == a + b;
    RestoredConcat(a, b);
    RestoredNone(b);
    assert forall i :: n <= i < |friends| ==> friends[i] == b[i - n];
    assert forall i :: 0 <= i < |b| ==> b[i] == friends[n + i];
    if RestoredAll(b) == [] {
      assert RestoredAll(a) + [] == RestoredAll(a);
    }
  }

  // ---------- which files load ----------

  /** The size of the list, behind a DHT part of size `dht`. */
  function ListSize(data: Text, dht: nat): nat
    requires 76 + dht <= |data|
  {
    Value(data[72 + dht..76 + dht])
  }

  function NameSize(data: Text, dht: nat, list: nat): nat
    requires 78 + dht + list <= |data|
  {
    Value(data[76 + dht + list..78 + dht + list])
  }

  /** The length of the file is what its three size fields make it, and the parts are whole. */
  ghost predicate WellFormedFile(l: Layout, data: Text)
    requires LayoutLaws(l)
  {
    && |data| >= 76 && |data| != 0xFFFF_FFFF
    && var dht := Value(data[68..72]);
    && 76 + dht <= |data| && DhtLoads(l, dht)
    && var list := ListSize(data, dht);
    && 78 + dht + list <= |data| && list % l.friendSize == 0
    && |data| == 78 + dht + list + NameSize(data, dht, list)
  }

  lemma ListLoadsIff(l: Layout, s: State, data: Text, dht: nat)
    requires LayoutLaws(l) && 76 + dht <= |data|
    ensures var list := ListSize(data, dht);
      LoadFriendList(l, s, data[72 + dht..]).code ==
      if && 78 + dht + list <= |data| && list % l.friendSize == 0 && |data| == 78 + dht + list + NameSize(data, dht, list)
      then 0 else -1
  {
    var part := data[72 + dht..];
    var list := Value(part[..4]);
    assert part[..4] == data[72 + dht..76 + dht];
    var rest := part[4..];
    if |rest| >= list {
      assert rest[list..] == data[76 + dht + list..];
      if |rest[list..]| >= 2 {
        assert rest[list..][..2] == data[76 + dht + list..78 + dht + list];
      }
    }
  }

  /** Messenger_load returns 0 exactly for well-formed files, and -1 for all others. */
  lemma LoadsIff(l: Layout, s: State, data: Text)
    requires LayoutLaws(l)
    ensures Load(l, s, data).code == if WellFormedFile(l, data) then 0 else -1
  {
    if |data| >= 76 {
      var dht := Value(data[68..72]);
      if 76 + dht <= |data| {
        assert data[72..][dht..] == data[72 + dht..];
        ListLoadsIff(l, s.(publicKey := data[..32], secretKey := data[32..64], nospam := data[64..68]), data, dht);
      }
    }
  }
}

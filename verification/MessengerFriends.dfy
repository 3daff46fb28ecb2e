/**
 The friend list of toxcore/Messenger.c and the invariant that saving relies on.
 A slot with status 0 is a hole; holes appear when friends are deleted and are filled first.
 */
module MessengerFriends {
  import opened Bytes

  type Text = seq<Byte>

  const NOFRIEND: nat := 0
  const FRIEND_ADDED: nat := 1
  const FRIEND_REQUESTED: nat := 2
  const FRIEND_CONFIRMED: nat := 3
  const FRIEND_ONLINE: nat := 4

  const FAERR_TOOLONG: int := -1
  const FAERR_NOMESSAGE: int := -2
  const FAERR_OWNKEY: int := -3
  const FAERR_ALREADYSENT: int := -4
  const FAERR_BADCHECKSUM: int := -6
  const FAERR_SETNEWNOSPAM: int := -7

  const MAX_NAME_LENGTH: nat := 128

  /** MAX_DATA_SIZE - PUBLICKEYBYTES - NONCEBYTES - BOXZEROBYTES + ZEROBYTES */
  const REQUEST_LIMIT: nat := 1024 - 32 - 24 - 16 + 32

  /** `info` is the first info_size bytes of the friend request; nospam is kept as its four bytes. */
  datatype Friend = Friend(clientId: Text, status: nat, info: Text, name: Text, nospam: Text)

  function Zeros(n: nat): Text {
    seq(n, _ => 0)
  }

  const EMPTY_FRIEND: Friend := Friend(Zeros(32), 0, [], Zeros(128), Zeros(4))

  datatype State = State(publicKey: Text, secretKey: Text, nospam: Text, friends: seq<Friend>, name: Text)

  // ---------- addresses ----------

  function Power2(k: nat): (p: nat)
    ensures p > 0
  {
    if k == 0 then 1 else 2 * Power2(k - 1)
  }

  /** Exclusive or of the k lowest bits. */
  function XorBits(a: nat, b: nat, k: nat): (r: nat)
    ensures r < Power2(k)
  {
    if k == 0 then 0 else (if a % 2 == b % 2 then 0 else 1) + 2 * XorBits(a / 2, b / 2, k - 1)
  }

  function Xor(a: Byte, b: Byte): (r: Byte) {
    assert Power2(8) == 256;
    XorBits(a, b, 8)
  }

  /** Exclusive or of the bytes at even positions and of those at odd positions. */
  function Checksum(address: Text): (Byte, Byte) {
    if address == [] then (0, 0)
    else
      var n := |address| - 1;
      var (even, odd) := Checksum(address[..n]);
      if n % 2 == 0 then (Xor(even, address[n]), odd) else (even, Xor(odd, address[n]))
  }

  method AddressChecksum(address: Text) returns (even: Byte, odd: Byte)
    ensures (even, odd) == Checksum(address)
  {
    var checksum := new Byte[2](_ => 0);
    for i := 0 to |address|
      invariant (checksum[0], checksum[1]) == Checksum(address[..i])
    {
      assert address[..i + 1][..i] == address[..i];
      checksum[i % 2] := Xor(checksum[i % 2], address[i]);
    }
    assert address[..|address|] == address;
    even, odd := checksum[0], checksum[1];
  }

  function AddressOf(clientId: Text, nospam: Text): Text {
    var (even, odd) := Checksum(clientId + nospam);
    clientId + nospam + [even, odd]
  }

  // ---------- the list ----------

  /** Index of the first friend with this id; |friends| if there is none. */
  function FindFriend(friends: seq<Friend>, id: Text): (i: nat)
    ensures i <= |friends|
    ensures i < |friends| ==> friends[i].status > 0 && friends[i].clientId == id
    ensures forall j :: 0 <= j < i ==> !(friends[j].status > 0 && friends[j].clientId == id)
  {
    if friends == [] || (friends[0].status > 0 && friends[0].clientId == id) then 0 else 1 + FindFriend(friends[1..], id)
  }

  function FreeSlot(friends: seq<Friend>): (i: nat)
    ensures i <= |friends|
    ensures i < |friends| ==> friends[i].status == 0
    ensures forall j :: 0 <= j < i ==> friends[j].status != 0
  {
    if friends == [] || friends[0].status == 0 then 0 else 1 + FreeSlot(friends[1..])
  }

  function Place(friends: seq<Friend>, f: Friend): seq<Friend> {
    var i := FreeSlot(friends);
    if i < |friends| then friends[i := f] else friends + [f]
  }

  function AddFriendNorequest(s: State, id: Text): (State, int) {
    if FindFriend(s.friends, id) < |s.friends| then (s, -1)
    else
      (s.(friends := Place(s.friends, EMPTY_FRIEND.(clientId := id, status := FRIEND_CONFIRMED))), FreeSlot(s.friends) as int)
  }

  function AddFriend(s: State, address: Text, data: Text): (State, int)
    requires |address| == 38
  {
    var id, nospam := address[..32], address[32..36];
    if |data| >= REQUEST_LIMIT then (s, FAERR_TOOLONG)
    else if Checksum(address[..36]) != (address[36], address[37]) then (s, FAERR_BADCHECKSUM)
    else if |data| < 1 then (s, FAERR_NOMESSAGE)
    else if id == s.publicKey then (s, FAERR_OWNKEY)
    else
      var i := FindFriend(s.friends, id);
      if i < |s.friends| then
        if s.friends[i].nospam == nospam then (s, FAERR_ALREADYSENT)
        else (s.(friends := s.friends[i := s.friends[i].(nospam := nospam)]), FAERR_SETNEWNOSPAM)
      else
        var f := Friend(id, FRIEND_ADDED, data, Zeros(128), nospam);
        (s.(friends := Place(s.friends, f)), FreeSlot(s.friends) as int)
  }

  /** The list without the holes at its end. */
  function Trim(friends: seq<Friend>): seq<Friend> {
    if friends == [] || friends[|friends| - 1].status != 0 then friends else Trim(friends[..|friends| - 1])
  }

  function DelFriend(s: State, n: int): (State, int) {
    if n < 0 || n >= |s.friends| then (s, -1)
    else (s.(friends := Trim(s.friends[n := EMPTY_FRIEND])), 0)
  }

  /**
   What doFriends and doInbound do to a friend's status: a request is sent or given up, the friend
   comes online, goes offline or calls in. A friend that was ever confirmed stays so.
   */
  predicate StatusChange(before: nat, after: nat) {
    match before
    case 1 => after in {1, 2, 3, 4}
    case 2 => after in {1, 2, 3, 4}
    case 3 => after in {3, 4}
    case 4 => after in {3, 4}
    case _ => after == before
  }

  function SetFriendStatus(s: State, n: nat, status: nat): State {
    if n < |s.friends| && StatusChange(s.friends[n].status, status) then
      s.(friends := s.friends[n := s.friends[n].(status := status)])
    else s
  }

  function SetFriendName(s: State, n: int, name: Text): State
    requires |name| == 128
  {
    if n >= |s.friends| || n < 0 then s else s.(friends := s.friends[n := s.friends[n].(name := name)])
  }

  function SetName(s: State, name: Text): State {
    if |name| > MAX_NAME_LENGTH || |name| == 0 then s else s.(name := name)
  }

  // ---------- in place ----------

  lemma FindFriendIs(friends: seq<Friend>, id: Text, i: nat)
    requires i < |friends| && friends[i].status > 0 && friends[i].clientId == id
    requires forall j :: 0 <= j < i ==> !(friends[j].status > 0 && friends[j].clientId == id)
    ensures FindFriend(friends, id) == i
  {
  }

  lemma FreeSlotIs(friends: seq<Friend>, i: nat)
    requires i <= |friends| && (i < |friends| ==> friends[i].status == 0)
    requires forall j :: 0 <= j < i ==> friends[j].status != 0
    ensures FreeSlot(friends) == i
  {
  }

  // ---------- what every operation keeps ----------

  /** The sizes of the fixed fields. */
  predicate Sized(f: Friend) {
    |f.clientId| == 32 && |f.name| == 128 && |f.nospam| == 4
  }

  ghost predicate FriendInv(f: Friend, self: Text) {
    && Sized(f)
    && f.status <= 4
    && |f.info| < REQUEST_LIMIT
    && (f.status in {1, 2} ==> 1 <= |f.info| && f.clientId != self)
  }

  ghost predicate DistinctFriends(friends: seq<Friend>) {
    forall i, j :: 0 <= i < j < |friends| && friends[i].status > 0 && friends[j].status > 0 ==>
      friends[i].clientId != friends[j].clientId
  }

  ghost predicate StateInv(s: State) {
    && |s.publicKey| == 32 && |s.secretKey| == 32 && |s.nospam| == 4
    && |s.name| <= MAX_NAME_LENGTH
    && (forall i :: 0 <= i < |s.friends| ==> FriendInv(s.friends[i], s.publicKey))
    && DistinctFriends(s.friends)
  }

  datatype Op =
    | OpAddFriend(address: Text, data: Text)
    | OpAddFriendNorequest(id: Text)
    | OpDelFriend(n: int)
    | OpSetStatus(i: nat, status: nat)
    | OpSetFriendName(n: int, friendName: Text)
    | OpSetName(name: Text)

  predicate WellFormed(op: Op) {
    match op
    case OpAddFriend(address, _) => |address| == 38
    case OpAddFriendNorequest(id) => |id| == 32
    case OpSetFriendName(_, name) => |name| == 128
    case _ => true
  }

  function ApplyOp(s: State, op: Op): State
    requires WellFormed(op)
  {
    match op
    case OpAddFriend(address, data) => AddFriend(s, address, data).0
    case OpAddFriendNorequest(id) => AddFriendNorequest(s, id).0
    case OpDelFriend(n) => DelFriend(s, n).0
    case OpSetStatus(n, status) => SetFriendStatus(s, n, status)
    case OpSetFriendName(n, name) => SetFriendName(s, n, name)
    case OpSetName(name) => SetName(s, name)
  }

  /** A messenger that has not been used: no friends and no name yet. */
  ghost predicate Unused(s: State) {
    s.friends == [] && s.name == []
  }

  /** No hole at the end of the list. */
  predicate LastLive(friends: seq<Friend>) {
    friends == [] || friends[|friends| - 1].status > 0
  }

  lemma PlaceKeeps(s: State, f: Friend)
    requires StateInv(s) && FriendInv(f, s.publicKey) && FindFriend(s.friends, f.clientId) == |s.friends|
    ensures StateInv(s.(friends := Place(s.friends, f)))
  {
  }

  lemma {:induction false} TrimPrefix(friends: seq<Friend>)
    ensures Trim(friends) <= friends
    ensures forall i :: |Trim(friends)| <= i < |friends| ==> friends[i].status == 0
    ensures Trim(friends) == [] || Trim(friends)[|Trim(friends)| - 1].status != 0
  {
    if friends != [] && friends[|friends| - 1].status == 0 {
      TrimPrefix(friends[..|friends| - 1]);
    }
  }

  lemma AddFriendKeeps(s: State, address: Text, data: Text)
    requires StateInv(s) && |address| == 38
    ensures StateInv(AddFriend(s, address, data).0)
  {
    var id := address[..32];
    if 1 <= |data| < REQUEST_LIMIT && id != s.publicKey && FindFriend(s.friends, id) == |s.friends| {
      PlaceKeeps(s, Friend(id, FRIEND_ADDED, data, Zeros(128), address[32..36]));
    }
  }

  lemma AddFriendNorequestKeeps(s: State, id: Text)
    requires StateInv(s) && |id| == 32
    ensures StateInv(AddFriendNorequest(s, id).0)
  {
    if FindFriend(s.friends, id) == |s.friends| {
      PlaceKeeps(s, EMPTY_FRIEND.(clientId := id, status := FRIEND_CONFIRMED));
    }
  }

  lemma DelFriendKeeps(s: State, n: int)
    requires StateInv(s)
    ensures StateInv(DelFriend(s, n).0)
  {
    if 0 <= n < |s.friends| {
      TrimPrefix(s.friends[n := EMPTY_FRIEND]);
    }
  }

  lemma UpdateKeeps(s: State, i: nat, f: Friend)
    requires StateInv(s) && i < |s.friends| && FriendInv(f, s.publicKey) && f.clientId == s.friends[i].clientId
    requires f.status > 0 ==> s.friends[i].status > 0
    ensures StateInv(s.(friends := s.friends[i := f]))
  {
  }

  lemma OpKeeps(s: State, op: Op)
    requires StateInv(s) && WellFormed(op)
    ensures StateInv(ApplyOp(s, op))
  {
    match op
    case OpAddFriend(address, data) => AddFriendKeeps(s, address, data);
    case OpAddFriendNorequest(id) => AddFriendNorequestKeeps(s, id);
    case OpDelFriend(n) => DelFriendKeeps(s, n);
    case OpSetStatus(i, status) =>
      if i < |s.friends| && StatusChange(s.friends[i].status, status) {
        UpdateKeeps(s, i, s.friends[i].(status := status));
      }
    case OpSetFriendName(n, name) =>
      if 0 <= n < |s.friends| {
        UpdateKeeps(s, n, s.friends[n].(name := name));
      }
    case OpSetName(name) =>
  }

  /** m_delfriend trims the list, and nothing else makes holes. */
  lemma OpKeepsLast(s: State, op: Op)
    requires LastLive(s.friends) && WellFormed(op)
    ensures LastLive(ApplyOp(s, op).friends)
  {
    if op.OpDelFriend? && 0 <= op.n < |s.friends| {
      TrimPrefix(s.friends[op.n := EMPTY_FRIEND]);
    }
  }

  // ---------- what each operation does, slot by slot ----------

  /** All slots but this one are as before, and the list has not shrunk. */
  ghost predicate OnlySlot(friends: seq<Friend>, friends': seq<Friend>, n: nat) {
    |friends| <= |friends'| && forall j :: 0 <= j < |friends| && j != n ==> friends'[j] == friends[j]
  }

  /** Slot n is the first hole of the list, or the place behind its end if it has none. */
  ghost predicate FirstHole(friends: seq<Friend>, n: nat) {
    && n <= |friends|
    && (n < |friends| ==> friends[n].status == 0)
    && (forall j :: 0 <= j < n ==> friends[j].status > 0)
  }

  lemma PlaceExact(friends: seq<Friend>, f: Friend)
    ensures var friends', n := Place(friends, f), FreeSlot(friends);
      && FirstHole(friends, n) && OnlySlot(friends, friends', n)
      && n < |friends'| <= |friends| + 1 && friends'[n] == f
      && (n < |friends| ==> |friends'| == |friends|)
  {
  }

  ghost predicate IsFriend(friends: seq<Friend>, id: Text) {
    exists i :: 0 <= i < |friends| && friends[i].status > 0 && friends[i].clientId == id
  }

  /**
   m_delfriend: everybody else stays in their slot unchanged, the deleted friend is no longer found,
   and the list ends behind the last friend that is left.
   */
  lemma DelFriendExact(s: State, n: int)
    ensures var (s', r) := DelFriend(s, n);
      if 0 <= n < |s.friends| then
        var f, f' := s.friends, s'.friends;
        && r == 0 && s' == s.(friends := f')
        && |f'| <= |f|
        && (forall j :: 0 <= j < |f'| ==> f'[j] == if j == n then EMPTY_FRIEND else f[j])
        && (forall j :: |f'| <= j < |f| && j != n ==> f[j].status == 0)
        && (|f'| > 0 ==> |f'| - 1 != n && f[|f'| - 1].status > 0)
        && (DistinctFriends(f) && f[n].status > 0 ==> !IsFriend(f', f[n].clientId))
      else s' == s && r == -1
  {
    if 0 <= n < |s.friends| {
      var g := s.friends[n := EMPTY_FRIEND];
      TrimPrefix(g);
      assert forall j :: 0 <= j < |g| && j != n ==> g[j] == s.friends[j];
    }
  }

  /** m_addfriend_norequest: somebody new gets the first free slot as a confirmed friend. */
  lemma AddFriendNorequestExact(s: State, id: Text)
    ensures var (s', r) := AddFriendNorequest(s, id);
      if IsFriend(s.friends, id) then s' == s && r == -1
      else
        && r >= 0 && FirstHole(s.friends, r) && s' == s.(friends := s'.friends)
        && OnlySlot(s.friends, s'.friends, r) && r < |s'.friends| <= |s.friends| + 1
        && s'.friends[r] == Friend(id, 3, [], Zeros(128), Zeros(4))
  {
    PlaceExact(s.friends, EMPTY_FRIEND.(clientId := id, status := FRIEND_CONFIRMED));
  }

  predicate ValidAddress(address: Text)
    requires |address| == 38
  {
    Checksum(address[..36]) == (address[36], address[37])
  }

  /** What m_addfriend answers, in the order of its tests. */
  lemma AddFriendCode(s: State, address: Text, data: Text)
    requires |address| == 38
    ensures var r, id := AddFriend(s, address, data).1, address[..32];
      && (r == -1 <==> |data| >= 984)
      && (r == -6 <==> |data| < 984 && !ValidAddress(address))
      && (r == -2 <==> ValidAddress(address) && data == [])
      && (r == -3 <==> ValidAddress(address) && 1 <= |data| < 984 && id == s.publicKey)
      && (r in {-4, -7} <==> ValidAddress(address) && 1 <= |data| < 984 && id != s.publicKey && IsFriend(s.friends, id))
      && (r >= 0 <==> ValidAddress(address) && 1 <= |data| < 984 && id != s.publicKey && !IsFriend(s.friends, id))
  {
  }

  /** What m_addfriend changes: nothing, a friend's nospam, or the first free slot. */
  lemma AddFriendEffect(s: State, address: Text, data: Text)
    requires |address| == 38
    ensures var (s', r) := AddFriend(s, address, data);
      && s' == s.(friends := s'.friends)
      && (r < 0 && r != -7 ==> s' == s)
      && (r >= 0 ==>
            && FirstHole(s.friends, r) && OnlySlot(s.friends, s'.friends, r) && r < |s'.friends| <= |s.friends| + 1
            && s'.friends[r] == Friend(address[..32], 1, data, Zeros(128), address[32..36]))
  {
    PlaceExact(s.friends, Friend(address[..32], FRIEND_ADDED, data, Zeros(128), address[32..36]));
  }

  /** A request to a friend we have: the same nospam is refused, another one replaces it, and only it. */
  lemma NospamReplaced(s: State, address: Text, data: Text, i: nat)
    requires |address| == 38 && DistinctFriends(s.friends)
    requires i < |s.friends| && s.friends[i].status > 0 && s.friends[i].clientId == address[..32]
    requires AddFriend(s, address, data).1 in {-4, -7}
    ensures AddFriend(s, address, data).1 == if s.friends[i].nospam == address[32..36] then -4 else -7
    ensures AddFriend(s, address, data).0 == s.(friends := s.friends[i := s.friends[i].(nospam := address[32..36])])
  {
    var k := FindFriend(s.friends, address[..32]);
    assert k == i;
    if s.friends[i].nospam == address[32..36] {
      assert s.friends[i := s.friends[i]] == s.friends;
    }
  }

  // ---------- the checksum ----------

  lemma {:induction false} XorBitsCommutes(a: nat, b: nat, k: nat)
    ensures XorBits(a, b, k) == XorBits(b, a, k)
  {
    if k > 0 {
      XorBitsCommutes(a / 2, b / 2, k - 1);
    }
  }

  /** The lowest bit and the others. */
  lemma LowBit(a: nat, b: nat, k: nat)
    requires k > 0
    ensures XorBits(a, b, k) % 2 == if a % 2 == b % 2 then 0 else 1
    ensures XorBits(a, b, k) / 2 == XorBits(a / 2, b / 2, k - 1)
  {
  }

  lemma TwoParts(a: nat, b: nat)
    requires a % 2 == b % 2 && a / 2 == b / 2
    ensures a == b
  {
  }

  lemma {:induction false} XorBitsCancels(a: nat, b: nat, k: nat)
    requires a < Power2(k)
    ensures XorBits(XorBits(a, b, k), b, k) == a
  {
    if k > 0 {
      var x := XorBits(a, b, k);
      LowBit(a, b, k);
      LowBit(x, b, k);
      XorBitsCancels(a / 2, b / 2, k - 1);
      TwoParts(XorBits(x, b, k), a);
    }
  }

  lemma XorCommutes(a: Byte, b: Byte)
    ensures Xor(a, b) == Xor(b, a)
  {
    XorBitsCommutes(a, b, 8);
  }

  lemma XorCancels(a: Byte, b: Byte)
    ensures Xor(Xor(a, b), b) == a
  {
    assert Power2(8) == 256;
    XorBitsCancels(a, b, 8);
  }

  lemma XorInjective(a: Byte, b: Byte, c: Byte)
    requires a != b
    ensures Xor(a, c) != Xor(b, c) && Xor(c, a) != Xor(c, b)
  {
    XorCancels(a, c);
    XorCancels(b, c);
    XorCommutes(a, c);
    XorCommutes(b, c);
  }

  /** Changing one byte changes the checksum. */
  lemma {:induction false} OneByteChecked(address: Text, i: nat, b: Byte)
    requires i < |address| && b != address[i]
    ensures Checksum(address[i := b]) != Checksum(address)
  {
    var n := |address| - 1;
    if i == n {
      assert address[i := b][..n] == address[..n];
      var (even, odd) := Checksum(address[..n]);
      XorInjective(b, address[n], even);
      XorInjective(b, address[n], odd);
    } else {
      OneByteChecked(address[..n], i, b);
      assert address[i := b][..n] == address[..n][i := b];
      var (even, odd) := Checksum(address[..n]);
      var (even', odd') := Checksum(address[..n][i := b]);
      if even != even' {
        XorInjective(even, even', address[n]);
      }
      if odd != odd' {
        XorInjective(odd, odd', address[n]);
      }
    }
  }

  /** Bytes at even positions count for the first sum, those at odd positions for the second. */
  lemma {:induction false} OtherSumKept(address: Text, i: nat, b: Byte)
    requires i < |address|
    ensures i % 2 == 0 ==> Checksum(address[i := b]).1 == Checksum(address).1
    ensures i % 2 == 1 ==> Checksum(address[i := b]).0 == Checksum(address).0
  {
    var n := |address| - 1;
    if i == n {
      assert address[i := b][..n] == address[..n];
    } else {
      OtherSumKept(address[..n], i, b);
      assert address[i := b][..n] == address[..n][i := b];
    }
  }

  lemma ZeroXor(a: Byte)
    ensures Xor(0, a) == a
  {
    assert Power2(8) == 256;
    XorWithZero(a, 8);
  }

  lemma {:induction false} XorWithZero(a: nat, k: nat)
    requires a < Power2(k)
    ensures XorBits(0, a, k) == a
  {
    if k > 0 {
      XorWithZero(a / 2, k - 1);
      LowBit(0, a, k);
      TwoParts(XorBits(0, a, k), a);
    }
  }

  lemma FirstSums(a: Byte, b: Byte)
    ensures Checksum([a]) == (a, 0) && Checksum([a, b]) == (a, b)
  {
    ZeroXor(a);
    ZeroXor(b);
    assert [a][..0] == [] && [a, b][..1] == [a];
  }

  /** An address that differs from a valid one in a single byte is refused, and nothing changes. */
  lemma OneByteRefused(s: State, address: Text, i: nat, b: Byte, data: Text)
    requires |address| == 38 && ValidAddress(address) && i < 38 && b != address[i]
    ensures AddFriend(s, address[i := b], data) == (s, if |data| >= 984 then -1 else -6)
  {
    var wrong := address[i := b];
    if i < 36 {
      assert wrong[..36] == address[..36][i := b];
      OneByteChecked(address[..36], i, b);
    } else {
      assert wrong[..36] == address[..36];
    }
  }

  // ---------- names ----------

  lemma NamesExact(s: State, name: Text, n: int, friendName: Text)
    requires |friendName| == 128
    ensures SetName(s, name) == if 1 <= |name| <= 128 then s.(name := name) else s
    ensures var s' := SetFriendName(s, n, friendName);
      if 0 <= n < |s.friends| then s' == s.(friends := s.friends[n := s.friends[n].(name := friendName)]) else s' == s
  {
  }
}

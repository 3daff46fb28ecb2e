/**
 The messenger object of toxcore/Messenger.c with the loops over its friend list and the moving
 data pointer of saving and loading. Every method computes what `MessengerFriends` and
 `MessengerStore` specify.
 */
module Messenger {
  import opened Bytes
  import F = MessengerFriends
  import S = MessengerStore

  class Messenger {
    var publicKey: F.Text
    var secretKey: F.Text
    var nospam: F.Text
    var friendlist: seq<F.Friend>
    var name: F.Text

    function View(): F.State
      reads this
    {
      F.State(publicKey, secretKey, nospam, friendlist, name)
    }

    constructor (publicKey: F.Text, secretKey: F.Text, nospam: F.Text)
      ensures View() == F.State(publicKey, secretKey, nospam, [], [])
    {
      this.publicKey, this.secretKey, this.nospam := publicKey, secretKey, nospam;
      friendlist, name := [], [];
    }

    /** -1 if there is no such friend. */
    method GetFriendId(id: F.Text) returns (n: int)
      ensures n == var i := F.FindFriend(friendlist, id); if i < |friendlist| then i else -1
    {
      for i := 0 to |friendlist|
        invariant forall j :: 0 <= j < i ==> !(friendlist[j].status > 0 && friendlist[j].clientId == id)
      {
        if friendlist[i].status > 0 && friendlist[i].clientId == id {
          F.FindFriendIs(friendlist, id, i);
          return i;
        }
      }
      return -1;
    }

    /** Make room for one more friend and put f into the first free slot. */
    method PlaceFriend(f: F.Friend) returns (n: nat)
      modifies this`friendlist
      ensures friendlist == F.Place(old(friendlist), f)
      ensures n == F.FreeSlot(old(friendlist))
    {
      var roomy := friendlist + [F.EMPTY_FRIEND];
      var i := 0;
      while roomy[i].status != F.NOFRIEND
        invariant 0 <= i <= |friendlist|
        invariant forall j :: 0 <= j < i ==> friendlist[j].status != 0
        decreases |friendlist| - i
      {
        i := i + 1;
      }
      F.FreeSlotIs(friendlist, i);
      if i == |friendlist| {
        friendlist := friendlist + [f];
      } else {
        friendlist := friendlist[i := f];
      }
      n := i;
    }

    method AddFriend(address: F.Text, data: F.Text) returns (n: int)
      requires |address| == 38
      modifies this`friendlist
      ensures (View(), n) == F.AddFriend(old(View()), address, data)
    {
      if |data| >= F.REQUEST_LIMIT {
        return F.FAERR_TOOLONG;
      }
      var id := address[..32];
      var even, odd := F.AddressChecksum(address[..36]);
      if even != address[36] || odd != address[37] {
        return F.FAERR_BADCHECKSUM;
      }
      if |data| < 1 {
        return F.FAERR_NOMESSAGE;
      }
      if id == publicKey {
        return F.FAERR_OWNKEY;
      }
      var friendId := GetFriendId(id);
      if friendId != -1 {
        if friendlist[friendId].nospam == address[32..36] {
          return F.FAERR_ALREADYSENT;
        }
        friendlist := friendlist[friendId := friendlist[friendId].(nospam := address[32..36])];
        return F.FAERR_SETNEWNOSPAM;
      }
      n := PlaceFriend(F.Friend(id, F.FRIEND_ADDED, data, F.Zeros(128), address[32..36]));
    }

    method AddFriendNorequest(id: F.Text) returns (n: int)
      modifies this`friendlist
      ensures (View(), n) == F.AddFriendNorequest(old(View()), id)
    {
      var friendId := GetFriendId(id);
      if friendId != -1 {
        return -1;
      }
      n := PlaceFriend(F.EMPTY_FRIEND.(clientId := id, status := F.FRIEND_CONFIRMED));
    }

    method DelFriend(friendnumber: int) returns (r: int)
      modifies this`friendlist
      ensures (View(), r) == F.DelFriend(old(View()), friendnumber)
    {
      if friendnumber >= |friendlist| || friendnumber < 0 {
        return -1;
      }
      friendlist := friendlist[friendnumber := F.EMPTY_FRIEND];
      TrimFriends();
      return 0;
    }

    method TrimFriends()
      modifies this`friendlist
      ensures friendlist == F.Trim(old(friendlist))
    {
      assert friendlist[..|friendlist|] == friendlist;
      var i := |friendlist|;
      while i != 0
        invariant 0 <= i <= |friendlist|
        invariant F.Trim(friendlist) == F.Trim(friendlist[..i])
      {
        assert friendlist[..i][..i - 1] == friendlist[..i - 1];
        if friendlist[i - 1].status != F.NOFRIEND {
          break;
        }
        i := i - 1;
      }
      friendlist := friendlist[..i];
    }

    method SetFriendName(friendnumber: int, friendName: F.Text)
      requires |friendName| == 128
      modifies this`friendlist
      ensures View() == F.SetFriendName(old(View()), friendnumber, friendName)
    {
      if friendnumber >= |friendlist| || friendnumber < 0 {
        return;
      }
      friendlist := friendlist[friendnumber := friendlist[friendnumber].(name := friendName)];
    }

    method SetName(newName: F.Text)
      modifies this`name
      ensures View() == F.SetName(old(View()), newName)
    {
      if |newName| > F.MAX_NAME_LENGTH || |newName| == 0 {
        return;
      }
      name := newName;
    }

    /** memcpy of `src` to position `pos`, and the position behind it. */
    static method Append(data: array<Byte>, pos: nat, src: F.Text) returns (next: nat)
      requires pos + |src| <= data.Length
      modifies data
      ensures next == pos + |src| && data[..next] == old(data[..pos]) + src
    {
      for i := 0 to |src|
        invariant data[..pos] == old(data[..pos])
        invariant data[pos..pos + i] == src[..i]
      {
        data[pos + i] := src[i];
      }
      next := pos + |src|;
      assert data[..next] == data[..pos] + data[pos..pos + |src|];
      assert src[..|src|] == src;
    }

    method SaveHead(dht: F.Text, data: array<Byte>) returns (pos: nat)
      requires data.Length >= |S.Head(View(), dht)|
      modifies data
      ensures pos == |S.Head(View(), dht)| && data[..pos] == S.Head(View(), dht)
    {
      pos := Append(data, 0, publicKey);
      pos := Append(data, pos, secretKey);
      pos := Append(data, pos, nospam);
      pos := Append(data, pos, Little(|dht|, 4));
      pos := Append(data, pos, dht);
    }

    method Save(l: S.Layout, dht: F.Text, data: array<Byte>)
      requires S.LayoutLaws(l) && F.StateInv(View()) && data.Length == S.Size(l, View(), dht)
      modifies data
      ensures data[..] == S.Save(l, View(), dht)
    {
      S.SavedSize(l, View(), dht);
      var pos := SaveHead(dht, data);
      var size, records := Little(l.friendSize * |friendlist|, 4), S.FriendRecords(l, friendlist);
      var nameSize := Little(|name|, 2);
      pos := Append(data, pos, size);
      pos := Append(data, pos, records);
      pos := Append(data, pos, nameSize);
      pos := Append(data, pos, name);
      SavedInOrder(S.Head(View(), dht), size, records, nameSize, name);
      assert data[..pos] == data[..];
    }

    static lemma SavedInOrder(head: F.Text, a: F.Text, b: F.Text, c: F.Text, d: F.Text)
      ensures head + a + b + c + d == head + ((a + b) + (c + d))
    {
    }

    /** One record of the stored list. */
    method LoadFriend(f: F.Friend)
      requires F.Sized(f)
      modifies this`friendlist
      ensures View() == S.LoadFriend(old(View()), f)
    {
      if f.status >= 3 {
        var fnum := AddFriendNorequest(f.clientId);
        SetFriendName(fnum, f.name);
      } else if f.status != 0 {
        S.AddressParts(f.clientId, f.nospam);
        var _ := AddFriend(F.AddressOf(f.clientId, f.nospam), f.info);
      }
    }

    method LoadRecord(l: S.Layout, temp: F.Text, ghost num: nat) returns (rest: F.Text)
      requires S.LayoutLaws(l) && num > 0 && l.friendSize * num <= |temp|
      modifies this`friendlist
      ensures l.friendSize * (num - 1) <= |rest|
      ensures S.LoadFriends(l, View(), rest, num - 1) == S.LoadFriends(l, old(View()), temp, num)
    {
      S.OneRecord(l, num);
      LoadFriend(l.get(temp[..l.friendSize]));
      rest := temp[l.friendSize..];
    }

    method LoadFriends(l: S.Layout, raw: F.Text, num: nat)
      requires S.LayoutLaws(l) && l.friendSize * num <= |raw|
      modifies this`friendlist
      ensures View() == S.LoadFriends(l, old(View()), raw, num)
    {
      ghost var goal := S.LoadFriends(l, View(), raw, num);
      var temp := raw;
      for i := 0 to num
        invariant l.friendSize * (num - i) <= |temp|
        invariant goal == S.LoadFriends(l, View(), temp, num - i)
      {
        temp := LoadRecord(l, temp, num - i);
      }
    }

    method Load(l: S.Layout, data: F.Text) returns (code: int)
      requires S.LayoutLaws(l)
      modifies this
      ensures S.Loaded(code, View()) == S.Load(l, old(View()), data)
    {
      var length := |data|;
      if length == 0xFFFF_FFFF || length < S.FIXED {
        return -1;
      }
      length := length - S.FIXED;
      publicKey, secretKey, nospam := data[..32], data[32..64], data[64..68];
      var size := Value(data[68..72]);
      if length < size {
        return -1;
      }
      length := length - size;
      if !S.DhtLoads(l, size) {
        return -1;
      }
      code := LoadList(l, data[72..][size..], length);
    }

    /** The second half of Messenger_load; `length` counts the bytes behind the size of the list. */
    method LoadList(l: S.Layout, data: F.Text, remaining: nat) returns (code: int)
      requires S.LayoutLaws(l) && |data| == remaining + 4
      modifies this
      ensures S.Loaded(code, View()) == S.LoadFriendList(l, old(View()), data)
    {
      var length := remaining;
      var size := Value(data[..4]);
      var rest := data[4..];
      if length < size || size % l.friendSize != 0 {
        return -1;
      }
      S.CountFits(size, l.friendSize);
      var num := (size / l.friendSize) % 65536;
      LoadFriends(l, rest[..size], num);
      length := length - size;
      var tail := rest[size..];
      if length < 2 {
        return -1;
      }
      var smallSize := Value(tail[..2]);
      length := length - 2;
      if length != smallSize {
        return -1;
      }
      SetName(tail[2..]);
      return 0;
    }
  }
}

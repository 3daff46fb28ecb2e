/**
 The 24-byte nonces of toxcore/net_crypto.c, counted little-endian modulo 2^192.
 */
module Nonce {
  import opened Bytes
  import opened Remainders

  const NONCEBYTES: nat := 24

  type Nonce24 = n: seq<Byte> | |n| == 24 witness ZERO_NONCE

  const ZERO_NONCE: seq<Byte> := [0, 0, 0, 0, 0, 0, 0, 0, 0, 0, 0, 0, 0, 0, 0, 0, 0, 0, 0, 0, 0, 0, 0, 0]

  /** Add 1 with carry, least significant byte first. */
  function Inc(n: seq<Byte>): (r: seq<Byte>)
    ensures |r| == |n|
  {
    if n == [] then []
    else if n[0] == 255 then [0] + Inc(n[1..])
    else [n[0] + 1] + n[1..]
  }

  function IncBy(n: seq<Byte>, k: nat): (r: seq<Byte>)
    ensures |r| == |n|
  {
    if k == 0 then n else Inc(IncBy(n, k - 1))
  }

  /** While the bytes are 255, adding 1 zeroes them and carries on. */
  lemma {:induction false} Carry(n: seq<Byte>, i: nat)
    requires i <= |n| && (forall j :: 0 <= j < i ==> n[j] == 255)
    ensures forall j :: 0 <= j < i ==> Inc(n)[j] == 0
    ensures Inc(n)[i..] == Inc(n[i..])
  {
    if i == 0 {
      assert n[0..] == n && Inc(n)[0..] == Inc(n);
    } else {
      Carry(n[1..], i - 1);
      assert n[1..][i - 1..] == n[i..];
      forall j | 0 <= j < i
        ensures Inc(n)[j] == 0
      {
        if j > 0 {
          assert Inc(n)[j] == Inc(n[1..])[j - 1];
        }
      }
      assert Inc(n)[i..] == Inc(n[1..])[i - 1..];
    }
  }

  /** Where the carry stops: byte i is incremented, the rest stays. */
  lemma CarryStops(n: seq<Byte>, i: nat, r: seq<Byte>)
    requires i <= |n| == |r| && (forall j :: 0 <= j < i ==> n[j] == 255 && r[j] == 0)
    requires i < |n| ==> n[i] < 255 && r[i] == n[i] + 1 && r[i + 1..] == n[i + 1..]
    ensures r == Inc(n)
  {
    Carry(n, i);
    if i < |n| {
      assert n[i..][1..] == n[i + 1..];
      assert r[i..] == [n[i] + 1] + n[i + 1..];
    }
    assert r == r[..i] + r[i..];
    assert Inc(n) == Inc(n)[..i] + Inc(n)[i..];
  }

  /** The carry loop: stop at the first byte that does not wrap to 0. */
  method IncrementNonce(nonce: array<Byte>)
    requires nonce.Length == 24
    modifies nonce
    ensures nonce[..] == Inc(old(nonce[..]))
  {
    ghost var was := nonce[..];
    var i := 0;
    while i < NONCEBYTES
      invariant 0 <= i <= 24
      invariant forall j :: 0 <= j < i ==> nonce[j] == 0 && was[j] == 255
      invariant forall j :: i <= j < 24 ==> nonce[j] == was[j]
    {
      nonce[i] := if nonce[i] == 255 then 0 else nonce[i] + 1;
      if nonce[i] != 0 {
        CarryStops(was, i, nonce[..]);
        return;
      }
      i := i + 1;
    }
    CarryStops(was, 24, nonce[..]);
  }

  // ---------- increment_nonce as arithmetic ----------

  /** increment_nonce adds 1 to the little-endian number, and wraps to 0 at 256^24 for a nonce of 24 bytes. */
  lemma {:induction false} IncValue(n: seq<Byte>)
    ensures Value(Inc(n)) == if Value(n) + 1 == Power256(|n|) then 0 else Value(n) + 1
  {
    if n != [] {
      var rest := n[1..];
      IncValue(rest);
      ValueBound(rest);
      if n[0] == 255 {
        assert Inc(n)[1..] == Inc(rest);
      } else {
        assert Inc(n)[1..] == rest;
      }
    }
  }

  lemma {:induction false} IncByValue(n: seq<Byte>, k: nat)
    ensures Value(IncBy(n, k)) == Modulo(Value(n) + k, Power256(|n|))
  {
    if k == 0 {
      ValueBound(n);
    } else {
      var before := IncBy(n, k - 1);
      IncByValue(n, k - 1);
      IncValue(before);
      ModuloNext(Value(n) + (k - 1), Power256(|n|));
    }
  }

  /** k increments add k to the number, modulo 256^24 for a nonce of 24 bytes. */
  lemma IncByAdds(n: seq<Byte>, k: nat, m: nat)
    requires m == Power256(|n|)
    ensures Value(IncBy(n, k)) == (Value(n) + k) % m
  {
    IncByValue(n, k);
    ModuloIsRemainder(Value(n) + k, m);
  }

  /** Successive nonces do not repeat before 256^24 of them have been used. */
  lemma NoncesDistinct(n: seq<Byte>, j: nat, k: nat)
    requires j < k < j + Power256(|n|)
    ensures IncBy(n, j) != IncBy(n, k)
  {
    IncByValue(n, j);
    IncByValue(n, k);
    if IncBy(n, j) == IncBy(n, k) {
      SameModulo(Value(n) + j, Value(n) + k, Power256(|n|));
    }
  }

  lemma {:induction false} IncByAdd(n: seq<Byte>, j: nat, k: nat)
    ensures IncBy(IncBy(n, j), k) == IncBy(n, j + k)
  {
    if k > 0 {
      IncByAdd(n, j, k - 1);
    }
  }
}

/** Bytes, and the little-endian numbers they spell. */
module Bytes {

  type Byte = x: int | 0 <= x < 256

  function Power256(k: nat): (p: nat)
    ensures p > 0
  {
    if k == 0 then 1 else 256 * Power256(k - 1)
  }

  function Value(n: seq<Byte>): nat {
    if n == [] then 0 else n[0] + 256 * Value(n[1..])
  }

  /** The k low bytes of n, least significant first. */
  function Little(n: nat, k: nat): (b: seq<Byte>)
    ensures |b| == k
  {
    if k == 0 then [] else [n % 256] + Little(n / 256, k - 1)
  }

  lemma {:induction false} ValueBound(n: seq<Byte>)
    ensures Value(n) < Power256(|n|)
  {
    if n != [] {
      ValueBound(n[1..]);
    }
  }

  lemma {:induction false} LittleValue(n: nat, k: nat)
    requires n < Power256(k)
    ensures Value(Little(n, k)) == n
  {
    if k > 0 {
      assert Little(n, k)[1..] == Little(n / 256, k - 1);
      LittleValue(n / 256, k - 1);
    }
  }
}

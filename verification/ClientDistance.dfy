/**
 How toxcore/DHT.c compares two client ids by their distance to a third.

 Byte by byte, the distance is the absolute value of the exclusive or taken as a signed byte, so
 byte values x and 256 - x are equally far. `Distance` is the number these bytes spell, most
 significant first, and id_closest compares exactly these numbers.
 */
module ClientDistance {

  type Id = s: seq<bv8> | |s| == 32 witness ZERO_ID

  const ZERO_ID: seq<bv8> := [0, 0, 0, 0, 0, 0, 0, 0, 0, 0, 0, 0, 0, 0, 0, 0, 0, 0, 0, 0, 0, 0, 0, 0, 0, 0, 0, 0, 0, 0, 0, 0]

  /** abs of the exclusive or of two signed bytes, as an unsigned byte. */
  function Folded(a: bv8, b: bv8): (d: nat)
    ensures d <= 128
  {
    var x := (a ^ b) as int;
    if x < 128 then x else 256 - x
  }

  function Power129(k: nat): (p: nat)
    ensures p > 0
  {
    if k == 0 then 1 else 129 * Power129(k - 1)
  }

  /** The byte distances of two ids. */
  function Digits(id: Id, other: Id): (d: seq<nat>)
    ensures |d| == 32 && forall i :: 0 <= i < 32 ==> d[i] == Folded(id[i], other[i])
  {
    seq(32, i requires 0 <= i < 32 => Folded(id[i], other[i]))
  }

  function Shift(d: nat, k: nat): nat {
    d * Power129(k)
  }

  /** The number that digits below 129 spell, most significant first. */
  function Number(d: seq<nat>): nat {
    if d == [] then 0 else Shift(d[0], |d| - 1) + Number(d[1..])
  }

  function Distance(id: Id, other: Id): nat {
    Number(Digits(id, other))
  }

  lemma ShiftBelow(a: nat, b: nat, k: nat)
    requires a < b
    ensures Shift(a, k) + Power129(k) <= Shift(b, k)
  {
    var p := Power129(k);
    assert b * p == a * p + p + (b - a - 1) * p;
  }

  lemma {:induction false} NumberBound(d: seq<nat>)
    requires forall i :: 0 <= i < |d| ==> d[i] < 129
    ensures Number(d) < Power129(|d|)
  {
    if d != [] {
      NumberBound(d[1..]);
      ShiftBelow(d[0], 129, |d| - 1);
    }
  }

  /** The first digit that differs decides. */
  lemma {:induction false} FirstDifference(d: seq<nat>, e: seq<nat>, i: nat)
    requires |d| == |e| && i < |d| && (forall j :: 0 <= j < |d| ==> d[j] < 129)
    requires (forall j :: 0 <= j < i ==> d[j] == e[j]) && d[i] < e[i]
    ensures Number(d) < Number(e)
  {
    if i == 0 {
      NumberBound(d[1..]);
      ShiftBelow(d[0], e[0], |d| - 1);
    } else {
      FirstDifference(d[1..], e[1..], i - 1);
    }
  }

  /** 1 if id1 is closer, 2 if id2 is closer, 0 if both are at the same distance. */
  function Closest(id: Id, id1: Id, id2: Id): int {
    if Distance(id, id1) < Distance(id, id2) then 1
    else if Distance(id, id1) > Distance(id, id2) then 2
    else 0
  }

  method IdClosest(id: Id, id1: Id, id2: Id) returns (c: int)
    ensures c == Closest(id, id1, id2)
  {
    ghost var d, e := Digits(id, id1), Digits(id, id2);
    for i := 0 to 32
      invariant forall j :: 0 <= j < i ==> d[j] == e[j]
    {
      var distance1 := Folded(id[i], id1[i]);
      var distance2 := Folded(id[i], id2[i]);
      if distance1 < distance2 {
        FirstDifference(d, e, i);
        return 1;
      }
      if distance1 > distance2 {
        FirstDifference(e, d, i);
        return 2;
      }
    }
    assert d == e;
    return 0;
  }

  /** Two ids tie exactly when every byte distance agrees. */
  lemma TieIff(id: Id, id1: Id, id2: Id)
    ensures Closest(id, id1, id2) == 0 <==> forall j :: 0 <= j < 32 ==> Folded(id[j], id1[j]) == Folded(id[j], id2[j])
  {
    var d, e := Digits(id, id1), Digits(id, id2);
    if d == e {
      assert forall j :: 0 <= j < 32 ==> Folded(id[j], id1[j]) == d[j] == e[j];
    } else {
      var i := FindDifference(d, e);
      assert Folded(id[i], id1[i]) == d[i] && Folded(id[i], id2[i]) == e[i];
      if d[i] < e[i] {
        FirstDifference(d, e, i);
      } else {
        FirstDifference(e, d, i);
      }
    }
  }

  lemma {:induction false} FindDifference(d: seq<nat>, e: seq<nat>) returns (i: nat)
    requires |d| == |e| && d != e
    ensures i < |d| && d[i] != e[i] && (forall j :: 0 <= j < i ==> d[j] == e[j])
  {
    if d[0] != e[0] {
      i := 0;
    } else {
      assert d == [d[0]] + d[1..] && e == [e[0]] + e[1..];
      var k := FindDifference(d[1..], e[1..]);
      i := k + 1;
      assert forall j :: 0 < j < i ==> d[j] == d[1..][j - 1] && e[j] == e[1..][j - 1];
    }
  }

  /** The id whose bytes are all 0 except the last. */
  function Ending(b: bv8): Id {
    ZERO_ID[31 := b]
  }

  /** Different ids can be equally far: last bytes 1 and 255, seen from 0. */
  lemma TieExample()
    ensures Ending(1) != Ending(255) && Closest(ZERO_ID, Ending(1), Ending(255)) == 0
  {
    assert Ending(1)[31] != Ending(255)[31];
    assert Folded(0, 1) == Folded(0, 255) == 1;
    TieIff(ZERO_ID, Ending(1), Ending(255));
  }

  lemma {:induction false} NumberOfLast(d: seq<nat>)
    requires d != [] && (forall i :: 0 <= i < |d| - 1 ==> d[i] == 0)
    ensures Number(d) == d[|d| - 1]
  {
    if |d| > 1 {
      NumberOfLast(d[1..]);
    }
  }

  // ---------- the metric in plain numbers ----------

  /** Exclusive or, byte by byte. */
  function XorIds(id: Id, mask: Id): (r: Id)
    ensures forall i :: 0 <= i < 32 ==> r[i] == id[i] ^ mask[i]
  {
    seq(32, i requires 0 <= i < 32 => id[i] ^ mask[i])
  }

  /** Seen from 0, a byte below 128 is as far as its value and any other as far as 256 less its value. */
  lemma FoldedFromZero(b: bv8)
    ensures Folded(0, b) == if b as int < 128 then b as int else 256 - b as int
  {
    assert 0 ^ b == b;
  }

  lemma FoldedShift(a: bv8, b: bv8, c: bv8)
    ensures Folded(a ^ c, b ^ c) == Folded(a, b)
  {
    assert (a ^ c) ^ (b ^ c) == a ^ b;
  }

  lemma DigitsShift(id: Id, other: Id, mask: Id)
    ensures Digits(XorIds(id, mask), XorIds(other, mask)) == Digits(id, other)
  {
    forall i | 0 <= i < 32
      ensures Digits(XorIds(id, mask), XorIds(other, mask))[i] == Digits(id, other)[i]
    {
      FoldedShift(id[i], other[i], mask[i]);
    }
  }

  /**
   Distances do not change when both ids are changed by the same exclusive or. With `ZeroDigits` this
   fixes the metric: the distance of two ids is that of their exclusive or from 0.
   */
  lemma DistanceShift(id: Id, other: Id, mask: Id)
    ensures Distance(XorIds(id, mask), XorIds(other, mask)) == Distance(id, other)
  {
    DigitsShift(id, other, mask);
  }

  lemma ZeroDigits(id: Id, i: nat)
    requires i < 32
    ensures Digits(ZERO_ID, id)[i] == if id[i] as int < 128 then id[i] as int else 256 - id[i] as int
  {
    assert ZERO_ID[i] == 0;
    FoldedFromZero(id[i]);
  }

  /** The distance is symmetric. */
  lemma DistanceSymmetric(id: Id, other: Id)
    ensures Distance(id, other) == Distance(other, id)
  {
    forall i | 0 <= i < 32
      ensures Digits(id, other)[i] == Digits(other, id)[i]
    {
      assert id[i] ^ other[i] == other[i] ^ id[i];
    }
    assert Digits(id, other) == Digits(other, id);
  }

  lemma EndingsApart(a: bv8, b: bv8)
    ensures Distance(Ending(a), Ending(b)) == Folded(a, b)
  {
    var d := Digits(Ending(a), Ending(b));
    forall i | 0 <= i < 31
      ensures d[i] == 0
    {
      assert ZERO_ID[i] == 0;
    }
    NumberOfLast(d);
  }

  lemma EndingDistance(b: bv8)
    ensures Distance(ZERO_ID, Ending(b)) == Folded(0, b)
  {
    assert Ending(0) == ZERO_ID;
    EndingsApart(0, b);
  }

  /** The first byte whose distances differ decides, counted from the front. */
  lemma CloserIff(id: Id, id1: Id, id2: Id)
    ensures Closest(id, id1, id2) == 1 <==> exists i :: 0 <= i < 32 && FirstCloser(id, id1, id2, i)
    ensures Closest(id, id1, id2) == 2 <==> exists i :: 0 <= i < 32 && FirstCloser(id, id2, id1, i)
  {
    var d, e := Digits(id, id1), Digits(id, id2);
    if d != e {
      var i := FindDifference(d, e);
      if d[i] < e[i] {
        FirstDifference(d, e, i);
        assert FirstCloser(id, id1, id2, i);
      } else {
        FirstDifference(e, d, i);
        assert FirstCloser(id, id2, id1, i);
      }
    }
    forall i | 0 <= i < 32 && FirstCloser(id, id1, id2, i)
      ensures Closest(id, id1, id2) == 1
    {
      FirstDifference(d, e, i);
    }
    forall i | 0 <= i < 32 && FirstCloser(id, id2, id1, i)
      ensures Closest(id, id1, id2) == 2
    {
      FirstDifference(e, d, i);
    }
  }

  ghost predicate FirstCloser(id: Id, near: Id, far: Id, i: nat)
    requires i < 32
  {
    && (forall j :: 0 <= j < i ==> Folded(id[j], near[j]) == Folded(id[j], far[j]))
    && Folded(id[i], near[i]) < Folded(id[i], far[i])
  }

  /** Last bytes 3, 4 and 1: 4 is 7 away from 3, and 1 is 2 away. */
  lemma CloserExample()
    ensures Closest(Ending(3), Ending(4), Ending(1)) == 2
  {
    EndingsApart(3, 4);
    EndingsApart(3, 1);
    assert 3 as bv8 ^ 4 == 7 && 3 as bv8 ^ 1 == 2;
  }
}

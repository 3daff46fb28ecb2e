/**
 The quicksort of toxcore/misc_tools.h: partition in place around the middle element with two
 pointers that move towards each other, then sort both parts.
 */
module QuickSort {

  /** The comparator answers -1, 0 or 1, and the opposite when its arguments are exchanged. */
  ghost predicate SignedOn<T(!new)>(cmp: (T, T) -> int, dom: set<T>) {
    forall a, b :: a in dom && b in dom ==> cmp(a, b) in {-1, 0, 1} && cmp(a, b) == -cmp(b, a)
  }

  /** A total preorder on the elements of `dom`. */
  ghost predicate PreorderOn<T(!new)>(cmp: (T, T) -> int, dom: set<T>) {
    && SignedOn(cmp, dom)
    && (forall a, b, c :: a in dom && b in dom && c in dom && cmp(a, b) <= 0 && cmp(b, c) <= 0 ==> cmp(a, c) <= 0)
  }

  ghost predicate Sorted<T>(cmp: (T, T) -> int, s: seq<T>, lo: nat, hi: nat)
    requires hi <= |s|
  {
    forall i, j :: lo <= i < j < hi ==> cmp(s[i], s[j]) <= 0
  }

  ghost predicate Within<T>(s: seq<T>, lo: nat, hi: nat, dom: set<T>)
    requires hi <= |s|
  {
    forall i :: lo <= i < hi ==> s[i] in dom
  }

  ghost predicate AllBelow<T>(cmp: (T, T) -> int, s: seq<T>, lo: nat, hi: nat, p: T)
    requires hi <= |s|
  {
    forall i :: lo <= i < hi ==> cmp(s[i], p) <= 0
  }

  ghost predicate AllAbove<T>(cmp: (T, T) -> int, s: seq<T>, lo: nat, hi: nat, p: T)
    requires hi <= |s|
  {
    forall i :: lo <= i < hi ==> cmp(p, s[i]) <= 0
  }

  /** s and t agree outside [lo, hi) and hold the same elements, with multiplicity. */
  ghost predicate Rearranged<T>(s: seq<T>, t: seq<T>, lo: nat, hi: nat) {
    && |s| == |t|
    && lo <= hi <= |s|
    && multiset(s) == multiset(t)
    && (forall i :: 0 <= i < |s| && !(lo <= i < hi) ==> s[i] == t[i])
  }

  lemma SplitMultiset<T>(s: seq<T>, lo: nat, hi: nat)
    requires lo <= hi <= |s|
    ensures multiset(s) == multiset(s[..lo]) + multiset(s[lo..hi]) + multiset(s[hi..])
  {
    assert s == s[..lo] + s[lo..hi] + s[hi..];
  }

  lemma Cancel<T>(x: multiset<T>, y: multiset<T>, c: multiset<T>)
    requires x + c == y + c
    ensures x == y
  {
    assert x == (x + c) - c;
    assert y == (y + c) - c;
  }

  lemma RearrangedRange<T>(s: seq<T>, t: seq<T>, lo: nat, hi: nat)
    requires Rearranged(s, t, lo, hi)
    ensures multiset(s[lo..hi]) == multiset(t[lo..hi])
  {
    SplitMultiset(s, lo, hi);
    SplitMultiset(t, lo, hi);
    assert s[..lo] == t[..lo];
    assert s[hi..] == t[hi..];
    var a, x, y, c := multiset(s[..lo]), multiset(s[lo..hi]), multiset(t[lo..hi]), multiset(s[hi..]);
    Cancel(a + x, a + y, c);
    assert x + a == a + x && y + a == a + y;
    Cancel(x, y, a);
  }

  /** Every element of the rearranged range was there before. */
  lemma RearrangedSource<T>(s: seq<T>, t: seq<T>, lo: nat, hi: nat, i: nat) returns (j: nat)
    requires Rearranged(s, t, lo, hi) && lo <= i < hi
    ensures lo <= j < hi && s[j] == t[i]
  {
    RearrangedRange(s, t, lo, hi);
    assert t[lo..hi][i - lo] in multiset(t[lo..hi]);
    assert t[i] in s[lo..hi];
    var k :| 0 <= k < |s[lo..hi]| && s[lo..hi][k] == t[i];
    j := lo + k;
  }

  lemma RearrangedTrans<T>(s: seq<T>, t: seq<T>, u: seq<T>, lo: nat, hi: nat, lo': nat, hi': nat)
    requires Rearranged(s, t, lo, hi) && Rearranged(t, u, lo', hi') && lo <= lo' && hi' <= hi
    ensures Rearranged(s, u, lo, hi)
  {
  }

  lemma RearrangedWider<T>(s: seq<T>, t: seq<T>, lo: nat, hi: nat, lo': nat, hi': nat)
    requires Rearranged(s, t, lo', hi') && lo <= lo' && hi' <= hi <= |s|
    ensures Rearranged(s, t, lo, hi)
  {
  }

  lemma WithinKept<T>(s: seq<T>, t: seq<T>, lo: nat, hi: nat, dom: set<T>)
    requires Rearranged(s, t, lo, hi) && Within(s, lo, hi, dom)
    ensures Within(t, lo, hi, dom)
  {
    forall i | lo <= i < hi
      ensures t[i] in dom
    {
      var j := RearrangedSource(s, t, lo, hi, i);
    }
  }

  lemma BelowKept<T>(cmp: (T, T) -> int, s: seq<T>, t: seq<T>, lo: nat, hi: nat, p: T)
    requires Rearranged(s, t, lo, hi) && AllBelow(cmp, s, lo, hi, p)
    ensures AllBelow(cmp, t, lo, hi, p)
  {
    forall i | lo <= i < hi
      ensures cmp(t[i], p) <= 0
    {
      var j := RearrangedSource(s, t, lo, hi, i);
    }
  }

  lemma AboveKept<T>(cmp: (T, T) -> int, s: seq<T>, t: seq<T>, lo: nat, hi: nat, p: T)
    requires Rearranged(s, t, lo, hi) && AllAbove(cmp, s, lo, hi, p)
    ensures AllAbove(cmp, t, lo, hi, p)
  {
    forall i | lo <= i < hi
      ensures cmp(p, t[i]) <= 0
    {
      var j := RearrangedSource(s, t, lo, hi, i);
    }
  }

  method Swap<T>(arr: array<T>, i: nat, j: nat, ghost lo: nat, ghost hi: nat)
    requires lo <= i <= j < hi <= arr.Length
    modifies arr
    ensures arr[..] == old(arr[..])[i := old(arr[j])][j := old(arr[i])]
    ensures Rearranged(old(arr[..]), arr[..], lo, hi)
  {
    arr[i], arr[j] := arr[j], arr[i];
  }

  /** Left of l nothing is above the pivot, right of r nothing is below it. */
  ghost predicate Split<T>(cmp: (T, T) -> int, s: seq<T>, lo: nat, hi: nat, l: nat, r: int, p: T, dom: set<T>) {
    && lo <= l <= hi <= |s|
    && lo - 1 <= r < hi
    && Within(s, lo, hi, dom)
    && AllBelow(cmp, s, lo, l, p)
    && AllAbove(cmp, s, r + 1, hi, p)
  }

  lemma MovePointers<T(!new)>(cmp: (T, T) -> int, s: seq<T>, lo: nat, hi: nat, l: nat, r: int, p: T, dom: set<T>)
    requires Split(cmp, s, lo, hi, l, r, p, dom) && l <= r && SignedOn(cmp, dom) && p in dom
    ensures cmp(s[l], p) == -1 ==> Split(cmp, s, lo, hi, l + 1, r, p, dom)
    ensures cmp(s[r], p) == 1 ==> Split(cmp, s, lo, hi, l, r - 1, p, dom)
  {
    assert s[l] in dom && s[r] in dom;
  }

  lemma AfterSwap<T(!new)>(cmp: (T, T) -> int, s: seq<T>, t: seq<T>, lo: nat, hi: nat, l: nat, r: nat, p: T, dom: set<T>)
    requires Split(cmp, s, lo, hi, l, r, p, dom) && l <= r && SignedOn(cmp, dom) && p in dom
    requires cmp(s[l], p) != -1 && cmp(s[r], p) != 1
    requires t == s[l := s[r]][r := s[l]]
    ensures Split(cmp, t, lo, hi, l + 1, r - 1, p, dom)
  {
    assert s[l] in dom && s[r] in dom;
  }

  method SwapAcross<T(!new)>(arr: array<T>, l: nat, r: nat, p: T, cmp: (T, T) -> int,
                             ghost s0: seq<T>, ghost lo: nat, ghost hi: nat, ghost dom: set<T>)
    requires Split(cmp, arr[..], lo, hi, l, r, p, dom) && l <= r && SignedOn(cmp, dom) && p in dom
    requires cmp(arr[l], p) != -1 && cmp(arr[r], p) != 1
    requires Rearranged(s0, arr[..], lo, hi)
    modifies arr
    ensures Split(cmp, arr[..], lo, hi, l + 1, r - 1, p, dom)
    ensures Rearranged(s0, arr[..], lo, hi)
  {
    ghost var s := arr[..];
    Swap(arr, l, r, lo, hi);
    AfterSwap(cmp, s, arr[..], lo, hi, l, r, p, dom);
    RearrangedTrans(s0, s, arr[..], lo, hi, lo, hi);
  }

  /** The pointers stop with r < l; because the pivot is met on both sides, neither part is the whole range. */
  method Partition<T(!new)>(arr: array<T>, lo: nat, n: nat, cmp: (T, T) -> int, ghost dom: set<T>)
    returns (l: nat, r: int, p: T)
    requires 2 <= n && lo + n <= arr.Length && SignedOn(cmp, dom) && Within(arr[..], lo, lo + n, dom)
    modifies arr
    ensures Rearranged(old(arr[..]), arr[..], lo, lo + n)
    ensures lo < l && r < lo + n - 1 && r < l <= r + 2
    ensures p in dom && Split(cmp, arr[..], lo, lo + n, l, r, p, dom)
  {
    ghost var s0, s, hi := arr[..], arr[..], lo + n;
    var m := lo + n / 2;
    p := arr[m];
    l, r := lo, lo + n - 1;
    while l <= r
      invariant l <= r + 2
      invariant arr[..] == s && Rearranged(s0, s, lo, hi)
      invariant Split(cmp, s, lo, hi, l, r, p, dom)
      invariant (l <= m <= r && s[m] == p) || (lo < l && r < hi - 1)
    {
      MovePointers(cmp, s, lo, hi, l, r, p, dom);
      if cmp(arr[l], p) == -1 {
        assert s[l] in dom && cmp(p, p) == -cmp(p, p);
        l := l + 1;
      } else if cmp(arr[r], p) == 1 {
        assert cmp(p, p) == -cmp(p, p);
        r := r - 1;
      } else {
        SwapAcross(arr, l, r, p, cmp, s0, lo, hi, dom);
        s := arr[..];
        l := l + 1;
        r := r - 1;
      }
    }
  }

  /** Two sorted parts around a pivot are sorted as a whole. */
  lemma Combine<T(!new)>(s1: seq<T>, s2: seq<T>, s3: seq<T>, lo: nat, hi: nat, l: nat, r: int, p: T,
                         cmp: (T, T) -> int, dom: set<T>)
    requires PreorderOn(cmp, dom) && p in dom
    requires lo <= r + 1 <= l <= hi <= |s1| && l <= r + 2
    requires Rearranged(s1, s2, lo, r + 1) && Rearranged(s2, s3, l, hi)
    requires Within(s3, lo, hi, dom)
    requires AllBelow(cmp, s1, lo, l, p) && AllAbove(cmp, s1, r + 1, hi, p)
    requires Sorted(cmp, s2, lo, r + 1) && Sorted(cmp, s3, l, hi)
    ensures Sorted(cmp, s3, lo, hi)
  {
    BelowKept(cmp, s1, s2, lo, r + 1, p);
    AboveKept(cmp, s2, s3, l, hi, p);
    assert AllBelow(cmp, s3, lo, l, p);
    assert AllAbove(cmp, s3, r + 1, hi, p);
    forall i, j | lo <= i < j < hi
      ensures cmp(s3[i], s3[j]) <= 0
    {
      if j <= r {
        assert s2[i] == s3[i] && s2[j] == s3[j];
      } else if i < l {
        assert cmp(s3[i], p) <= 0 && cmp(p, s3[j]) <= 0;
      }
    }
  }

  /** Sorts the n elements from lo on: they are in order, and they are the same elements. */
  method Sort<T(!new)>(arr: array<T>, lo: nat, n: nat, cmp: (T, T) -> int, ghost dom: set<T>)
    requires lo + n <= arr.Length && PreorderOn(cmp, dom) && Within(arr[..], lo, lo + n, dom)
    modifies arr
    ensures Sorted(cmp, arr[..], lo, lo + n)
    ensures Rearranged(old(arr[..]), arr[..], lo, lo + n)
    decreases n
  {
    if n < 2 {
      return;
    }
    ghost var s0, hi := arr[..], lo + n;
    var l, r, p := Partition(arr, lo, n, cmp, dom);
    ghost var s1 := arr[..];
    WithinKept(s0, s1, lo, hi, dom);
    Sort(arr, lo, r + 1 - lo, cmp, dom);
    ghost var s2 := arr[..];
    RearrangedWider(s1, s2, lo, hi, lo, r + 1);
    WithinKept(s1, s2, lo, hi, dom);
    Sort(arr, l, lo + n - l, cmp, dom);
    ghost var s3 := arr[..];
    RearrangedTrans(s1, s2, s3, lo, hi, l, hi);
    WithinKept(s1, s3, lo, hi, dom);
    Combine(s1, s2, s3, lo, hi, l, r, p, cmp, dom);
    RearrangedTrans(s0, s1, s3, lo, hi, lo, hi);
  }
}

/** qsort: heapsort in place, for any comparator that is a total preorder. */
module Qsort {
  import opened Words

  type Cmp<!T> = (T, T) -> int

  predicate Le<T>(cmp: Cmp<T>, x: T, y: T) { cmp(x, y) <= 0 }

  ghost predicate Opposite<T(!new)>(cmp: Cmp<T>, x: T, y: T) { cmp(x, y) > 0 <==> cmp(y, x) < 0 }

  ghost predicate Chained<T(!new)>(cmp: Cmp<T>, x: T, y: T, z: T) { Le(cmp, x, y) && Le(cmp, y, z) ==> Le(cmp, x, z) }

  /** what qsort asks of its comparator: the sign flips with the arguments, and
      less-or-equal is transitive */
  ghost predicate TotalPreorder<T(!new)>(cmp: Cmp<T>) {
    && (forall x, y {:trigger Opposite(cmp, x, y)} :: Opposite(cmp, x, y))
    && (forall x, y, z {:trigger Chained(cmp, x, y, z)} :: Chained(cmp, x, y, z))
  }

  ghost predicate Sorted<T>(cmp: Cmp<T>, s: seq<T>) {
    forall i, j | 0 <= i < j < |s| :: Le(cmp, s[i], s[j])
  }

  lemma Trans<T(!new)>(cmp: Cmp<T>, x: T, y: T, z: T)
    requires TotalPreorder(cmp) && Le(cmp, x, y) && Le(cmp, y, z)
    ensures Le(cmp, x, z)
  {
    assert Chained(cmp, x, y, z);
  }

  lemma Either<T(!new)>(cmp: Cmp<T>, x: T, y: T)
    requires TotalPreorder(cmp)
    ensures cmp(x, y) > 0 ==> Le(cmp, y, x)
    ensures Le(cmp, x, x)
  {
    assert Opposite(cmp, x, y) && Opposite(cmp, x, x);
  }

  // ----- sifting down -----

  function Swap<T>(s: seq<T>, i: nat, j: nat): (r: seq<T>)
    requires i < |s| && j < |s|
    ensures |r| == |s|
  {
    s[i := s[j]][j := s[i]]
  }

  lemma SwapPerm<T>(s: seq<T>, i: nat, j: nat)
    requires i < |s| && j < |s|
    ensures multiset(Swap(s, i, j)) == multiset(s)
  {
  }

  /** the greatest of position i and its children below n */
  function Largest<T>(cmp: Cmp<T>, s: seq<T>, n: nat, i: nat): (m: nat)
    requires i < n <= |s|
    ensures m == i || (i < m < n && (m - 1) / 2 == i)
  {
    var l, r := 2 * i + 1, 2 * i + 2;
    var m := if l < n && cmp(s[l], s[i]) > 0 then l else i;
    if r < n && cmp(s[r], s[m]) > 0 then r else m
  }

  function Sift<T>(cmp: Cmp<T>, s: seq<T>, n: nat, i: nat): (r: seq<T>)
    requires i < n <= |s|
    ensures |r| == |s|
    decreases n - i
  {
    var m := Largest(cmp, s, n, i);
    if m == i then s else Sift(cmp, Swap(s, i, m), n, m)
  }

  /** sifting permutes positions i to n - 1 and touches nothing else */
  lemma {:induction false} SiftPerm<T>(cmp: Cmp<T>, s: seq<T>, n: nat, i: nat)
    requires i < n <= |s|
    ensures multiset(Sift(cmp, s, n, i)) == multiset(s)
    ensures forall k: nat | k < |s| && (k < i || k >= n) :: Sift(cmp, s, n, i)[k] == s[k]
    decreases n - i
  {
    var m := Largest(cmp, s, n, i);
    if m != i {
      SwapPerm(s, i, m);
      SiftPerm(cmp, Swap(s, i, m), n, m);
    }
  }

  /** position k is not above its parent */
  ghost predicate Under<T>(cmp: Cmp<T>, s: seq<T>, k: nat)
    requires 0 < k < |s|
  {
    Le(cmp, s[k], s[(k - 1) / 2])
  }

  /** heap order below lo, except perhaps between i and its children */
  ghost predicate HeapBut<T>(cmp: Cmp<T>, s: seq<T>, lo: nat, n: nat, i: int)
    requires n <= |s|
  {
    forall k: nat {:trigger Under(cmp, s, k)} | 0 < k < n && (k - 1) / 2 >= lo && (k - 1) / 2 != i :: Under(cmp, s, k)
  }

  /** the children of i are not above the parent of i */
  ghost predicate Bridged<T>(cmp: Cmp<T>, s: seq<T>, lo: nat, n: nat, i: nat)
    requires i < n <= |s|
  {
    i > 0 && (i - 1) / 2 >= lo ==> forall k: nat {:trigger s[k]} | 0 < k < n && (k - 1) / 2 == i ::
      Le(cmp, s[k], s[(i - 1) / 2])
  }

  /** the largest child, swapped up, restores the order at i */
  lemma SwapUp<T(!new)>(cmp: Cmp<T>, s: seq<T>, lo: nat, n: nat, i: nat, m: nat)
    requires TotalPreorder(cmp) && lo <= i < n <= |s| && m == Largest(cmp, s, n, i) != i
    requires HeapBut(cmp, s, lo, n, i) && Bridged(cmp, s, lo, n, i)
    ensures HeapBut(cmp, Swap(s, i, m), lo, n, m) && Bridged(cmp, Swap(s, i, m), lo, n, m)
  {
    var t := Swap(s, i, m);
    forall k: nat {:trigger Under(cmp, t, k)} | 0 < k < n && (k - 1) / 2 >= lo && (k - 1) / 2 != m
      ensures Under(cmp, t, k)
    {
      SwapUnder(cmp, s, lo, n, i, m, k);
    }
    forall k: nat {:trigger t[k]} | 0 < k < n && (k - 1) / 2 == m ensures Le(cmp, t[k], t[i]) {
      assert Under(cmp, s, k);
    }
  }

  lemma LargestTops<T(!new)>(cmp: Cmp<T>, s: seq<T>, n: nat, i: nat, k: nat)
    requires TotalPreorder(cmp) && i < n <= |s| && 0 < k < n && (k - 1) / 2 == i
    ensures var m := Largest(cmp, s, n, i); Le(cmp, s[k], s[m]) && Le(cmp, s[i], s[m])
  {
    var l, r := 2 * i + 1, 2 * i + 2;
    assert k == l || k == r;
    var m0 := if cmp(s[l], s[i]) > 0 then l else i;
    Either(cmp, s[l], s[i]);
    Either(cmp, s[i], s[i]);
    Either(cmp, s[l], s[l]);
    assert Le(cmp, s[l], s[m0]) && Le(cmp, s[i], s[m0]);
    if r < n {
      Either(cmp, s[r], s[m0]);
      Either(cmp, s[r], s[r]);
      if cmp(s[r], s[m0]) > 0 {
        Trans(cmp, s[l], s[m0], s[r]);
        Trans(cmp, s[i], s[m0], s[r]);
      }
    }
  }

  lemma SwapUnder<T(!new)>(cmp: Cmp<T>, s: seq<T>, lo: nat, n: nat, i: nat, m: nat, k: nat)
    requires TotalPreorder(cmp) && lo <= i < n <= |s| && m == Largest(cmp, s, n, i) != i
    requires HeapBut(cmp, s, lo, n, i) && Bridged(cmp, s, lo, n, i)
    requires 0 < k < n && (k - 1) / 2 >= lo && (k - 1) / 2 != m
    ensures Under(cmp, Swap(s, i, m), k)
  {
    if (k - 1) / 2 == i {
      LargestTops(cmp, s, n, i, k);
    } else if k == i {
      assert Le(cmp, s[m], s[(i - 1) / 2]);
    } else {
      assert Under(cmp, s, k);
    }
  }

  /** Sifting repairs the heap. */
  lemma {:induction false} SiftHeap<T(!new)>(cmp: Cmp<T>, s: seq<T>, lo: nat, n: nat, i: nat)
    requires TotalPreorder(cmp) && lo <= i < n <= |s| && HeapBut(cmp, s, lo, n, i) && Bridged(cmp, s, lo, n, i)
    ensures HeapBut(cmp, Sift(cmp, s, n, i), lo, n, -1)
    decreases n - i
  {
    var m := Largest(cmp, s, n, i);
    if m == i {
      forall k: nat {:trigger Under(cmp, s, k)} | 0 < k < n && (k - 1) / 2 >= lo ensures Under(cmp, s, k) {
        if (k - 1) / 2 == i { LargestTops(cmp, s, n, i, k); }
      }
    } else {
      SwapUp(cmp, s, lo, n, i, m);
      SiftHeap(cmp, Swap(s, i, m), lo, n, m);
    }
  }

  /** the root of a heap is a maximum */
  lemma {:induction false} RootIsMax<T(!new)>(cmp: Cmp<T>, s: seq<T>, n: nat, k: nat)
    requires TotalPreorder(cmp) && k < n <= |s| && HeapBut(cmp, s, 0, n, -1)
    ensures Le(cmp, s[k], s[0])
    decreases k
  {
    if k == 0 {
      Either(cmp, s[0], s[0]);
    } else {
      assert Under(cmp, s, k);
      RootIsMax(cmp, s, n, (k - 1) / 2);
      Trans(cmp, s[k], s[(k - 1) / 2], s[0]);
    }
  }

  /** how often heapify calls itself */
  function SiftDepth<T>(cmp: Cmp<T>, s: seq<T>, n: nat, i: nat): nat
    requires i < n <= |s|
    decreases n - i
  {
    var m := Largest(cmp, s, n, i);
    if m == i then 0 else 1 + SiftDepth(cmp, Swap(s, i, m), n, m)
  }

  /** The recursion is at most logarithmic in the heap size, whatever the comparator. */
  lemma {:induction false} SiftDepthBound<T>(cmp: Cmp<T>, s: seq<T>, n: nat, i: nat)
    requires i < n <= |s|
    ensures Pow2(SiftDepth(cmp, s, n, i)) * (i + 1) <= n
    decreases n - i
  {
    var m := Largest(cmp, s, n, i);
    if m != i {
      var d := SiftDepth(cmp, Swap(s, i, m), n, m);
      SiftDepthBound(cmp, Swap(s, i, m), n, m);
      DoubleBound(Pow2(d), m + 1, i + 1, n);
    }
  }

  lemma DoubleBound(p: nat, m: nat, i: nat, n: nat)
    requires p * m <= n && m >= 2 * i
    ensures 2 * p * i <= n
  {
    assert p * (m - 2 * i) >= 0;
  }

  // ----- the code -----

  /** heapify */
  method Heapify<T>(a: array<T>, n: nat, i: nat, cmp: Cmp<T>)
    requires i < n <= a.Length
    modifies a
    ensures a[..] == Sift(cmp, old(a[..]), n, i)
    decreases n - i
  {
    var largest := i;
    var l, r := 2 * i + 1, 2 * i + 2;
    if l < n && cmp(a[l], a[largest]) > 0 { largest := l; }
    if r < n && cmp(a[r], a[largest]) > 0 { largest := r; }
    assert largest == Largest(cmp, a[..], n, i);
    if largest != i {
      a[i], a[largest] := a[largest], a[i];
      assert a[..] == Swap(old(a[..]), i, largest);
      Heapify(a, n, largest, cmp);
    }
  }

  /** everything before i is at most everything from i on, which is sorted */
  ghost predicate Parted<T>(cmp: Cmp<T>, s: seq<T>, i: nat)
    requires i <= |s|
  {
    && (forall x, y {:trigger s[x], s[y]} | 0 <= x < i <= y < |s| :: Le(cmp, s[x], s[y]))
    && (forall x, y {:trigger s[x], s[y]} | i <= x < y < |s| :: Le(cmp, s[x], s[y]))
  }

  lemma BuildStep<T(!new)>(cmp: Cmp<T>, s: seq<T>, i: nat)
    requires TotalPreorder(cmp) && i < |s| && HeapBut(cmp, s, i + 1, |s|, -1)
    ensures HeapBut(cmp, Sift(cmp, s, |s|, i), i, |s|, -1) && multiset(Sift(cmp, s, |s|, i)) == multiset(s)
  {
    forall k: nat {:trigger Under(cmp, s, k)} | 0 < k < |s| && (k - 1) / 2 >= i && (k - 1) / 2 != i
      ensures Under(cmp, s, k)
    {
    }
    SiftHeap(cmp, s, i, |s|, i);
    SiftPerm(cmp, s, |s|, i);
  }

  /** the maximum goes to the end of the heap */
  lemma MoveMax<T(!new)>(cmp: Cmp<T>, s: seq<T>, i: nat)
    requires TotalPreorder(cmp) && 0 < i < |s| && HeapBut(cmp, s, 0, i + 1, -1) && Parted(cmp, s, i + 1)
    ensures Parted(cmp, Swap(s, 0, i), i) && HeapBut(cmp, Swap(s, 0, i), 0, i, 0)
  {
    var t := Swap(s, 0, i);
    forall x, y {:trigger t[x], t[y]} | 0 <= x < i <= y < |t| ensures Le(cmp, t[x], t[y]) {
      var x' := if x == 0 then i else x;
      assert t[x] == s[x'];
      RootIsMax(cmp, s, i + 1, x');
      if y > i { assert Le(cmp, s[x'], s[y]); }
    }
    forall x, y {:trigger t[x], t[y]} | i <= x < y < |t| ensures Le(cmp, t[x], t[y]) {
      if x == i { assert Le(cmp, s[0], s[y]); } else { assert Le(cmp, s[x], s[y]); }
    }
    forall k: nat {:trigger Under(cmp, t, k)} | 0 < k < i && (k - 1) / 2 >= 0 && (k - 1) / 2 != 0
      ensures Under(cmp, t, k)
    {
      assert Under(cmp, s, k);
    }
  }

  /** sifting the shortened heap keeps the partition */
  lemma SiftParted<T(!new)>(cmp: Cmp<T>, s: seq<T>, i: nat)
    requires TotalPreorder(cmp) && 0 < i < |s| && Parted(cmp, s, i) && HeapBut(cmp, s, 0, i, 0)
    ensures var r := Sift(cmp, s, i, 0); Parted(cmp, r, i) && HeapBut(cmp, r, 0, i, -1) && multiset(r) == multiset(s)
  {
    var r := Sift(cmp, s, i, 0);
    SiftHeap(cmp, s, 0, i, 0);
    SiftPerm(cmp, s, i, 0);
    FrontPerm(s, r, i);
    forall x, y {:trigger r[x], r[y]} | 0 <= x < i <= y < |r| ensures Le(cmp, r[x], r[y]) {
      var x' := Origin(s[..i], r[..i], x);
      assert Le(cmp, s[x'], s[y]);
    }
    forall x, y {:trigger r[x], r[y]} | i <= x < y < |r| ensures Le(cmp, r[x], r[y]) {
      assert Le(cmp, s[x], s[y]);
    }
  }

  lemma FrontPerm<T>(s: seq<T>, r: seq<T>, i: nat)
    requires i <= |s| == |r| && multiset(s) == multiset(r) && forall k: nat | i <= k < |s| :: r[k] == s[k]
    ensures multiset(r[..i]) == multiset(s[..i])
  {
    assert s == s[..i] + s[i..] && r == r[..i] + r[i..];
    assert s[i..] == r[i..];
    assert multiset(s) == multiset(s[..i]) + multiset(s[i..]);
    assert multiset(r) == multiset(r[..i]) + multiset(r[i..]);
    Cancel(multiset(r[..i]), multiset(s[..i]), multiset(s[i..]));
  }

  lemma Cancel<T>(x: multiset<T>, y: multiset<T>, z: multiset<T>)
    requires x + z == y + z
    ensures x == y
  {
    assert x == (x + z) - z && y == (y + z) - z;
  }

  lemma Origin<T>(s: seq<T>, r: seq<T>, x: nat) returns (x': nat)
    requires multiset(s) == multiset(r) && x < |r|
    ensures x' < |s| && s[x'] == r[x]
  {
    assert r[x] in multiset(r);
    assert r[x] in multiset(s);
    x' :| x' < |s| && s[x'] == r[x];
  }

  /** For every array and every total preorder, qsort leaves a sorted permutation
      of its input. */
  method QSort<T(!new)>(a: array<T>, cmp: Cmp<T>)
    requires TotalPreorder(cmp)
    modifies a
    ensures Sorted(cmp, a[..]) && multiset(a[..]) == multiset(old(a[..]))
  {
    var n := a.Length;
    if n <= 1 { return; }
    var i := n / 2 - 1;
    while i >= 0
      invariant -1 <= i < n && multiset(a[..]) == multiset(old(a[..])) && HeapBut(cmp, a[..], i + 1, n, -1)
    {
      BuildStep(cmp, a[..], i);
      Heapify(a, n, i, cmp);
      i := i - 1;
    }
    i := n - 1;
    while i > 0
      invariant 0 <= i < n && multiset(a[..]) == multiset(old(a[..]))
      invariant HeapBut(cmp, a[..], 0, i + 1, -1) && Parted(cmp, a[..], i + 1)
    {
      ghost var s := a[..];
      MoveMax(cmp, s, i);
      SwapPerm(s, 0, i);
      a[0], a[i] := a[i], a[0];
      assert a[..] == Swap(s, 0, i);
      SiftParted(cmp, a[..], i);
      Heapify(a, i, 0, cmp);
      i := i - 1;
    }
    AllSorted(cmp, a[..]);
  }

  lemma AllSorted<T>(cmp: Cmp<T>, s: seq<T>)
    requires |s| > 0 && Parted(cmp, s, 1)
    ensures Sorted(cmp, s)
  {
    forall i, j | 0 <= i < j < |s| ensures Le(cmp, s[i], s[j]) {}
  }
}

/**
 The in-place int64 sort of the runtime: insertion sort below sixteen elements,
 otherwise median-of-3 quicksort with unguarded scans, recursing on the smaller side
 only and looping on the larger one.
 */
module Sort {
  import opened Powers

  ghost predicate Sorted(s: seq<int>) {
    forall i, j :: 0 <= i < j < |s| ==> s[i] <= s[j]
  }

  /** `t` differs from `s` only by reordering positions `lo..hi` (both ends included). */
  ghost predicate Reorders(s: seq<int>, t: seq<int>, lo: int, hi: int) {
    && |s| == |t|
    && multiset(s) == multiset(t)
    && forall k :: 0 <= k < |s| && !(lo <= k <= hi) ==> s[k] == t[k]
  }

  /** The largest exponent whose power of two does not exceed `n`. */
  ghost function Log2(n: nat): (e: nat)
    requires n > 0
    ensures Pow2(e) <= n < Pow2(e + 1)
  {
    if n == 1 then 0 else Log2(n / 2) + 1
  }

  lemma {:induction false} ReordersTrans(s: seq<int>, t: seq<int>, u: seq<int>, lo: int, hi: int, lo': int, hi': int)
    requires Reorders(s, t, lo, hi) && Reorders(t, u, lo', hi')
    ensures Reorders(s, u, if lo <= lo' then lo else lo', if hi >= hi' then hi else hi')
  {
  }

  /** A reordering of a window permutes exactly the window. */
  lemma {:induction false} WindowMultiset(s: seq<int>, t: seq<int>, lo: nat, hi: int)
    requires Reorders(s, t, lo, hi) && lo <= hi + 1 <= |s|
    ensures multiset(s[lo..hi + 1]) == multiset(t[lo..hi + 1])
  {
    var n := hi + 1;
    MiddleMultiset(s, lo, n);
    MiddleMultiset(t, lo, n);
    assert s[..lo] == t[..lo];
    assert s[n..] == t[n..];
  }

  lemma {:induction false} MiddleMultiset(s: seq<int>, lo: nat, n: nat)
    requires lo <= n <= |s|
    ensures multiset(s[lo..n]) == multiset(s) - multiset(s[..lo]) - multiset(s[n..])
  {
    assert s == s[..lo] + s[lo..n] + s[n..];
  }

  /** Every value in the reordered window was in the window before. */
  lemma {:induction false} WindowMember(s: seq<int>, t: seq<int>, lo: nat, hi: int, k: int) returns (k': int)
    requires Reorders(s, t, lo, hi) && lo <= k <= hi < |s|
    ensures lo <= k' <= hi && s[k'] == t[k]
  {
    WindowMultiset(s, t, lo, hi);
    var w := s[lo..hi + 1];
    assert t[lo..hi + 1][k - lo] == t[k];
    assert t[k] in multiset(t[lo..hi + 1]);
    assert t[k] in w;
    var d :| 0 <= d < |w| && w[d] == t[k];
    k' := lo + d;
  }

  /** Bounds on a window survive reordering it. */
  lemma {:induction false} WindowBounds(s: seq<int>, t: seq<int>, lo: nat, hi: int, pivot: int)
    requires Reorders(s, t, lo, hi) && lo <= hi + 1 <= |s|
    ensures (forall k :: lo <= k <= hi ==> s[k] <= pivot) ==> (forall k :: lo <= k <= hi ==> t[k] <= pivot)
    ensures (forall k :: lo <= k <= hi ==> s[k] >= pivot) ==> (forall k :: lo <= k <= hi ==> t[k] >= pivot)
  {
    forall k | lo <= k <= hi
      ensures exists k' :: lo <= k' <= hi && s[k'] == t[k]
    {
      var k' := WindowMember(s, t, lo, hi, k);
    }
  }

  lemma {:induction false} SwapReorders(s: seq<int>, t: seq<int>, i: int, j: int, lo: int, hi: int)
    requires 0 <= i < |s| && 0 <= j < |s| && lo <= i <= hi && lo <= j <= hi
    requires t == s[i := s[j]][j := s[i]]
    ensures Reorders(s, t, lo, hi)
  {
    var m := s[i := s[j]];
    assert multiset(m) == multiset(s) - multiset{s[i]} + multiset{s[j]};
    assert multiset(t) == multiset(m) - multiset{m[j]} + multiset{s[i]};
  }

  /** The element at `i` has moved down to `j`, those between have shifted up by one. */
  ghost predicate Rotated(s: seq<int>, t: seq<int>, j: int, i: int) {
    && 0 <= j <= i < |s| == |t|
    && t[j] == s[i]
    && (forall p :: j < p <= i ==> t[p] == s[p - 1])
    && (forall p :: 0 <= p < |s| && !(j <= p <= i) ==> t[p] == s[p])
  }

  lemma {:induction false} RotatedReorders(s: seq<int>, t: seq<int>, j: int, i: int, lo: int)
    requires Rotated(s, t, j, i) && lo <= j
    ensures Reorders(s, t, lo, i)
  {
    assert s == s[..j] + s[j..i] + [s[i]] + s[i + 1..];
    assert t == s[..j] + [s[i]] + s[j..i] + s[i + 1..];
    assert multiset(s) == multiset(s[..j]) + multiset(s[j..i]) + multiset{s[i]} + multiset(s[i + 1..]);
    assert multiset(t) == multiset(s[..j]) + multiset{s[i]} + multiset(s[j..i]) + multiset(s[i + 1..]);
  }

  /** Rotating into the right place extends the sorted run. */
  lemma {:induction false} RotatedSorted(s: seq<int>, t: seq<int>, lo: nat, j: int, i: int)
    requires Rotated(s, t, j, i) && lo <= j
    requires forall p, q :: lo <= p < q < i ==> s[p] <= s[q]
    requires j == lo || s[j - 1] <= s[i]
    requires forall p :: j <= p < i ==> s[i] < s[p]
    ensures forall p, q :: lo <= p < q <= i ==> t[p] <= t[q]
  {
    forall p, q | lo <= p < q <= i
      ensures t[p] <= t[q]
    {
      if q < j {
      } else if q == j {
        assert p == j - 1 || s[p] <= s[j - 1];
      } else if p < j {
        assert p < q - 1;
      } else if p > j {
        assert p - 1 < q - 1;
      }
    }
  }

  method Swap(a: array<int>, i: int, j: int, ghost lo: int, ghost hi: int)
    requires 0 <= lo <= i <= hi < a.Length && lo <= j <= hi
    modifies a
    ensures a[i] == old(a[j]) && a[j] == old(a[i])
    ensures forall k :: 0 <= k < a.Length && k != i && k != j ==> a[k] == old(a[k])
    ensures Reorders(old(a[..]), a[..], lo, hi)
  {
    a[i], a[j] := a[j], a[i];
    SwapReorders(old(a[..]), a[..], i, j, lo, hi);
  }

  /** The inner loop: moves `a[i]` below the larger elements that precede it. */
  method ShiftDown(a: array<int>, lo: nat, i: int) returns (ghost j: int)
    requires lo < i < a.Length
    modifies a
    ensures lo <= j && Rotated(old(a[..]), a[..], j, i)
    ensures j == lo || old(a[j - 1]) <= old(a[i])
    ensures forall p :: j <= p < i ==> old(a[i]) < old(a[..])[p]
  {
    ghost var s := a[..];
    var key := a[i];
    var k := i;
    while k > lo && a[k - 1] > key
      invariant lo <= k <= i
      invariant forall p :: 0 <= p < a.Length && !(k < p <= i) ==> a[p] == s[p]
      invariant forall p :: k < p <= i ==> a[p] == s[p - 1]
      invariant forall p :: k <= p < i ==> key < s[p]
    {
      a[k] := a[k - 1];
      k := k - 1;
    }
    a[k] := key;
    j := k;
  }

  /** Inserts `a[i]` into the sorted run `lo..i - 1` below it. */
  method Insert(a: array<int>, lo: nat, i: int)
    requires lo < i < a.Length
    requires forall p, q :: lo <= p < q < i ==> a[p] <= a[q]
    modifies a
    ensures forall p, q :: lo <= p < q <= i ==> a[p] <= a[q]
    ensures Reorders(old(a[..]), a[..], lo, i)
  {
    ghost var s := a[..];
    ghost var j := ShiftDown(a, lo, i);
    RotatedReorders(s, a[..], j, i, lo);
    RotatedSorted(s, a[..], lo, j, i);
  }

  /** The branch for ranges shorter than sixteen, correct for a range of any length. */
  method InsertionSort(a: array<int>, lo: nat, hi: int)
    requires lo <= hi < a.Length
    modifies a
    ensures Sorted(a[lo..hi + 1])
    ensures Reorders(old(a[..]), a[..], lo, hi)
  {
    var i := lo + 1;
    while i <= hi
      invariant lo + 1 <= i <= hi + 1
      invariant forall p, q :: lo <= p < q < i ==> a[p] <= a[q]
      invariant Reorders(old(a[..]), a[..], lo, hi)
    {
      ghost var before := a[..];
      Insert(a, lo, i);
      ReordersTrans(old(a[..]), before, a[..], lo, hi, lo, i);
      i := i + 1;
    }
  }

  /** Exchanges `a[i]` and `a[j]` when they are out of order. */
  method SwapIfGreater(a: array<int>, i: int, j: int, ghost s: seq<int>, ghost lo: int, ghost hi: int)
    requires 0 <= lo <= i <= hi < a.Length && lo <= j <= hi && i != j
    requires Reorders(s, a[..], lo, hi)
    modifies a
    ensures a[i] <= a[j]
    ensures a[i] == old(a[i]) || (a[i] == old(a[j]) < old(a[i]))
    ensures a[j] == old(a[j]) || (a[j] == old(a[i]) > old(a[j]))
    ensures forall k :: 0 <= k < a.Length && k != i && k != j ==> a[k] == old(a[k])
    ensures Reorders(s, a[..], lo, hi)
  {
    if a[i] > a[j] {
      Swap(a, i, j, lo, hi);
    }
  }

  /** Orders the first, middle and last element and parks the median at `hi - 1`. */
  method MedianOfThree(a: array<int>, lo: nat, hi: int) returns (pivot: int)
    requires lo + 16 <= hi < a.Length
    modifies a
    ensures a[lo] <= pivot <= a[hi] && a[hi - 1] == pivot
    ensures Reorders(old(a[..]), a[..], lo, hi)
  {
    ghost var s := a[..];
    var mid := lo + (hi - lo) / 2;
    SwapIfGreater(a, lo, mid, s, lo, hi);
    SwapIfGreater(a, lo, hi, s, lo, hi);
    SwapIfGreater(a, mid, hi, s, lo, hi);
    pivot := a[mid];
    Swap(a, mid, hi - 1, lo, hi);
  }

  /**
   The partition loop. Neither scan tests a bound: a value not below the pivot stops the
   upward scan at `j` at the latest, a value not above it stops the downward scan at `lo` at
   the latest, so every read stays in `lo..hi`.
   */
  method Partition(a: array<int>, lo: nat, hi: int, pivot: int) returns (i: int)
    requires lo + 16 <= hi < a.Length
    requires a[lo] <= pivot <= a[hi] && a[hi - 1] == pivot
    modifies a
    ensures lo < i < hi && a[i] == pivot
    ensures forall k :: lo <= k < i ==> a[k] <= pivot
    ensures forall k :: i < k <= hi ==> a[k] >= pivot
    ensures Reorders(old(a[..]), a[..], lo, hi)
  {
    i := lo;
    var j := hi - 1;
    while true
      invariant lo <= i < j <= hi - 1
      invariant forall k :: lo <= k <= i ==> a[k] <= pivot
      invariant forall k :: j <= k <= hi ==> a[k] >= pivot
      invariant a[hi - 1] == pivot
      invariant Reorders(old(a[..]), a[..], lo, hi)
      decreases j - i
    {
      i, j := Scan(a, lo, hi, pivot, i, j);
      if i >= j { break; }
      Swap(a, i, j, lo, hi);
    }
    Swap(a, i, hi - 1, lo, hi);
  }

  /** One round of the two unguarded scans. */
  method Scan(a: array<int>, lo: nat, hi: int, pivot: int, i0: int, j0: int) returns (i: int, j: int)
    requires lo <= i0 < j0 <= hi - 1 && hi < a.Length
    requires forall k :: lo <= k <= i0 ==> a[k] <= pivot
    requires forall k :: j0 <= k <= hi ==> a[k] >= pivot
    ensures i0 < i <= j0 && lo <= j < j0
    ensures forall k :: lo <= k < i ==> a[k] <= pivot
    ensures forall k :: j < k <= hi ==> a[k] >= pivot
    ensures a[i] >= pivot >= a[j]
    ensures i >= j ==> forall k :: i <= k <= hi ==> a[k] >= pivot
  {
    i, j := i0 + 1, j0 - 1;
    while a[i] < pivot
      invariant i0 < i <= j0
      invariant forall k :: lo <= k < i ==> a[k] <= pivot
      decreases j0 - i
    {
      i := i + 1;
    }
    while a[j] > pivot
      invariant lo <= j < j0
      invariant forall k :: j < k <= hi ==> a[k] >= pivot
      decreases j
    {
      j := j - 1;
    }
  }

  /** Of `lo0..hi0`, only pairs lying wholly inside `lo..hi` may still be out of order. */
  ghost predicate SortedOutside(s: seq<int>, lo0: nat, lo: int, hi: int, hi0: int)
    requires hi0 < |s|
  {
    forall p, q :: lo0 <= p < q <= hi0 && (p < lo || hi < q) ==> s[p] <= s[q]
  }

  lemma {:induction false} SortedOutsideKept(s: seq<int>, t: seq<int>, lo0: nat, lo: int, hi: int, hi0: int)
    requires lo0 <= lo <= hi <= hi0 < |s| == |t|
    requires SortedOutside(s, lo0, lo, hi, hi0) && Reorders(s, t, lo, hi)
    ensures SortedOutside(t, lo0, lo, hi, hi0)
  {
    forall p, q | lo0 <= p < q <= hi0 && (p < lo || hi < q)
      ensures t[p] <= t[q]
    {
      if lo <= p <= hi {
        var p' := WindowMember(s, t, lo, hi, p);
      } else if lo <= q <= hi {
        var q' := WindowMember(s, t, lo, hi, q);
      }
    }
  }

  /** Sorting one side of the pivot leaves only the other side open. */
  lemma {:induction false} SideSorted(s: seq<int>, t: seq<int>, lo0: nat, lo: int, i: int, hi: int, hi0: int, left: bool)
    requires lo0 <= lo < i < hi <= hi0 < |s| == |t|
    requires SortedOutside(s, lo0, lo, hi, hi0)
    requires forall k :: lo <= k < i ==> s[k] <= s[i]
    requires forall k :: i < k <= hi ==> s[k] >= s[i]
    requires if left then Reorders(s, t, lo, i - 1) && Sorted(t[lo..i]) else Reorders(s, t, i + 1, hi) && Sorted(t[i + 1..hi + 1])
    ensures if left then SortedOutside(t, lo0, i + 1, hi, hi0) else SortedOutside(t, lo0, lo, i - 1, hi0)
  {
    SortedOutsideKept(s, t, lo0, lo, hi, hi0);
    if left {
      WindowBounds(s, t, lo, i - 1, s[i]);
      forall p, q | lo <= p < q < i ensures t[p] <= t[q] {
        assert t[lo..i][p - lo] <= t[lo..i][q - lo];
      }
    } else {
      WindowBounds(s, t, i + 1, hi, s[i]);
      forall p, q | i < p < q <= hi ensures t[p] <= t[q] {
        assert t[i + 1..hi + 1][p - i - 1] <= t[i + 1..hi + 1][q - i - 1];
      }
    }
  }

  /** Chooses the pivot and partitions around it. */
  method Split(a: array<int>, lo: nat, hi: int) returns (i: int)
    requires lo + 16 <= hi < a.Length
    modifies a
    ensures lo < i < hi
    ensures forall k :: lo <= k < i ==> a[k] <= a[i]
    ensures forall k :: i < k <= hi ==> a[k] >= a[i]
    ensures Reorders(old(a[..]), a[..], lo, hi)
  {
    var pivot := MedianOfThree(a, lo, hi);
    i := Partition(a, lo, hi, pivot);
  }

  /**
   One round of the outer loop on a long range: split, sort the smaller side by a recursive
   call, and hand back the larger side as the range still open.
   */
  method Round(a: array<int>, ghost lo0: nat, lo: nat, hi: int, ghost hi0: int, ghost levels: nat)
    returns (lo': nat, hi': int)
    requires lo0 <= lo && lo + 16 <= hi <= hi0 < a.Length
    requires SortedOutside(a[..], lo0, lo, hi, hi0)
    requires hi - lo + 1 < Pow2(levels + 1)
    modifies a
    ensures lo <= lo' <= hi' + 1 <= hi + 1 && hi' - lo' < hi - lo
    ensures SortedOutside(a[..], lo0, lo', hi', hi0)
    ensures Reorders(old(a[..]), a[..], lo, hi)
    decreases levels, 0
  {
    ghost var s := a[..];
    var i := Split(a, lo, hi);
    ghost var t := a[..];
    SortedOutsideKept(s, t, lo0, lo, hi, hi0);
    if i - lo < hi - i {
      SortRange(a, lo, i - 1, levels - 1);
      SideSorted(t, a[..], lo0, lo, i, hi, hi0, true);
      lo', hi' := i + 1, hi;
      ReordersTrans(s, t, a[..], lo, hi, lo, i - 1);
    } else {
      SortRange(a, i + 1, hi, levels - 1);
      SideSorted(t, a[..], lo0, lo, i, hi, hi0, false);
      lo', hi' := lo, i - 1;
      ReordersTrans(s, t, a[..], lo, hi, i + 1, hi);
    }
  }

  /**
   Sorts `a[lo0..hi0]` in place. `levels` bounds how deep the calls nest: each recursive call
   runs with one level less, and any number of levels whose power of two reaches half the
   length is enough, so the stack stays logarithmic.
   */
  method SortRange(a: array<int>, lo0: nat, hi0: int, ghost levels: nat)
    requires lo0 <= hi0 + 1 <= a.Length
    requires hi0 - lo0 + 1 < Pow2(levels + 1)
    modifies a
    ensures Sorted(a[lo0..hi0 + 1])
    ensures Reorders(old(a[..]), a[..], lo0, hi0)
    decreases levels, 1
  {
    var lo, hi := lo0, hi0;
    while lo < hi
      invariant lo0 <= lo <= hi + 1 <= hi0 + 1
      invariant SortedOutside(a[..], lo0, lo, hi, hi0)
      invariant Reorders(old(a[..]), a[..], lo0, hi0)
      decreases hi - lo + 1
    {
      ghost var s := a[..];
      if hi - lo < 16 {
        InsertionSort(a, lo, hi);
        ReordersTrans(old(a[..]), s, a[..], lo0, hi0, lo, hi);
        SortedOutsideKept(s, a[..], lo0, lo, hi, hi0);
        WindowSorted(a[..], lo0, lo, hi, hi0);
        return;
      }
      ghost var lo1, hi1 := lo, hi;
      lo, hi := Round(a, lo0, lo, hi, hi0, levels);
      ReordersTrans(old(a[..]), s, a[..], lo0, hi0, lo1, hi1);
    }
  }

  /** Sorting the last open range sorts everything. */
  lemma {:induction false} WindowSorted(s: seq<int>, lo0: nat, lo: int, hi: int, hi0: int)
    requires lo0 <= lo <= hi <= hi0 < |s|
    requires SortedOutside(s, lo0, lo, hi, hi0) && Sorted(s[lo..hi + 1])
    ensures Sorted(s[lo0..hi0 + 1])
  {
    forall p, q | lo <= p < q <= hi ensures s[p] <= s[q] {
      assert s[lo..hi + 1][p - lo] <= s[lo..hi + 1][q - lo];
    }
  }

  /** Copies, then sorts the copy: the argument is left alone. */
  method ArraySort(a: array<int>) returns (r: array<int>)
    ensures fresh(r)
    ensures Sorted(r[..]) && multiset(r[..]) == multiset(a[..])
    ensures a[..] == old(a[..])
  {
    r := new int[a.Length](i requires 0 <= i < a.Length reads a => a[i]);
    assert r[..] == a[..];
    if r.Length > 1 {
      SortRange(r, 0, r.Length - 1, Log2(r.Length));
      assert r[..] == r[0..r.Length];
    }
  }
}

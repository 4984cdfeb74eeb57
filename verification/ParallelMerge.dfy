/** Rotation, in-place stable merge and stable sort over an array range.

    A pair of random-access iterators is an array with two indices.  The two branches of a
    parallel_invoke work on disjoint ranges; here they run one after the other in an arbitrary order.
 */
module ParallelMerge {
  import opened StableOrder

  /* ---------------------------------------------------------------- ranges of a sequence */

  /** s and t agree outside [first, last). */
  ghost predicate Outside<T>(s: seq<T>, t: seq<T>, first: nat, last: nat) {
    |s| == |t| && forall p :: 0 <= p < |s| && !(first <= p < last) ==> s[p] == t[p]
  }

  ghost predicate SortedRange<T>(lt: Less<T>, s: seq<T>, first: nat, last: nat) {
    last <= |s| && forall p, q :: first <= p < q < last ==> Leq(lt, s[p], s[q])
  }

  /** Everything in [first, m) may stand before everything in [m, last). */
  ghost predicate Below<T>(lt: Less<T>, s: seq<T>, first: nat, m: nat, last: nat) {
    m <= last <= |s| && forall p, q :: first <= p < m <= q < last ==> Leq(lt, s[p], s[q])
  }

  /** [first, last) of s holds the elements of the same range of t, class by class if stable. */
  ghost predicate RearrangedRange<T(!new)>(lt: Less<T>, stable: bool, s: seq<T>, t: seq<T>, first: nat, last: nat) {
    first <= last <= |s| == |t| && Rearranged(lt, stable, s[first..last], t[first..last])
  }

  lemma SliceConcat<T>(s: seq<T>, i: nat, j: nat, k: nat)
    requires i <= j <= k <= |s|
    ensures s[i..k] == s[i..j] + s[j..k]
  {
  }

  lemma SliceKept<T>(s: seq<T>, t: seq<T>, first: nat, last: nat, i: nat, j: nat)
    requires Outside(s, t, first, last) && i <= j <= |s| && (j <= first || last <= i)
    ensures s[i..j] == t[i..j]
  {
  }

  lemma RearrangedJoin<T(!new)>(lt: Less<T>, stable: bool, s: seq<T>, t: seq<T>, first: nat, m: nat, last: nat)
    requires RearrangedRange(lt, stable, s, t, first, m) && RearrangedRange(lt, stable, s, t, m, last)
    ensures RearrangedRange(lt, stable, s, t, first, last)
  {
    SliceConcat(s, first, m, last);
    SliceConcat(t, first, m, last);
    if stable { SameClassesConcat(lt, s[first..m], t[first..m], s[m..last], t[m..last]); }
  }

  lemma RearrangedTransitive<T(!new)>(lt: Less<T>, stable: bool, s: seq<T>, t: seq<T>, u: seq<T>, first: nat, last: nat)
    requires RearrangedRange(lt, stable, s, t, first, last) && RearrangedRange(lt, stable, t, u, first, last)
    ensures RearrangedRange(lt, stable, s, u, first, last)
  {
  }

  /** Sorted halves whose elements come from a lower and a higher block make a sorted whole. */
  lemma SortedJoin<T(!new)>(lt: Less<T>, stable: bool, s: seq<T>, t: seq<T>, first: nat, m: nat, last: nat)
    requires RearrangedRange(lt, stable, s, t, first, m) && RearrangedRange(lt, stable, s, t, m, last)
    requires SortedRange(lt, s, first, m) && SortedRange(lt, s, m, last) && Below(lt, t, first, m, last)
    ensures SortedRange(lt, s, first, last)
  {
    forall p, q | first <= p < m <= q < last ensures Leq(lt, s[p], s[q]) {
      var i := Origin(s, t, first, m, p);
      var j := Origin(s, t, m, last, q);
    }
  }

  lemma Origin<T>(s: seq<T>, t: seq<T>, first: nat, last: nat, p: nat) returns (i: nat)
    requires first <= p < last <= |s| == |t| && multiset(s[first..last]) == multiset(t[first..last])
    ensures first <= i < last && t[i] == s[p]
  {
    assert s[p] == s[first..last][p - first];
    assert s[p] in multiset(s[first..last]);
    assert s[p] in t[first..last];
    var k :| 0 <= k < last - first && t[first..last][k] == s[p];
    i := first + k;
  }

  /* ---------------------------------------------------------------- reverse and rotate */

  /** Position p is one of those that the swaps of [i, j) touch. */
  ghost predicate Swapped(p: int, first: int, last: int, i: int, j: int) {
    first + i <= p < first + j || last - j <= p < last - i
  }

  /** The swapping loop over [i, j), counted from first; the mirror index is counted from last. */
  method ReverseLoop<T>(a: array<T>, first: nat, last: nat, i: nat, j: nat, cutoff: nat)
    requires first <= last <= a.Length && i <= j && 2 * j <= last - first && cutoff >= 1
    modifies a
    ensures forall p {:trigger a[p]} :: 0 <= p < a.Length ==>
              a[p] == if Swapped(p, first, last, i, j) then old(a[first + last - 1 - p]) else old(a[p])
    decreases j - i
  {
    if j - i <= cutoff {
      for k := i to j
        invariant forall p {:trigger a[p]} :: 0 <= p < a.Length ==>
                    a[p] == if Swapped(p, first, last, i, k) then old(a[first + last - 1 - p]) else old(a[p])
      {
        a[first + k], a[last - 1 - k] := a[last - 1 - k], a[first + k];
      }
    } else {
      var mid := i + (j - i) / 2;
      var leftFirst: bool := *;
      if leftFirst {
        ReverseLoop(a, first, last, i, mid, cutoff);
        ReverseLoop(a, first, last, mid, j, cutoff);
      } else {
        ReverseLoop(a, first, last, mid, j, cutoff);
        ReverseLoop(a, first, last, i, mid, cutoff);
      }
    }
  }

  method Reverse<T>(a: array<T>, first: nat, last: nat, cutoff: nat)
    requires first <= last <= a.Length && cutoff >= 1
    modifies a
    ensures forall p {:trigger a[p]} :: 0 <= p < a.Length ==>
              a[p] == if first <= p < last then old(a[first + last - 1 - p]) else old(a[p])
  {
    ReverseLoop(a, first, last, 0, (last - first) / 2, cutoff);
  }

  /** t is s with [s1, middle) and [middle, s2) exchanged. */
  ghost predicate Rotated<T>(s: seq<T>, t: seq<T>, s1: nat, middle: nat, s2: nat) {
    && s1 <= middle <= s2 <= |s| == |t|
    && var m := s1 + (s2 - middle);
       forall p {:trigger t[p]} :: 0 <= p < |s| ==>
         t[p] == if s1 <= p < m then s[p - s1 + middle] else if m <= p < s2 then s[p - m + s1] else s[p]
  }

  /** Left rotation by three reversals; m is where the old first element lands. */
  method Rotate<T>(a: array<T>, first: nat, middle: nat, last: nat, cutoff: nat) returns (m: nat)
    requires first <= middle <= last <= a.Length && cutoff >= 1
    modifies a
    ensures m == first + (last - middle)
    ensures Rotated(old(a[..]), a[..], first, middle, last)
  {
    if first == middle { return last; }
    if middle == last { return first; }
    ghost var was := a[..];
    ReverseBoth(a, first, middle, last, cutoff);
    Reverse(a, first, last, cutoff);
    assert forall p {:trigger a[p]} :: 0 <= p < a.Length ==>
             a[p] == if first <= p < first + (last - middle) then was[p - first + middle]
                     else if first + (last - middle) <= p < last then was[p - (first + (last - middle)) + first]
                     else was[p];
    return first + (last - middle);
  }

  method ReverseBoth<T>(a: array<T>, first: nat, middle: nat, last: nat, cutoff: nat)
    requires first <= middle <= last <= a.Length && cutoff >= 1
    modifies a
    ensures forall p {:trigger a[p]} :: 0 <= p < a.Length ==>
              a[p] == if first <= p < middle then old(a[first + middle - 1 - p])
                      else if middle <= p < last then old(a[middle + last - 1 - p])
                      else old(a[p])
  {
    var leftFirst: bool := *;
    if leftFirst {
      Reverse(a, first, middle, cutoff);
      Reverse(a, middle, last, cutoff);
    } else {
      Reverse(a, middle, last, cutoff);
      Reverse(a, first, middle, cutoff);
    }
  }

  /* ---------------------------------------------------------------- split points */

  /** Cutting [f1, l1) at i1 and [f2, l2) at i2 leaves everything on the left below everything on the right. */
  ghost predicate IsSplit<T>(lt: Less<T>, s: seq<T>, f1: nat, i1: nat, l1: nat, f2: nat, i2: nat, l2: nat) {
    && f1 <= i1 <= l1 <= |s| && f2 <= i2 <= l2 <= |s|
    && (f1 < i1 && i2 < l2 ==> Leq(lt, s[i1 - 1], s[i2]))
    && (f2 < i2 && i1 < l1 ==> Leq(lt, s[i2 - 1], s[i1]))
  }

  /** A split that is not at both begins nor at both ends; a full exchange is strictly out of order. */
  ghost predicate GoodCut<T>(lt: Less<T>, s: seq<T>, f1: nat, i1: nat, l1: nat, f2: nat, i2: nat, l2: nat) {
    && IsSplit(lt, s, f1, i1, l1, f2, i2, l2)
    && !(i1 == f1 && i2 == f2) && !(i1 == l1 && i2 == l2)
    && (i1 == f1 < l1 && f2 < i2 == l2 ==> lt(s[l2 - 1], s[f1]))
    && (f1 < i1 == l1 && i2 == f2 < l2 ==> lt(s[l1 - 1], s[f2]))
  }

  /** The two-sided binary search over the larger range. */
  method FindSplitPoints<T(!new)>(lt: Less<T>, a: array<T>, f1: nat, l1: nat, f2: nat, l2: nat)
    returns (i1: nat, i2: nat)
    requires StrictWeakOrder(lt)
    requires f1 < l1 <= a.Length && f2 < l2 <= a.Length && (l1 - f1) + (l2 - f2) >= 3
    requires SortedRange(lt, a[..], f1, l1) && SortedRange(lt, a[..], f2, l2)
    ensures GoodCut(lt, a[..], f1, i1, l1, f2, i2, l2)
    decreases l1 - f1 > l2 - f2
  {
    var n1, n2 := l1 - f1, l2 - f2;
    if n1 > n2 {
      i2, i1 := FindSplitPoints(lt, a, f2, l2, f1, l1);
      return;
    }
    var m := (n1 + n2) / 2;
    if n1 == 1 {
      var it2 := f2 + m;
      assert f2 <= it2 - 1 && it2 < l2;
      if lt(a[f1], a[it2]) {
        LtIsLeq(lt, a[f1], a[it2]);
        return l1, it2;
      } else {
        LeqTransitive(lt, a[..][it2 - 1], a[..][it2], a[f1]);
        return f1, it2;
      }
    }
    i1, i2 := SearchLarger(lt, a, f1, l1, f2, l2, m);
  }

  /** The loop of the search: [f2, l2) is the larger range. */
  method SearchLarger<T(!new)>(lt: Less<T>, a: array<T>, f1: nat, l1: nat, f2: nat, l2: nat, m: nat)
    returns (i1: nat, i2: nat)
    requires StrictWeakOrder(lt)
    requires f1 < l1 <= a.Length && f2 <= l2 <= a.Length
    requires SortedRange(lt, a[..], f1, l1) && SortedRange(lt, a[..], f2, l2)
    requires 2 <= l1 - f1 <= l2 - f2 && m == ((l1 - f1) + (l2 - f2)) / 2
    ensures GoodCut(lt, a[..], f1, i1, l1, f2, i2, l2)
  {
    var low, high := f2, l2;
    ghost var s := a[..];
    while true
      invariant f2 <= low <= high <= l2
      invariant WentRight(lt, s, f1, l1, f2, low, m)
      invariant WentLeft(lt, s, f1, l1, f2, high, l2, m)
      decreases high - low
    {
      var it2 := low + (high - low) / 2;
      if low == high { LowHighMeet(lt, s, f1, l1, f2, l2, low, m); }
      var v := Probe(lt, a, f1, l1, f2, it2, l2, m);
      match v {
        case GoLeft =>
          assert high != it2;
          high := it2;
        case GoRight =>
          assert low != it2 + 1;
          low := it2 + 1;
        case Cut(it1) =>
          CutIsGood(lt, s, f1, it1, l1, f2, it2, l2, low, high, m);
          return it1, it2;
      }
    }
  }

  datatype Verdict = GoLeft | GoRight | Cut(it1: nat)

  /** One probe of the search, at it2 in the larger range; m elements are to stay on the left. */
  method Probe<T>(lt: Less<T>, a: array<T>, f1: nat, l1: nat, f2: nat, it2: nat, l2: nat, m: nat)
    returns (v: Verdict)
    requires f1 < l1 <= a.Length && f2 <= it2 <= l2 <= a.Length
    requires l1 - f1 <= m && (it2 - f2 < m ==> it2 < l2)
    ensures v.GoLeft? ==> StepsLeft(lt, a[..], f1, l1, f2, it2, m)
    ensures v.GoRight? ==> it2 < l2 && StepsRight(lt, a[..], f1, l1, f2, it2, m)
    ensures v.Cut? ==> IsCut(lt, a[..], f1, v.it1, l1, f2, it2, l2, m)
  {
    var n1, c2 := l1 - f1, it2 - f2;
    if m <= c2 {
      assert f2 <= it2 - 1;
      v := if lt(a[f1], a[it2 - 1]) then GoLeft else Cut(f1);
    } else if m - c2 >= n1 {
      assert it2 < l2;
      v := if lt(a[it2], a[l1 - 1]) then GoRight else Cut(l1);
    } else {
      var it1 := f1 + (m - c2);
      assert f1 < it1 < l1 && f2 < it2 < l2;
      v := if lt(a[it2], a[it1 - 1]) then GoRight
           else if lt(a[it1], a[it2 - 1]) then GoLeft
           else Cut(it1);
    }
  }

  /** it2 is too far right: the element before it is above its counterpart in the other range. */
  ghost predicate StepsLeft<T>(lt: Less<T>, s: seq<T>, f1: nat, l1: nat, f2: nat, it2: nat, m: nat)
    requires f1 < l1 <= |s| && f2 <= it2 <= |s|
  {
    var c2 := it2 - f2;
    f2 < it2 && m - c2 < l1 - f1 && lt(s[if m <= c2 then f1 else f1 + (m - c2)], s[it2 - 1])
  }

  /** it2 is too far left: the element at it2 is below its counterpart in the other range. */
  ghost predicate StepsRight<T>(lt: Less<T>, s: seq<T>, f1: nat, l1: nat, f2: nat, it2: nat, m: nat)
    requires f1 < l1 <= |s| && f2 <= it2 <= |s|
  {
    var c2 := it2 - f2;
    it2 < |s| && c2 < m && lt(s[it2], s[if m - c2 >= l1 - f1 then l1 - 1 else f1 + (m - c2) - 1])
  }

  /** The probe at it2 stops: the counterpart it1 is clamped to the range and both sides fit. */
  ghost predicate IsCut<T>(lt: Less<T>, s: seq<T>, f1: nat, it1: nat, l1: nat, f2: nat, it2: nat, l2: nat, m: nat) {
    && f1 < l1 <= |s| && f2 <= it2 <= l2 <= |s|
    && IsSplit(lt, s, f1, it1, l1, f2, it2, l2)
    && (it1 == f1 ==> m <= it2 - f2)
    && (it1 == l1 ==> l1 - f1 <= m - (it2 - f2))
    && !StepsLeft(lt, s, f1, l1, f2, it2, m) && !StepsRight(lt, s, f1, l1, f2, it2, m)
  }

  /** low is the start of the range or was moved there by a probe. */
  ghost predicate WentRight<T>(lt: Less<T>, s: seq<T>, f1: nat, l1: nat, f2: nat, low: nat, m: nat)
    requires f1 < l1 <= |s| && f2 <= low <= |s|
  {
    f2 < low ==> StepsRight(lt, s, f1, l1, f2, low - 1, m)
  }

  /** high is the end of the range or was moved there by a probe. */
  ghost predicate WentLeft<T>(lt: Less<T>, s: seq<T>, f1: nat, l1: nat, f2: nat, high: nat, l2: nat, m: nat)
    requires f1 < l1 <= |s| && f2 <= high <= l2 <= |s|
  {
    high < l2 ==> StepsLeft(lt, s, f1, l1, f2, high, m)
  }

  /** The bounds can only meet at the end of the larger range, where no probe moves them. */
  lemma LowHighMeet<T(!new)>(lt: Less<T>, s: seq<T>, f1: nat, l1: nat, f2: nat, l2: nat, low: nat, m: nat)
    requires StrictWeakOrder(lt)
    requires f1 < l1 <= |s| && f2 <= low <= l2 <= |s|
    requires SortedRange(lt, s, f1, l1) && SortedRange(lt, s, f2, l2)
    requires 2 <= l1 - f1 <= l2 - f2 && m == ((l1 - f1) + (l2 - f2)) / 2
    requires WentRight(lt, s, f1, l1, f2, low, m) && WentLeft(lt, s, f1, l1, f2, low, l2, m)
    ensures low == l2 && m <= low - f2 && !StepsLeft(lt, s, f1, l1, f2, low, m)
  {
  }

  /** Where the search stops the cut is good. */
  lemma CutIsGood<T(!new)>(lt: Less<T>, s: seq<T>, f1: nat, it1: nat, l1: nat, f2: nat, it2: nat, l2: nat, low: nat, high: nat, m: nat)
    requires IsCut(lt, s, f1, it1, l1, f2, it2, l2, m)
    requires f2 <= low <= it2 <= high <= l2 && it2 == low + (high - low) / 2
    requires 2 <= l1 - f1 <= l2 - f2 && m == ((l1 - f1) + (l2 - f2)) / 2
    requires WentRight(lt, s, f1, l1, f2, low, m) && WentLeft(lt, s, f1, l1, f2, high, l2, m)
    ensures GoodCut(lt, s, f1, it1, l1, f2, it2, l2)
  {
    assert it2 == l2 ==> low == l2;
    assert it2 == f2 ==> high <= f2 + 1;
  }

  lemma LtIsLeq<T(!new)>(lt: Less<T>, x: T, y: T)
    requires StrictWeakOrder(lt) && lt(x, y)
    ensures Leq(lt, x, y)
  {
    assert lt(y, x) ==> lt(x, x);
  }

  /* ---------------------------------------------------------------- leaf routines */

  /** The first position of [first, last) where p fails, for a range with all p-elements in front. */
  method PartitionPoint<T>(a: array<T>, first: nat, last: nat, p: T -> bool) returns (k: nat)
    requires first <= last <= a.Length
    requires forall i, j :: first <= i < j < last && p(a[j]) ==> p(a[i])
    ensures first <= k <= last
    ensures forall i :: first <= i < k ==> p(a[i])
    ensures forall i :: k <= i < last ==> !p(a[i])
  {
    var lo, hi := first, last;
    while lo < hi
      invariant first <= lo <= hi <= last
      invariant forall i :: first <= i < lo ==> p(a[i])
      invariant forall i :: hi <= i < last ==> !p(a[i])
    {
      var mid := lo + (hi - lo) / 2;
      if p(a[mid]) { lo := mid + 1; } else { hi := mid; }
    }
    return lo;
  }

  /** Moves a[k] left past the larger elements of [first, k), to position j. */
  method InsertOne<T>(lt: Less<T>, a: array<T>, first: nat, k: nat) returns (j: nat)
    requires first <= k < a.Length
    modifies a
    ensures first <= j <= k
    ensures forall q {:trigger a[q]} :: 0 <= q < a.Length ==>
              a[q] == if q == j then old(a[k]) else if j < q <= k then old(a[q - 1]) else old(a[q])
    ensures first < j ==> Leq(lt, old(a[j - 1]), old(a[k]))
    ensures forall q :: j <= q < k ==> lt(old(a[k]), old(a[q]))
  {
    var x := a[k];
    j := k;
    while first < j && lt(x, a[j - 1])
      invariant first <= j <= k
      invariant forall q {:trigger a[q]} :: 0 <= q < a.Length ==>
                  a[q] == if j < q <= k then old(a[q - 1]) else old(a[q])
      invariant forall q :: j <= q < k ==> lt(x, old(a[q]))
    {
      a[j] := a[j - 1];
      j := j - 1;
    }
    a[j] := x;
  }

  /** What InsertOne did to the sequence. */
  ghost predicate Inserted<T>(lt: Less<T>, s: seq<T>, t: seq<T>, first: nat, j: nat, k: nat) {
    && first <= j <= k < |s| == |t|
    && (forall q {:trigger t[q]} :: 0 <= q < |s| ==> t[q] == if q == j then s[k] else if j < q <= k then s[q - 1] else s[q])
    && (first < j ==> Leq(lt, s[j - 1], s[k]))
    && (forall q :: j <= q < k ==> lt(s[k], s[q]))
  }

  lemma InsertKeepsSorted<T(!new)>(lt: Less<T>, s: seq<T>, t: seq<T>, first: nat, j: nat, k: nat)
    requires StrictWeakOrder(lt) && Inserted(lt, s, t, first, j, k) && SortedRange(lt, s, first, k)
    ensures SortedRange(lt, t, first, k + 1)
  {
    forall p | first <= p < j ensures Leq(lt, s[p], s[k]) {
      if p < j - 1 { LeqTransitive(lt, s[p], s[j - 1], s[k]); }
    }
    forall q | j <= q < k ensures Leq(lt, s[k], s[q]) { LtIsLeq(lt, s[k], s[q]); }
    forall p, q | first <= p < q < k + 1 ensures Leq(lt, t[p], t[q]) {
      // where the two elements stood in s
      var i := if p < j then p else if p == j then k else p - 1;
      var i' := if q < j then q else if q == j then k else q - 1;
      assert t[p] == s[i] && t[q] == s[i'];
      assert Leq(lt, s[i], s[i']);
    }
  }

  lemma InsertedSlices<T>(lt: Less<T>, s: seq<T>, t: seq<T>, first: nat, j: nat, k: nat)
    requires Inserted(lt, s, t, first, j, k)
    ensures t[first..k + 1] == (s[first..j] + [s[k]]) + s[j..k]
    ensures s[first..k + 1] == (s[first..j] + s[j..k]) + [s[k]]
  {
    var u := (s[first..j] + [s[k]]) + s[j..k];
    forall i | 0 <= i < |u| ensures t[first..k + 1][i] == u[i] {
      assert t[first..k + 1][i] == t[first + i];
      if i > j - first { assert u[i] == s[j..k][i - (j - first) - 1] == s[first + i - 1]; }
    }
    assert |t[first..k + 1]| == |u|;
  }

  lemma InsertKeepsClasses<T(!new)>(lt: Less<T>, s: seq<T>, t: seq<T>, first: nat, j: nat, k: nat)
    requires StrictWeakOrder(lt) && Inserted(lt, s, t, first, j, k)
    ensures SameClasses(lt, t[first..k + 1], s[first..k + 1])
  {
    var a, b, c := s[first..j], s[j..k], [s[k]];
    InsertedSlices(lt, s, t, first, j, k);
    ExchangeKeepsClasses(lt, a, b, c, []);
    assert b + [] == b && c + [] == c;
  }

  /** Stable insertion of [from, last) into the sorted prefix [first, from). */
  method InsertionSort<T(!new)>(lt: Less<T>, stable: bool, a: array<T>, first: nat, from: nat, last: nat)
    requires StrictWeakOrder(lt)
    requires first <= from <= last <= a.Length && SortedRange(lt, a[..], first, from)
    modifies a
    ensures SortedRange(lt, a[..], first, last)
    ensures RearrangedRange(lt, stable, a[..], old(a[..]), first, last)
    ensures Outside(a[..], old(a[..]), first, last)
  {
    ghost var was := a[..];
    for k := from to last
      invariant InsertedUpTo(lt, a[..], was, first, k)
    {
      ghost var s := a[..];
      ghost var j := InsertOne(lt, a, first, k);
      InsertAdvances(lt, a[..], s, was, first, j, k);
    }
    SameClassesSameMultiset(lt, a[..][first..last], was[first..last]);
  }

  ghost predicate InsertedUpTo<T(!new)>(lt: Less<T>, s: seq<T>, was: seq<T>, first: nat, k: nat) {
    && Outside(s, was, first, k) && first <= k <= |s|
    && SortedRange(lt, s, first, k) && SameClasses(lt, s[first..k], was[first..k])
  }

  lemma InsertAdvances<T(!new)>(lt: Less<T>, t: seq<T>, s: seq<T>, was: seq<T>, first: nat, j: nat, k: nat)
    requires StrictWeakOrder(lt)
    requires InsertedUpTo(lt, s, was, first, k) && Inserted(lt, s, t, first, j, k)
    ensures InsertedUpTo(lt, t, was, first, k + 1)
  {
    InsertKeepsSorted(lt, s, t, first, j, k);
    InsertKeepsClasses(lt, s, t, first, j, k);
    GrowClasses(lt, t, s, was, first, k);
  }

  lemma GrowClasses<T(!new)>(lt: Less<T>, t: seq<T>, s: seq<T>, was: seq<T>, first: nat, k: nat)
    requires first <= k < |s| == |t| == |was| && s[k] == was[k]
    requires SameClasses(lt, s[first..k], was[first..k])
    requires SameClasses(lt, t[first..k + 1], s[first..k + 1])
    ensures SameClasses(lt, t[first..k + 1], was[first..k + 1])
  {
    SliceConcat(s, first, k, k + 1);
    SliceConcat(was, first, k, k + 1);
    assert s[k..k + 1] == [s[k]] == was[k..k + 1];
    SameClassesConcat(lt, s[first..k], was[first..k], [s[k]], [s[k]]);
  }

  /* ---------------------------------------------------------------- in-place merge */

  /** A split of two sorted ranges separates the left parts from the right parts. */
  lemma SplitSeparates<T(!new)>(lt: Less<T>, s: seq<T>, first: nat, s1: nat, middle: nat, s2: nat, last: nat, i: nat, j: nat)
    requires StrictWeakOrder(lt)
    requires SortedRange(lt, s, first, middle) && SortedRange(lt, s, middle, last)
    requires IsSplit(lt, s, first, s1, middle, middle, s2, last)
    requires (first <= i < s1 || middle <= i < s2) && (s1 <= j < middle || s2 <= j < last)
    ensures Leq(lt, s[i], s[j])
  {
    if i < s1 && s2 <= j {
      // s[i] <= s[s1 - 1] <= s[s2] <= s[j]
      if i < s1 - 1 { LeqTransitive(lt, s[i], s[s1 - 1], s[s2]); }
      if s2 < j { LeqTransitive(lt, s[i], s[s2], s[j]); }
    } else if middle <= i && j < middle {
      // s[i] <= s[s2 - 1] <= s[s1] <= s[j]
      if i < s2 - 1 { LeqTransitive(lt, s[i], s[s2 - 1], s[s1]); }
      if s1 < j { LeqTransitive(lt, s[i], s[s1], s[j]); }
    }
  }

  /** If everything in [s1, middle) is at least x, everything in [middle, s2) at most y, y at most x, and one of
      the bounds is strict, then no element of one is equivalent to one of the other. */
  lemma ApartIfStrict<T(!new)>(lt: Less<T>, s: seq<T>, s1: nat, middle: nat, s2: nat, x: T, y: T)
    requires StrictWeakOrder(lt) && s1 <= middle <= s2 <= |s|
    requires forall i :: s1 <= i < middle ==> Leq(lt, x, s[i])
    requires forall j :: middle <= j < s2 ==> Leq(lt, s[j], y)
    requires Leq(lt, y, x)
    requires lt(y, x) || (forall i :: s1 <= i < middle ==> lt(x, s[i])) || (forall j :: middle <= j < s2 ==> lt(s[j], y))
    ensures forall i, j :: s1 <= i < middle <= j < s2 ==> !Equiv(lt, s[i], s[j])
  {
    forall i, j | s1 <= i < middle <= j < s2 ensures !Equiv(lt, s[i], s[j]) {
      if Leq(lt, s[i], s[j]) {
        // x <= s[i] <= s[j] <= y <= x: the four are equivalent, against the strict bound
        LeqTransitive(lt, x, s[i], s[j]);
        LeqTransitive(lt, x, s[j], y);
        LeqTransitive(lt, s[i], s[j], y);
        LeqTransitive(lt, s[i], y, x);
        LeqTransitive(lt, y, x, s[j]);
      }
    }
  }

  /** Moving s1 right past the elements not above x = s[s1] keeps a split, when x ~ s[s2 - 1]. */
  lemma RightShiftKeepsSplit<T(!new)>(lt: Less<T>, s: seq<T>, s1: nat, s1': nat, middle: nat, s2: nat, last: nat)
    requires StrictWeakOrder(lt) && s1 <= s1' <= middle < s2 <= last <= |s| && s1 < middle
    requires SortedRange(lt, s, middle, last) && Equiv(lt, s[s1], s[s2 - 1])
    requires forall i :: s1 <= i < s1' ==> Leq(lt, s[i], s[s1])
    requires forall i :: s1' <= i < middle ==> lt(s[s1], s[i])
    ensures s1 < s1' ==> IsSplit(lt, s, s1, s1', middle, middle, s2, last)
    ensures forall i, j :: s1' <= i < middle <= j < s2 ==> !Equiv(lt, s[i], s[j])
  {
    var x, y := s[s1], s[s2 - 1];
    forall i | s1' <= i < middle ensures Leq(lt, x, s[i]) { LtIsLeq(lt, x, s[i]); }
    ApartIfStrict(lt, s, s1', middle, s2, x, y);
    if s1 < s1' {
      LeqTransitive(lt, s[s1' - 1], x, y);
      if s2 < last { LeqTransitive(lt, s[s1' - 1], y, s[s2]); }
      if s1' < middle { LeqTransitive(lt, y, x, s[s1']); }
    }
  }

  /** Moving s2 left past the elements not below y = s[s2 - 1] keeps a split, when y ~ s[s1]. */
  lemma LeftShiftKeepsSplit<T(!new)>(lt: Less<T>, s: seq<T>, first: nat, s1: nat, middle: nat, s2': nat, s2: nat, last: nat)
    requires StrictWeakOrder(lt) && first <= s1 < middle <= s2' <= s2 <= last <= |s| && middle < s2
    requires SortedRange(lt, s, first, middle) && Equiv(lt, s[s1], s[s2 - 1])
    requires forall j :: middle <= j < s2' ==> lt(s[j], s[s2 - 1])
    requires forall j :: s2' <= j < s2 ==> Leq(lt, s[s2 - 1], s[j])
    ensures s2' < s2 ==> IsSplit(lt, s, first, s1, middle, middle, s2', last)
    ensures forall i, j :: s1 <= i < middle <= j < s2' ==> !Equiv(lt, s[i], s[j])
  {
    var x, y := s[s1], s[s2 - 1];
    forall i | s1 <= i < middle ensures Leq(lt, x, s[i]) { if i == s1 { LeqReflexive(lt, x); } }
    forall j | middle <= j < s2' ensures Leq(lt, s[j], y) { LtIsLeq(lt, s[j], y); }
    ApartIfStrict(lt, s, s1, middle, s2', x, y);
    if s2' < s2 {
      if first < s1 {
        LeqTransitive(lt, s[s1 - 1], x, y);
        LeqTransitive(lt, s[s1 - 1], y, s[s2']);
      }
      if middle < s2' { LeqTransitive(lt, s[s2' - 1], y, x); }
    }
  }

  /** What the rotation of the inner blocks needs: a split inside the range, and in the stable variant no two
      equivalent elements that would change places. */
  ghost predicate Exchangeable<T>(lt: Less<T>, stable: bool, s: seq<T>, first: nat, s1: nat, middle: nat, s2: nat, last: nat) {
    && IsSplit(lt, s, first, s1, middle, middle, s2, last)
    && (stable ==> forall i, j :: s1 <= i < middle <= j < s2 ==> !Equiv(lt, s[i], s[j]))
  }

  /** The fix-up for equal values. */
  method FixStability<T(!new)>(lt: Less<T>, a: array<T>, first: nat, middle: nat, last: nat, c1: nat, c2: nat)
    returns (s1: nat, s2: nat)
    requires StrictWeakOrder(lt)
    requires first < middle < last <= a.Length
    requires SortedRange(lt, a[..], first, middle) && SortedRange(lt, a[..], middle, last)
    requires GoodCut(lt, a[..], first, c1, middle, middle, c2, last)
    requires !lt(a[last - 1], a[first])
    ensures Exchangeable(lt, true, a[..], first, s1, middle, s2, last)
    ensures !(s1 == first && s2 == middle) && !(s1 == middle && s2 == last)
  {
    s1, s2 := c1, c2;
    if s1 != middle && s2 != middle {
      var x, y := a[s1], a[s2 - 1];
      LeqReflexive(lt, x);
      LeqReflexive(lt, y);
      ghost var s := a[..];
      assert forall i :: s1 <= i < middle ==> Leq(lt, x, s[i]);
      assert forall j :: middle <= j < s2 ==> Leq(lt, s[j], y);
      if !lt(x, y) && !lt(y, x) {
        if s1 == first {
          forall i, j | s1 <= i < j < middle && !lt(x, a[j]) ensures !lt(x, a[i]) {
            LeqTransitive(lt, s[i], s[j], x);
          }
          s1 := PartitionPoint(a, s1, middle, r => !lt(x, r));
          RightShiftKeepsSplit(lt, s, c1, s1, middle, s2, last);
        } else {
          forall i, j | middle <= i < j < s2 && lt(a[j], y) ensures lt(a[i], y) {
            if Leq(lt, y, s[i]) { LeqTransitive(lt, y, s[i], s[j]); }
          }
          s2 := PartitionPoint(a, middle, s2, r => lt(r, y));
          LeftShiftKeepsSplit(lt, s, first, s1, middle, s2, c2, last);
        }
      } else {
        ApartIfStrict(lt, s, s1, middle, s2, x, y);
      }
    }
  }

  /** The split points, corrected for equal values in the stable variant. */
  method ChooseCut<T(!new)>(lt: Less<T>, stable: bool, a: array<T>, first: nat, middle: nat, last: nat)
    returns (s1: nat, s2: nat)
    requires StrictWeakOrder(lt)
    requires first < middle < last <= a.Length
    requires SortedRange(lt, a[..], first, middle) && SortedRange(lt, a[..], middle, last)
    requires lt(a[middle], a[middle - 1]) && !lt(a[last - 1], a[first])
    ensures Exchangeable(lt, stable, a[..], first, s1, middle, s2, last)
    ensures !(s1 == first && s2 == middle) && !(s1 == middle && s2 == last)
  {
    s1, s2 := FindSplitPoints(lt, a, first, middle, middle, last);
    if stable {
      s1, s2 := FixStability(lt, a, first, middle, last, s1, s2);
    }
  }

  /** A slice of t that lies in one of the parts is a slice of s. */
  lemma RotatedAt<T>(s: seq<T>, t: seq<T>, s1: nat, middle: nat, s2: nat, a: nat, b: nat)
    requires Rotated(s, t, s1, middle, s2) && a <= b <= |s|
    requires var m := s1 + (s2 - middle); b <= s1 || s2 <= a || (s1 <= a && b <= m) || (m <= a && b <= s2)
    ensures var m := s1 + (s2 - middle);
            var d := if b <= s1 || s2 <= a then 0 else if b <= m then middle - s1 else s1 - m;
            0 <= a + d && b + d <= |s| && t[a..b] == s[a + d..b + d]
  {
    var m := s1 + (s2 - middle);
    var d := if b <= s1 || s2 <= a then 0 else if b <= m then middle - s1 else s1 - m;
    forall k | 0 <= k < b - a ensures t[a..b][k] == s[a + d..b + d][k] {
      assert t[a + k] == s[a + d + k];
    }
  }

  lemma FourSlices<T>(s: seq<T>, a: nat, b: nat, c: nat, d: nat, e: nat)
    requires a <= b <= c <= d <= e <= |s|
    ensures s[a..e] == (s[a..b] + s[b..c]) + (s[c..d] + s[d..e])
  {
    SliceConcat(s, a, b, c);
    SliceConcat(s, c, d, e);
    SliceConcat(s, a, c, e);
  }

  lemma RotatedSlices<T>(s: seq<T>, t: seq<T>, first: nat, s1: nat, middle: nat, s2: nat, last: nat)
    requires Rotated(s, t, s1, middle, s2) && first <= s1 && s2 <= last <= |s|
    ensures t[first..last] == (s[first..s1] + s[middle..s2]) + (s[s1..middle] + s[s2..last])
    ensures s[first..last] == (s[first..s1] + s[s1..middle]) + (s[middle..s2] + s[s2..last])
  {
    var m := s1 + (s2 - middle);
    RotatedAt(s, t, s1, middle, s2, first, s1);
    RotatedAt(s, t, s1, middle, s2, s1, m);
    RotatedAt(s, t, s1, middle, s2, m, s2);
    RotatedAt(s, t, s1, middle, s2, s2, last);
    hide Rotated;
    FourSlices(t, first, s1, m, s2, last);
    FourSlices(s, first, s1, middle, s2, last);
  }

  /** Exchanging the inner blocks rearranges the range. */
  lemma RotationRearranges<T(!new)>(lt: Less<T>, stable: bool, s: seq<T>, t: seq<T>, first: nat, s1: nat, middle: nat, s2: nat, last: nat)
    requires StrictWeakOrder(lt) && Exchangeable(lt, stable, s, first, s1, middle, s2, last)
    requires Rotated(s, t, s1, middle, s2)
    ensures RearrangedRange(lt, stable, t, s, first, last)
  {
    var a, b, c, d := s[first..s1], s[s1..middle], s[middle..s2], s[s2..last];
    RotatedSlices(s, t, first, s1, middle, s2, last);
    assert multiset((a + c) + (b + d)) == multiset((a + b) + (c + d));
    if stable {
      assert forall x, y :: x in b && y in c ==> !Equiv(lt, x, y);
      ExchangeKeepsClasses(lt, a, b, c, d);
    }
  }

  /** Exchanging the inner blocks leaves two smaller merge problems, the first below the second. */
  lemma RotationSeparates<T(!new)>(lt: Less<T>, s: seq<T>, t: seq<T>, first: nat, s1: nat, middle: nat, s2: nat, last: nat)
    requires StrictWeakOrder(lt)
    requires SortedRange(lt, s, first, middle) && SortedRange(lt, s, middle, last)
    requires IsSplit(lt, s, first, s1, middle, middle, s2, last) && Rotated(s, t, s1, middle, s2)
    ensures var m := s1 + (s2 - middle);
            && SortedRange(lt, t, first, s1) && SortedRange(lt, t, s1, m)
            && SortedRange(lt, t, m, s2) && SortedRange(lt, t, s2, last)
            && Below(lt, t, first, m, last)
  {
    var m := s1 + (s2 - middle);
    forall p, q | first <= p < m <= q < last ensures Leq(lt, t[p], t[q]) {
      var i := if p < s1 then p else p - s1 + middle;
      var j := if q < s2 then q - m + s1 else q;
      assert t[p] == s[i] && t[q] == s[j];
      SplitSeparates(lt, s, first, s1, middle, s2, last, i, j);
    }
    forall p, q | first <= p < q < s1 || s2 <= p < q < last ensures Leq(lt, t[p], t[q]) { }
    forall p, q | s1 <= p < q < m ensures Leq(lt, t[p], t[q]) {
      assert t[p] == s[p - s1 + middle] && t[q] == s[q - s1 + middle];
    }
    forall p, q | m <= p < q < s2 ensures Leq(lt, t[p], t[q]) {
      assert t[p] == s[p - m + s1] && t[q] == s[q - m + s1];
    }
  }

  /** When the very last element is strictly below the very first, exchanging the halves sorts the range. */
  lemma FullExchange<T(!new)>(lt: Less<T>, stable: bool, s: seq<T>, t: seq<T>, first: nat, middle: nat, last: nat)
    requires StrictWeakOrder(lt) && first < middle < last <= |s|
    requires SortedRange(lt, s, first, middle) && SortedRange(lt, s, middle, last)
    requires lt(s[last - 1], s[first]) && Rotated(s, t, first, middle, last)
    ensures SortedRange(lt, t, first, last) && RearrangedRange(lt, stable, t, s, first, last)
  {
    LtIsLeq(lt, s[last - 1], s[first]);
    LeqReflexive(lt, s[first]);
    LeqReflexive(lt, s[last - 1]);
    ApartIfStrict(lt, s, first, middle, last, s[first], s[last - 1]);
    RotationRearranges(lt, stable, s, t, first, first, middle, last, last);
    RotationSeparates(lt, s, t, first, first, middle, last, last);
  }

  lemma InOrderAlready<T(!new)>(lt: Less<T>, s: seq<T>, first: nat, middle: nat, last: nat)
    requires StrictWeakOrder(lt) && first < middle < last <= |s|
    requires SortedRange(lt, s, first, middle) && SortedRange(lt, s, middle, last)
    requires Leq(lt, s[middle - 1], s[middle])
    ensures SortedRange(lt, s, first, last)
  {
    forall p, q | first <= p < middle <= q < last ensures Leq(lt, s[p], s[q]) {
      SplitSeparates(lt, s, first, middle, middle, middle, last, p, q);
    }
  }

  /** What a merge or a sort of [first, last) delivers. */
  ghost predicate SortsRange<T(!new)>(lt: Less<T>, stable: bool, t: seq<T>, s: seq<T>, first: nat, last: nat) {
    SortedRange(lt, t, first, last) && RearrangedRange(lt, stable, t, s, first, last) && Outside(t, s, first, last)
  }

  /** The in-place merge. */
  method InplaceMerge<T(!new)>(lt: Less<T>, stable: bool, a: array<T>, first: nat, middle: nat, last: nat, cutoff: nat)
    requires StrictWeakOrder(lt)
    requires first <= middle <= last <= a.Length && cutoff >= 1
    requires SortedRange(lt, a[..], first, middle) && SortedRange(lt, a[..], middle, last)
    modifies a
    ensures SortsRange(lt, stable, a[..], old(a[..]), first, last)
    decreases last - first, 2
  {
    var d := last - first;
    ghost var was := a[..];
    if d <= 1 || first == middle || middle == last {
      return;
    }
    if d <= cutoff {
      InsertionSort(lt, stable, a, first, middle, last);
      return;
    }
    if !lt(a[middle], a[middle - 1]) {
      InOrderAlready(lt, a[..], first, middle, last);
      return;
    }
    if lt(a[last - 1], a[first]) {
      var _ := Rotate(a, first, middle, last, cutoff);
      FullExchange(lt, stable, was, a[..], first, middle, last);
      return;
    }
    SplitAndMerge(lt, stable, a, first, middle, last, cutoff);
  }

  /** The recursive case: cut, exchange the inner blocks by a rotation, merge both sides. */
  method SplitAndMerge<T(!new)>(lt: Less<T>, stable: bool, a: array<T>, first: nat, middle: nat, last: nat, cutoff: nat)
    requires StrictWeakOrder(lt)
    requires first < middle < last <= a.Length && cutoff >= 1
    requires SortedRange(lt, a[..], first, middle) && SortedRange(lt, a[..], middle, last)
    requires lt(a[middle], a[middle - 1]) && !lt(a[last - 1], a[first])
    modifies a
    ensures SortsRange(lt, stable, a[..], old(a[..]), first, last)
    decreases last - first, 1
  {
    ghost var was := a[..];
    var s1, s2 := ChooseCut(lt, stable, a, first, middle, last);
    var m := Rotate(a, s1, middle, s2, cutoff);
    assert first < m < last;
    ghost var mid := a[..];
    RotationSeparates(lt, was, mid, first, s1, middle, s2, last);
    MergeBoth(lt, stable, a, first, s1, m, s2, last, cutoff);
    RotationRearranges(lt, stable, was, mid, first, s1, middle, s2, last);
    RearrangedTransitive(lt, stable, a[..], mid, was, first, last);
  }

  /** The two sub-merges of one level, in either order, on [first, m) below [m, last). */
  method MergeBoth<T(!new)>(lt: Less<T>, stable: bool, a: array<T>, first: nat, s1: nat, m: nat, s2: nat, last: nat, cutoff: nat)
    requires StrictWeakOrder(lt) && cutoff >= 1
    requires first <= s1 <= m <= s2 <= last <= a.Length && first < m < last
    requires SortedRange(lt, a[..], first, s1) && SortedRange(lt, a[..], s1, m)
    requires SortedRange(lt, a[..], m, s2) && SortedRange(lt, a[..], s2, last)
    requires Below(lt, a[..], first, m, last)
    modifies a
    ensures SortsRange(lt, stable, a[..], old(a[..]), first, last)
    decreases last - first, 0
  {
    ghost var was := a[..];
    var leftFirst: bool := *;
    if leftFirst {
      InplaceMerge(lt, stable, a, first, s1, m, cutoff);
      ghost var between := a[..];
      InplaceMerge(lt, stable, a, m, s2, last, cutoff);
      BothSorted(lt, stable, a[..], between, was, first, m, last);
    } else {
      InplaceMerge(lt, stable, a, m, s2, last, cutoff);
      ghost var between := a[..];
      InplaceMerge(lt, stable, a, first, s1, m, cutoff);
      BothSorted(lt, stable, a[..], between, was, first, m, last);
    }
    SortedJoin(lt, stable, a[..], was, first, m, last);
  }

  /** Sorting two neighbouring ranges one after the other sorts each and rearranges the whole. */
  lemma BothSorted<T(!new)>(lt: Less<T>, stable: bool, u: seq<T>, t: seq<T>, s: seq<T>, first: nat, m: nat, last: nat)
    requires first <= m <= last <= |s|
    requires (SortsRange(lt, stable, t, s, first, m) && SortsRange(lt, stable, u, t, m, last)) ||
             (SortsRange(lt, stable, t, s, m, last) && SortsRange(lt, stable, u, t, first, m))
    ensures SortedRange(lt, u, first, m) && SortedRange(lt, u, m, last) && Outside(u, s, first, last)
    ensures RearrangedRange(lt, stable, u, s, first, m) && RearrangedRange(lt, stable, u, s, m, last)
    ensures RearrangedRange(lt, stable, u, s, first, last)
  {
    if SortsRange(lt, stable, t, s, first, m) && SortsRange(lt, stable, u, t, m, last) {
      SliceKept(t, s, first, m, m, last);
      SliceKept(u, t, m, last, first, m);
    } else {
      SliceKept(t, s, m, last, first, m);
      SliceKept(u, t, first, m, m, last);
    }
    RearrangedJoin(lt, stable, u, s, first, m, last);
  }

  /* ---------------------------------------------------------------- public merge and sort */

  lemma MergeUnique<T(!new)>(lt: Less<T>, out: seq<T>, s: seq<T>, t: seq<T>)
    requires StrictWeakOrder(lt) && Sorted(lt, s) && Sorted(lt, t)
    requires IsStableSortOf(lt, out, s + t)
    ensures out == Merged(lt, s, t)
  {
    MergedIsStableSort(lt, s, t);
    forall x ensures ClassOf(lt, x, out) == ClassOf(lt, x, Merged(lt, s, t)) {
      assert ClassOf(lt, x, out) == ClassOf(lt, x, s + t);
      assert ClassOf(lt, x, Merged(lt, s, t)) == ClassOf(lt, x, s + t);
    }
    StableSortUnique(lt, out, Merged(lt, s, t));
  }

  lemma SortedSlice<T>(lt: Less<T>, s: seq<T>, first: nat, last: nat)
    requires first <= last <= |s|
    ensures Sorted(lt, s[first..last]) <==> SortedRange(lt, s, first, last)
  {
    var r := s[first..last];
    if Sorted(lt, r) {
      forall p, q | first <= p < q < last ensures Leq(lt, s[p], s[q]) {
        assert s[p] == r[p - first] && s[q] == r[q - first];
      }
    }
  }

  /** The public merge is the left-biased merge, whatever the cutoff and the order of the sub-merges. */
  method StableInplaceMerge<T(!new)>(lt: Less<T>, a: array<T>, first: nat, middle: nat, last: nat, cutoff: nat)
    requires StrictWeakOrder(lt)
    requires first <= middle <= last <= a.Length && cutoff >= 1
    requires Sorted(lt, a[first..middle]) && Sorted(lt, a[middle..last])
    modifies a
    ensures a[first..last] == Merged(lt, old(a[first..middle]), old(a[middle..last]))
    ensures Outside(a[..], old(a[..]), first, last)
  {
    ghost var s, t := a[first..middle], a[middle..last];
    SliceConcat(a[..], first, middle, last);
    SortedSlice(lt, a[..], first, middle);
    SortedSlice(lt, a[..], middle, last);
    InplaceMerge(lt, true, a, first, middle, last, cutoff);
    SortedSlice(lt, a[..], first, last);
    MergeUnique(lt, a[..][first..last], s, t);
  }

  /** The parallel merge sort. */
  method MergeSort<T(!new)>(lt: Less<T>, stable: bool, a: array<T>, first: nat, last: nat, cutoff: nat)
    requires StrictWeakOrder(lt)
    requires first <= last <= a.Length && cutoff >= 1
    modifies a
    ensures SortsRange(lt, stable, a[..], old(a[..]), first, last)
    decreases last - first
  {
    var d := last - first;
    ghost var was := a[..];
    if d <= 1 { return; }
    if d <= cutoff {
      InsertionSort(lt, stable, a, first, first, last);
    } else {
      var middle := first + d / 2;
      SortHalves(lt, stable, a, first, middle, last, cutoff);
      ghost var mid := a[..];
      InplaceMerge(lt, stable, a, first, middle, last, cutoff);
      RearrangedTransitive(lt, stable, a[..], mid, was, first, last);
    }
  }

  method SortHalves<T(!new)>(lt: Less<T>, stable: bool, a: array<T>, first: nat, middle: nat, last: nat, cutoff: nat)
    requires StrictWeakOrder(lt) && cutoff >= 1
    requires first < middle < last <= a.Length
    modifies a
    ensures SortedRange(lt, a[..], first, middle) && SortedRange(lt, a[..], middle, last)
    ensures RearrangedRange(lt, stable, a[..], old(a[..]), first, last)
    ensures Outside(a[..], old(a[..]), first, last)
    decreases last - first, 0
  {
    ghost var was := a[..];
    var leftFirst: bool := *;
    if leftFirst {
      MergeSort(lt, stable, a, first, middle, cutoff);
      ghost var between := a[..];
      MergeSort(lt, stable, a, middle, last, cutoff);
      BothSorted(lt, stable, a[..], between, was, first, middle, last);
    } else {
      MergeSort(lt, stable, a, middle, last, cutoff);
      ghost var between := a[..];
      MergeSort(lt, stable, a, first, middle, cutoff);
      BothSorted(lt, stable, a[..], between, was, first, middle, last);
    }
  }

  /** The public stable sort: sorted, and every class of equivalent elements in its original order. */
  method StableSort<T(!new)>(lt: Less<T>, a: array<T>, cutoff: nat)
    requires StrictWeakOrder(lt) && cutoff >= 1
    modifies a
    ensures IsStableSortOf(lt, a[..], old(a[..]))
    ensures forall t :: IsStableSortOf(lt, t, old(a[..])) ==> t == a[..]
  {
    ghost var was := a[..];
    MergeSort(lt, true, a, 0, a.Length, cutoff);
    assert a[..][0..a.Length] == a[..] && was[0..a.Length] == was;
    forall t | IsStableSortOf(lt, t, was) ensures t == a[..] {
      forall x ensures ClassOf(lt, x, t) == ClassOf(lt, x, a[..]) {
        assert ClassOf(lt, x, t) == ClassOf(lt, x, was) == ClassOf(lt, x, a[..]);
      }
      StableSortUnique(lt, t, a[..]);
    }
  }
}

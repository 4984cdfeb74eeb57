/** Parallel reduction and inclusive scan: recursive halving in which the run time decides, fork by fork, whether the
    right half continues with the accumulator of the left half or starts from the identity and is combined later. */
module Reduce {

  /** The reducer: a monoid, not necessarily commutative, over the accumulator type. */
  ghost predicate IsMonoid<A(!new)>(op: (A, A) -> A, id: A) {
    && (forall x, y, z :: op(op(x, y), z) == op(x, op(y, z)))
    && (forall x :: op(id, x) == x && op(x, id) == x)
  }

  /** The sequential fold of src[lo..hi] into acc. */
  ghost function Fold<A, X>(op: (A, A) -> A, f: X -> A, acc: A, src: seq<X>, lo: int, hi: int): A
    requires 0 <= lo <= hi <= |src|
    decreases hi - lo
  {
    if lo == hi then acc else op(Fold(op, f, acc, src, lo, hi - 1), f(src[hi - 1]))
  }

  lemma {:induction false} FoldSplit<A, X>(op: (A, A) -> A, f: X -> A, acc: A, src: seq<X>, lo: int, mid: int, hi: int)
    requires 0 <= lo <= mid <= hi <= |src|
    ensures Fold(op, f, Fold(op, f, acc, src, lo, mid), src, mid, hi) == Fold(op, f, acc, src, lo, hi)
    decreases hi - mid
  {
    if mid < hi { FoldSplit(op, f, acc, src, lo, mid, hi - 1); }
  }

  /** Folding into a product is multiplying into the fold. */
  lemma {:induction false} FoldShift<A(!new), X>(op: (A, A) -> A, id: A, f: X -> A, x: A, y: A, src: seq<X>, lo: int, hi: int)
    requires IsMonoid(op, id) && 0 <= lo <= hi <= |src|
    ensures Fold(op, f, op(x, y), src, lo, hi) == op(x, Fold(op, f, y, src, lo, hi))
    decreases hi - lo
  {
    if lo < hi { FoldShift(op, id, f, x, y, src, lo, hi - 1); }
  }

  /** What a fork that was not serialized has to restore: a right half folded from the identity. */
  lemma CombineHalves<A(!new), X>(op: (A, A) -> A, id: A, f: X -> A, acc: A, src: seq<X>, lo: int, mid: int, hi: int)
    requires IsMonoid(op, id) && 0 <= lo <= mid <= hi <= |src|
    ensures op(Fold(op, f, acc, src, lo, mid), Fold(op, f, id, src, mid, hi)) == Fold(op, f, acc, src, lo, hi)
  {
    var left := Fold(op, f, acc, src, lo, mid);
    FoldShift(op, id, f, left, id, src, mid, hi);
    FoldSplit(op, f, acc, src, lo, mid, hi);
  }

  /** The output holds every prefix of src[lo..hi] folded into acc. */
  ghost predicate Prefixes<A, X>(op: (A, A) -> A, f: X -> A, acc: A, src: seq<X>, dst: array<A>, lo: int, hi: int)
    reads dst
    requires 0 <= lo <= |src| == dst.Length
  {
    hi <= |src| && forall i {:trigger dst[i]} :: lo <= i < hi ==> dst[i] == Fold(op, f, acc, src, lo, i + 1)
  }

  /** The leaf: chunks of at most checkoutCount elements, each applied in order. A scan also stores the accumulator. */
  method ForEachAux<A, X>(op: (A, A) -> A, f: X -> A, scan: bool, acc0: A, src: seq<X>, dst: array<A>,
                          first0: int, last: int, checkoutCount: nat)
    returns (acc: A)
    requires 0 <= first0 <= last <= |src| == dst.Length && checkoutCount > 0
    modifies dst
    ensures acc == Fold(op, f, acc0, src, first0, last)
    ensures scan ==> Prefixes(op, f, acc0, src, dst, first0, last)
    ensures forall i :: 0 <= i < dst.Length && !(scan && first0 <= i < last) ==> dst[i] == old(dst[i])
  {
    var first := first0;
    acc := acc0;
    var n := last - first;
    var d := 0;
    while d < n
      invariant 0 <= d && first == first0 + (if d < n then d else n) && acc == Fold(op, f, acc0, src, first0, first)
      invariant scan ==> Prefixes(op, f, acc0, src, dst, first0, first)
      invariant forall i :: 0 <= i < dst.Length && !(scan && first0 <= i < first) ==> dst[i] == old(dst[i])
    {
      var n' := if n - d < checkoutCount then n - d else checkoutCount;
      var i := 0;
      while i < n'
        invariant 0 <= i <= n' && acc == Fold(op, f, acc0, src, first0, first + i)
        invariant scan ==> Prefixes(op, f, acc0, src, dst, first0, first + i)
        invariant forall j :: 0 <= j < dst.Length && !(scan && first0 <= j < first + i) ==> dst[j] == old(dst[j])
      {
        acc := op(acc, f(src[first + i]));
        if scan { dst[first + i] := acc; }
        i := i + 1;
      }
      first := first + n';
      d := d + checkoutCount;
    }
  }

  /** combine_op of a scan: the left accumulator is multiplied into the right half of the output. */
  method FixRightHalf<A, X>(op: (A, A) -> A, ghost id: A, ghost f: X -> A, left: A, ghost src: seq<X>, dst: array<A>, mid: int, last: int)
    requires 0 <= mid <= last <= |src| == dst.Length
    requires forall i {:trigger dst[i]} :: mid <= i < last ==> dst[i] == Fold(op, f, id, src, mid, i + 1)
    modifies dst
    ensures forall i {:trigger dst[i]} :: mid <= i < last ==> dst[i] == op(left, Fold(op, f, id, src, mid, i + 1))
    ensures forall i :: 0 <= i < dst.Length && !(mid <= i < last) ==> dst[i] == old(dst[i])
  {
    var j := mid;
    while j < last
      invariant mid <= j <= last
      invariant forall i {:trigger dst[i]} :: mid <= i < j ==> dst[i] == op(left, Fold(op, f, id, src, mid, i + 1))
      invariant forall i {:trigger dst[i]} :: j <= i < last ==> dst[i] == Fold(op, f, id, src, mid, i + 1)
      invariant forall i :: 0 <= i < dst.Length && !(mid <= i < last) ==> dst[i] == old(dst[i])
    {
      dst[j] := op(left, dst[j]);
      j := j + 1;
    }
  }

  /** parallel_reduce_generic. Whatever forks are serialized, and in whatever order the halves run when they are not,
      the result is the sequential fold, and a scan stores every prefix. */
  method ParallelReduceGeneric<A(!new), X>(op: (A, A) -> A, id: A, f: X -> A, scan: bool, acc: A, src: seq<X>, dst: array<A>,
                                           first: int, last: int, cutoffCount: nat, checkoutCount: nat)
    returns (r: A)
    requires IsMonoid(op, id) && 0 <= first <= last <= |src| == dst.Length && 0 < checkoutCount <= cutoffCount
    modifies dst
    ensures r == Fold(op, f, acc, src, first, last)
    ensures scan ==> Prefixes(op, f, acc, src, dst, first, last)
    ensures forall i :: 0 <= i < dst.Length && !(scan && first <= i < last) ==> dst[i] == old(dst[i])
    decreases last - first
  {
    var d := last - first;
    if d <= cutoffCount {
      r := ForEachAux(op, f, scan, acc, src, dst, first, last, checkoutCount);
      return;
    }
    var mid := first + d / 2;
    var serialized: bool := *;
    if serialized {
      var l := ParallelReduceGeneric(op, id, f, scan, acc, src, dst, first, mid, cutoffCount, checkoutCount);
      r := ParallelReduceGeneric(op, id, f, scan, l, src, dst, mid, last, cutoffCount, checkoutCount);
      SerializedPrefixes(op, f, acc, src, first, mid, last);
    } else {
      var accL, accR;
      var leftFirst: bool := *;
      if leftFirst {
        accL := ParallelReduceGeneric(op, id, f, scan, acc, src, dst, first, mid, cutoffCount, checkoutCount);
        accR := ParallelReduceGeneric(op, id, f, scan, id, src, dst, mid, last, cutoffCount, checkoutCount);
      } else {
        accR := ParallelReduceGeneric(op, id, f, scan, id, src, dst, mid, last, cutoffCount, checkoutCount);
        accL := ParallelReduceGeneric(op, id, f, scan, acc, src, dst, first, mid, cutoffCount, checkoutCount);
      }
      if scan { FixRightHalf(op, id, f, accL, src, dst, mid, last); }
      r := op(accL, accR);
      forall i | mid <= i <= last ensures op(accL, Fold(op, f, id, src, mid, i)) == Fold(op, f, acc, src, first, i) {
        CombineHalves(op, id, f, acc, src, first, mid, i);
      }
    }
  }

  lemma SerializedPrefixes<A, X>(op: (A, A) -> A, f: X -> A, acc: A, src: seq<X>, first: int, mid: int, last: int)
    requires 0 <= first <= mid <= last <= |src|
    ensures forall i :: mid <= i <= last ==> Fold(op, f, Fold(op, f, acc, src, first, mid), src, mid, i) == Fold(op, f, acc, src, first, i)
  {
    forall i | mid <= i <= last ensures Fold(op, f, Fold(op, f, acc, src, first, mid), src, mid, i) == Fold(op, f, acc, src, first, i) {
      FoldSplit(op, f, acc, src, first, mid, i);
    }
  }
}

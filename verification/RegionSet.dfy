/** Sets of byte positions kept as a list of half-open regions.

    The list is canonical when its regions are non-empty, sorted, disjoint and not even adjacent.  Every
    operation is specified on points, and a canonical list is determined by its points, so the specifications
    fix the list itself.
 */
module RegionSets {
  import opened Arithmetic

  datatype Region = Region(begin: nat, end: nat) {
    ghost predicate Has(x: int) {
      begin <= x < end
    }
  }

  predicate Overlap(r1: Region, r2: Region) {
    r1.begin < r2.end && r2.begin < r1.end
  }

  predicate Contiguous(r1: Region, r2: Region) {
    r1.begin == r2.end || r1.end == r2.begin
  }

  function GetUnion(r1: Region, r2: Region): (r: Region)
    requires r1.begin < r1.end && r2.begin < r2.end
    requires Overlap(r1, r2) || Contiguous(r1, r2)
    ensures forall x :: r.Has(x) <==> r1.Has(x) || r2.Has(x)
  {
    Region(Min(r1.begin, r2.begin), Max(r1.end, r2.end))
  }

  function GetIntersection(r1: Region, r2: Region): (r: Region)
    requires Overlap(r1, r2)
    ensures forall x :: r.Has(x) <==> r1.Has(x) && r2.Has(x)
  {
    Region(Max(r1.begin, r2.begin), Min(r1.end, r2.end))
  }

  ghost predicate Canonical(rs: seq<Region>) {
    && (forall i :: 0 <= i < |rs| ==> rs[i].begin < rs[i].end)
    && (forall i, j :: 0 <= i < j < |rs| ==> rs[i].end < rs[j].begin)
  }

  ghost predicate Covers(rs: seq<Region>, x: int) {
    exists i :: 0 <= i < |rs| && rs[i].Has(x)
  }

  lemma CoversConcat(s: seq<Region>, t: seq<Region>, x: int)
    ensures Covers(s + t, x) <==> Covers(s, x) || Covers(t, x)
  {
    if Covers(s, x) {
      var i :| 0 <= i < |s| && s[i].Has(x);
      assert (s + t)[i].Has(x);
    }
    if Covers(t, x) {
      var i :| 0 <= i < |t| && t[i].Has(x);
      assert (s + t)[|s| + i].Has(x);
    }
  }

  /** Replacing the k-th region by the regions of mid. */
  lemma CoversReplace(rs: seq<Region>, k: nat, mid: seq<Region>, x: int)
    requires k < |rs|
    ensures Covers(rs[..k] + mid + rs[k + 1..], x) <==> Covers(rs[..k], x) || Covers(mid, x) || Covers(rs[k + 1..], x)
    ensures Covers(rs, x) <==> Covers(rs[..k], x) || rs[k].Has(x) || Covers(rs[k + 1..], x)
  {
    CoversConcat(rs[..k] + mid, rs[k + 1..], x);
    CoversConcat(rs[..k], mid, x);
    assert rs == rs[..k] + [rs[k]] + rs[k + 1..];
    CoversConcat(rs[..k] + [rs[k]], rs[k + 1..], x);
    CoversConcat(rs[..k], [rs[k]], x);
    assert Covers([rs[k]], x) <==> rs[k].Has(x) by { assert [rs[k]][0] == rs[k]; }
  }

  /** A canonical list is determined by the points it covers. */
  lemma {:induction false} CanonicalUnique(s: seq<Region>, t: seq<Region>)
    requires Canonical(s) && Canonical(t)
    requires forall x :: Covers(s, x) <==> Covers(t, x)
    ensures s == t
  {
    if s == [] || t == [] {
      if s != [] { assert s[0].Has(s[0].begin); assert Covers(s, s[0].begin); }
      if t != [] { assert t[0].Has(t[0].begin); assert Covers(t, t[0].begin); }
    } else {
      FirstRegion(s, t);
      FirstRegion(t, s);
      forall x ensures Covers(s[1..], x) <==> Covers(t[1..], x) {
        TailCovers(s, x);
        TailCovers(t, x);
      }
      CanonicalUnique(s[1..], t[1..]);
      assert s == [s[0]] + s[1..] && t == [t[0]] + t[1..];
    }
  }

  lemma TailCovers(s: seq<Region>, x: int)
    requires Canonical(s) && s != []
    ensures Covers(s[1..], x) <==> Covers(s, x) && !s[0].Has(x)
  {
    CoversConcat([s[0]], s[1..], x);
    CoversOne(s[0], x);
    assert s == [s[0]] + s[1..];
  }

  /** The first region of t starts no later and, starting together, ends no earlier than that of s. */
  lemma FirstRegion(s: seq<Region>, t: seq<Region>)
    requires Canonical(s) && Canonical(t) && s != [] && t != []
    requires forall x :: Covers(s, x) <==> Covers(t, x)
    ensures t[0].begin <= s[0].begin
    ensures s[0].begin == t[0].begin ==> s[0].end <= t[0].end
  {
    assert s[0].Has(s[0].begin);
    assert Covers(s, s[0].begin);
    GapAfterFirst(t);
    assert !s[0].Has(t[0].end);
  }

  lemma GapAfterFirst(t: seq<Region>)
    requires Canonical(t) && t != []
    ensures !Covers(t, t[0].end)
  {
  }

  class RegionSet {
    var regions: seq<Region>

    ghost predicate Valid()
      reads this
    {
      Canonical(regions)
    }

    constructor ()
      ensures Valid() && regions == []
    {
      regions := [];
    }

    /** The last position from beginIt on whose region lies strictly before r. */
    method SkipBefore(r: Region, beginIt: int) returns (it: int)
      requires Valid() && r.begin < r.end
      requires -1 <= beginIt < |regions| && (0 <= beginIt ==> regions[beginIt].end < r.begin)
      ensures beginIt <= it < |regions|
      ensures 0 <= it ==> regions[it].end < r.begin
      ensures it + 1 < |regions| ==> r.begin <= regions[it + 1].end
    {
      it := beginIt;
      while it + 1 < |regions| && regions[it + 1].end < r.begin
        invariant beginIt <= it < |regions|
        invariant 0 <= it ==> regions[it].end < r.begin
      {
        it := it + 1;
      }
    }

    /** Adds r, looking at the regions after position beginIt only (-1 is "before begin").  The caller hands in
        a position that r lies strictly behind.  Returns the position of the region that now holds r. */
    method AddFrom(r: Region, beginIt: int) returns (it: int)
      requires Valid() && r.begin < r.end
      requires -1 <= beginIt < |regions| && (0 <= beginIt ==> regions[beginIt].end < r.begin)
      modifies this
      ensures Valid()
      ensures forall x :: Covers(regions, x) <==> Covers(old(regions), x) || r.Has(x)
      ensures beginIt < it < |regions|
      ensures forall x :: r.Has(x) ==> regions[it].Has(x)
    {
      it := SkipBefore(r, beginIt);
      if it + 1 == |regions| || r.end < regions[it + 1].begin {
        InsertCanonical(regions, it + 1, r);
        regions := regions[..it + 1] + [r] + regions[it + 1..];
        it := it + 1;
      } else {
        it := it + 1;
        GrowCanonical(regions, it, r);
        regions := regions[..it] + [GetUnion(regions[it], r)] + regions[it + 1..];
        Absorb(it);
      }
    }

    /** Merges the region at it with its successors for as long as it reaches them. */
    method Absorb(it: nat)
      requires CanonicalBut(regions, it)
      modifies this
      ensures Valid()
      ensures forall x :: Covers(regions, x) <==> Covers(old(regions), x)
      ensures it < |regions| && regions[it].begin == old(regions[it]).begin && regions[it].end >= old(regions[it]).end
    {
      while it + 1 < |regions| && regions[it].end >= regions[it + 1].begin
        invariant CanonicalBut(regions, it)
        invariant regions[it].begin == old(regions[it]).begin && regions[it].end >= old(regions[it]).end
        invariant forall x :: Covers(regions, x) <==> Covers(old(regions), x)
        decreases |regions|
      {
        MergeNext(regions, it);
        regions := regions[..it] + [GetUnion(regions[it], regions[it + 1])] + regions[it + 2..];
      }
    }

    /** Removes the points of r. */
    method Remove(r: Region)
      requires Valid() && r.begin < r.end
      modifies this
      ensures Valid()
      ensures forall x :: Covers(regions, x) <==> Covers(old(regions), x) && !r.Has(x)
    {
      ghost var was := regions;
      var it := -1;
      while it + 1 < |regions|
        invariant -1 <= it < |regions| && Canonical(regions)
        invariant forall i :: 0 <= i <= it ==> Apart(regions[i], r)
        invariant forall x :: !r.Has(x) ==> (Covers(regions, x) <==> Covers(was, x))
        decreases |regions| - it, it + 1 < |regions| && regions[it + 1].begin < r.end
      {
        if r.end <= regions[it + 1].begin { break; }
        it := CutNext(r, it);
      }
      assert forall i :: 0 <= i < |regions| ==> Apart(regions[i], r);
      forall x | r.Has(x) ensures !Covers(regions, x) { }
    }

    /** One step of Remove: steps over the region behind it, or cuts r out of it. */
    method CutNext(r: Region, it: int) returns (next: int)
      requires Valid() && r.begin < r.end
      requires -1 <= it && it + 1 < |regions| && regions[it + 1].begin < r.end
      modifies this
      ensures Valid() && -1 <= next < |regions|
      ensures (forall i :: 0 <= i <= it ==> Apart(old(regions)[i], r)) ==> forall i :: 0 <= i <= next ==> Apart(regions[i], r)
      ensures forall x :: !r.Has(x) ==> (Covers(regions, x) <==> Covers(old(regions), x))
      ensures |regions| - next < |old(regions)| - it ||
              (|regions| - next == |old(regions)| - it && next + 1 < |regions| && regions[next + 1].begin == r.end)
    {
      var n := regions[it + 1];
      if n.end <= r.begin {
        return it + 1;
      }
      CutCanonical(regions, it + 1, r);
      var rest;
      if r.begin <= n.begin && n.end <= r.end {
        rest, next := [], it;
      } else if r.begin <= n.begin && r.end <= n.end {
        rest, next := [Region(r.end, n.end)], it + 1;
      } else if n.begin <= r.begin && n.end <= r.end {
        rest, next := [Region(n.begin, r.begin)], it + 1;
      } else {
        assert n.begin <= r.begin && r.end <= n.end;
        rest, next := [Region(n.begin, r.begin), Region(r.end, n.end)], it + 1;
      }
      assert rest == Rest(n, r);
      regions := regions[..it + 1] + rest + regions[it + 2..];
    }

    method Add(r: Region)
      requires Valid() && r.begin < r.end
      modifies this
      ensures Valid()
      ensures forall x :: Covers(regions, x) <==> Covers(old(regions), x) || r.Has(x)
    {
      var _ := AddFrom(r, -1);
    }

    /** Is r a subset of this set? */
    method Include(r: Region) returns (b: bool)
      requires Valid() && r.begin < r.end
      ensures b <==> forall x :: r.Has(x) ==> Covers(regions, x)
    {
      for i := 0 to |regions|
        invariant forall k :: 0 <= k < i ==> regions[k].begin <= r.begin && regions[k].end < r.end
      {
        var r' := regions[i];
        if r.begin < r'.begin {
          var _ := NotIncluded(regions, r, i);
          return false;
        }
        if r.end <= r'.end {
          assert forall x :: r.Has(x) ==> regions[i].Has(x);
          return true;
        }
      }
      var _ := NotIncluded(regions, r, |regions|);
      return false;
    }

    /** The points of r that are not in this set, as a new list. */
    method Complement(r: Region) returns (ret: seq<Region>)
      requires Valid() && r.begin < r.end
      ensures Canonical(ret)
      ensures forall x :: Covers(ret, x) <==> r.Has(x) && !Covers(regions, x)
    {
      ret := [];
      var begin := r.begin;
      for i := 0 to |regions|
        invariant r.begin <= begin < r.end && Canonical(ret)
        invariant forall k :: 0 <= k < |ret| ==> ret[k].end < begin
        invariant forall k :: 0 <= k < i ==> regions[k].end <= begin
        invariant begin == r.begin || (0 < i && begin == regions[i - 1].end)
        invariant forall x :: Covers(ret, x) <==> r.Has(x) && x < begin && !Covers(regions, x)
      {
        var b, e := regions[i].begin, regions[i].end;
        if begin < b {
          GapBefore(regions, i, begin);
          AppendCovers(ret, Region(begin, Min(b, r.end)));
          ret := ret + [Region(begin, Min(b, r.end))];
        }
        if begin < e {
          forall x | Max(begin, b) <= x < e ensures Covers(regions, x) { assert regions[i].Has(x); }
          begin := e;
          if begin >= r.end {
            assert forall x :: Covers(ret, x) <==> r.Has(x) && !Covers(regions, x);
            return;
          }
        }
      }
      GapBefore(regions, |regions|, begin);
      AppendCovers(ret, Region(begin, r.end));
      ret := ret + [Region(begin, r.end)];
    }

    /** The points of this set inside r, as a new list. */
    method IntersectRegion(r: Region) returns (ret: seq<Region>)
      requires Valid() && r.begin < r.end
      ensures Canonical(ret)
      ensures forall x :: Covers(ret, x) <==> r.Has(x) && Covers(regions, x)
    {
      ret := [];
      var it := 0;
      while it < |regions|
        invariant 0 <= it <= |regions| && Canonical(ret)
        invariant forall k, l :: 0 <= k < |ret| && it <= l < |regions| ==> ret[k].end < regions[l].begin
        invariant forall x :: Covers(ret, x) <==> r.Has(x) && Covers(regions[..it], x)
        decreases |regions| - it
      {
        CoversNext(regions, it);
        if regions[it].end <= r.begin {
          it := it + 1;
          continue;
        }
        if r.end <= regions[it].begin {
          break;
        }
        AppendCovers(ret, GetIntersection(regions[it], r));
        ret := ret + [GetIntersection(regions[it], r)];
        if r.end < regions[it].end {
          it := it + 1;
          break;
        }
        it := it + 1;
      }
      PassedAll(regions, it, r);
    }

    /** The points common to both sets, as a new list. */
    method IntersectSet(rs: RegionSet) returns (ret: seq<Region>)
      requires Valid() && rs.Valid()
      ensures Canonical(ret)
      ensures forall x :: Covers(ret, x) <==> Covers(regions, x) && Covers(rs.regions, x)
    {
      ret := IntersectLists(regions, rs.regions);
    }
  }

  method IntersectLists(s: seq<Region>, t: seq<Region>) returns (ret: seq<Region>)
    requires Canonical(s) && Canonical(t)
    ensures Canonical(ret)
    ensures forall x :: Covers(ret, x) <==> Covers(s, x) && Covers(t, x)
  {
    ret := [];
    var it1, it2 := 0, 0;
    while it1 < |s| && it2 < |t|
      invariant SharedSoFar(ret, s, it1, t, it2)
      decreases |s| - it1 + |t| - it2
    {
      var r1, r2 := s[it1], t[it2];
      if r1.end <= r2.begin {
        PassFirst(ret, s, it1, t, it2);
        it1 := it1 + 1;
        continue;
      }
      if r2.end <= r1.begin {
        PassSecond(ret, s, it1, t, it2);
        it2 := it2 + 1;
        continue;
      }
      if r1.end <= r2.end {
        PassFirst(ret, s, it1, t, it2);
        ret := ret + [GetIntersection(r1, r2)];
        it1 := it1 + 1;
      } else {
        PassSecond(ret, s, it1, t, it2);
        ret := ret + [GetIntersection(r1, r2)];
        it2 := it2 + 1;
      }
    }
    SharedAtEnd(ret, s, it1, t, it2);
  }

  lemma SharedAtEnd(ret: seq<Region>, s: seq<Region>, i: nat, t: seq<Region>, j: nat)
    requires SharedSoFar(ret, s, i, t, j) && (i == |s| || j == |t|)
    ensures Canonical(ret)
    ensures forall x :: Covers(ret, x) <==> Covers(s, x) && Covers(t, x)
  {
    assert i == |s| ==> s[..i] == s;
    assert j == |t| ==> t[..j] == t;
  }

  /** The invariant of the two-list intersection: ret lists the common points of which one of the two regions
      that hold them has been passed, and it ends before the next region of one of the lists. */
  ghost predicate SharedSoFar(ret: seq<Region>, s: seq<Region>, i: nat, t: seq<Region>, j: nat) {
    && Canonical(ret) && i <= |s| && j <= |t|
    && (forall k :: 0 <= k < |ret| ==> (i < |s| ==> ret[k].end < s[i].begin) || (j < |t| ==> ret[k].end < t[j].begin))
    && (forall x :: Covers(ret, x) <==> Covers(s, x) && Covers(t, x) && (Covers(s[..i], x) || Covers(t[..j], x)))
  }

  /** ret, extended by what the two current regions share. */
  ghost function Extended(ret: seq<Region>, r1: Region, r2: Region): seq<Region> {
    if Overlap(r1, r2) then ret + [GetIntersection(r1, r2)] else ret
  }

  /** Passing the region that ends first adds exactly what it shares with the current region of the other list. */
  lemma PassFirst(ret: seq<Region>, s: seq<Region>, i: nat, t: seq<Region>, j: nat)
    requires Canonical(s) && Canonical(t) && i < |s| && j < |t| && s[i].end <= t[j].end
    requires SharedSoFar(ret, s, i, t, j)
    ensures SharedSoFar(Extended(ret, s[i], t[j]), s, i + 1, t, j)
  {
    var ret' := Extended(ret, s[i], t[j]);
    forall x ensures Covers(ret', x) <==> Covers(s, x) && Covers(t, x) && (Covers(s[..i + 1], x) || Covers(t[..j], x)) {
      CoversNext(s, i);
      if Overlap(s[i], t[j]) { AppendCovers(ret, GetIntersection(s[i], t[j])); }
      SharedByFirst(s, i, t, j, x);
    }
    if Overlap(s[i], t[j]) { AppendCanonical(ret, GetIntersection(s[i], t[j])); }
  }

  lemma PassSecond(ret: seq<Region>, s: seq<Region>, i: nat, t: seq<Region>, j: nat)
    requires Canonical(s) && Canonical(t) && i < |s| && j < |t| && t[j].end < s[i].end
    requires SharedSoFar(ret, s, i, t, j)
    ensures SharedSoFar(Extended(ret, s[i], t[j]), s, i, t, j + 1)
  {
    assert Overlap(s[i], t[j]) ==> GetIntersection(s[i], t[j]) == GetIntersection(t[j], s[i]);
    PassFirst(ret, t, j, s, i);
  }

  lemma AppendCanonical(rs: seq<Region>, r: Region)
    requires Canonical(rs) && r.begin < r.end && forall k :: 0 <= k < |rs| ==> rs[k].end < r.begin
    ensures Canonical(rs + [r])
  {
  }

  lemma SharedByFirst(s: seq<Region>, i: nat, t: seq<Region>, j: nat, x: int)
    requires Canonical(s) && Canonical(t) && i < |s| && j < |t| && s[i].end <= t[j].end
    ensures s[i].Has(x) && Covers(t, x) ==> Covers(t[..j], x) || t[j].Has(x)
    ensures s[i].Has(x) && t[j].Has(x) ==> Covers(s, x) && Covers(t, x)
  {
    if s[i].Has(x) && Covers(t, x) {
      var k :| 0 <= k < |t| && t[k].Has(x);
      if k < j { assert t[..j][k].Has(x); }
    }
  }

  /** Every region of rs before i ends before r does and starts no later; the i-th starts too late. */
  lemma NotIncluded(rs: seq<Region>, r: Region, i: nat) returns (x: int)
    requires Canonical(rs) && i <= |rs| && r.begin < r.end
    requires forall k :: 0 <= k < i ==> rs[k].begin <= r.begin && rs[k].end < r.end
    requires i < |rs| ==> r.begin < rs[i].begin
    ensures r.Has(x) && !Covers(rs, x)
  {
    x := if i == 0 then r.begin else Max(r.begin, rs[i - 1].end);
  }

  /** Regions from i on that start at or behind the end of r hold none of its points. */
  lemma PassedAll(rs: seq<Region>, i: nat, r: Region)
    requires i <= |rs| && forall k :: i <= k < |rs| ==> r.end <= rs[k].begin
    ensures forall x :: r.Has(x) && Covers(rs, x) ==> Covers(rs[..i], x)
  {
    assert rs == rs[..i] + rs[i..];
    forall x | r.Has(x) && Covers(rs, x) ensures Covers(rs[..i], x) {
      CoversConcat(rs[..i], rs[i..], x);
    }
  }

  lemma GapBefore(rs: seq<Region>, i: nat, begin: nat)
    requires Canonical(rs) && i <= |rs|
    requires forall k :: 0 <= k < i ==> rs[k].end <= begin
    ensures forall x :: begin <= x && (i < |rs| ==> x < rs[i].begin) ==> !Covers(rs, x)
  {
  }

  lemma AppendCovers(rs: seq<Region>, r: Region)
    ensures forall x :: Covers(rs + [r], x) <==> Covers(rs, x) || r.Has(x)
  {
    forall x ensures Covers(rs + [r], x) <==> Covers(rs, x) || r.Has(x) {
      CoversConcat(rs, [r], x);
      CoversOne(r, x);
    }
  }

  lemma CoversNext(rs: seq<Region>, i: nat)
    requires i < |rs|
    ensures forall x :: Covers(rs[..i + 1], x) <==> Covers(rs[..i], x) || rs[i].Has(x)
  {
    assert rs[..i + 1] == rs[..i] + [rs[i]];
    AppendCovers(rs[..i], rs[i]);
  }

  lemma CoversOne(r: Region, x: int)
    ensures Covers([r], x) <==> r.Has(x)
  {
    assert [r][0] == r;
  }

  lemma CoversInsert(rs: seq<Region>, k: nat, r: Region, x: int)
    requires k <= |rs|
    ensures Covers(rs[..k] + [r] + rs[k..], x) <==> Covers(rs, x) || r.Has(x)
  {
    CoversConcat(rs[..k] + [r], rs[k..], x);
    CoversConcat(rs[..k], [r], x);
    CoversOne(r, x);
    assert rs == rs[..k] + rs[k..];
    CoversConcat(rs[..k], rs[k..], x);
  }

  lemma InsertCanonical(rs: seq<Region>, k: nat, r: Region)
    requires Canonical(rs) && r.begin < r.end && k <= |rs|
    requires 0 < k ==> rs[k - 1].end < r.begin
    requires k < |rs| ==> r.end < rs[k].begin
    ensures Canonical(rs[..k] + [r] + rs[k..])
    ensures forall x :: Covers(rs[..k] + [r] + rs[k..], x) <==> Covers(rs, x) || r.Has(x)
  {
    forall x ensures Covers(rs[..k] + [r] + rs[k..], x) <==> Covers(rs, x) || r.Has(x) {
      CoversInsert(rs, k, r, x);
    }
  }

  lemma GrowCanonical(rs: seq<Region>, k: nat, r: Region)
    requires Canonical(rs) && r.begin < r.end && k < |rs|
    requires 0 < k ==> rs[k - 1].end < r.begin
    requires r.begin <= rs[k].end && rs[k].begin <= r.end
    ensures Overlap(rs[k], r) || Contiguous(rs[k], r)
    ensures CanonicalBut(rs[..k] + [GetUnion(rs[k], r)] + rs[k + 1..], k)
    ensures forall x :: Covers(rs[..k] + [GetUnion(rs[k], r)] + rs[k + 1..], x) <==> Covers(rs, x) || r.Has(x)
  {
    var u := GetUnion(rs[k], r);
    forall x ensures Covers(rs[..k] + [u] + rs[k + 1..], x) <==> Covers(rs, x) || r.Has(x) {
      CoversReplace(rs, k, [u], x);
      CoversOne(u, x);
    }
  }

  ghost predicate Apart(r1: Region, r2: Region) {
    r1.end <= r2.begin || r2.end <= r1.begin
  }

  /** What is left of r1 outside r. */
  ghost function Rest(r1: Region, r: Region): seq<Region> {
    (if r1.begin < r.begin then [Region(r1.begin, r.begin)] else []) +
    (if r.end < r1.end then [Region(r.end, r1.end)] else [])
  }

  lemma RestCovers(r1: Region, r: Region, x: int)
    requires Overlap(r1, r) && r.begin < r.end
    ensures Covers(Rest(r1, r), x) <==> r1.Has(x) && !r.Has(x)
  {
    var s := if r1.begin < r.begin then [Region(r1.begin, r.begin)] else [];
    var t := if r.end < r1.end then [Region(r.end, r1.end)] else [];
    CoversConcat(s, t, x);
    if s != [] { CoversOne(s[0], x); }
    if t != [] { CoversOne(t[0], x); }
  }

  /** Replacing the k-th region by what is left of it outside r. */
  lemma CutCanonical(rs: seq<Region>, k: nat, r: Region)
    requires Canonical(rs) && k < |rs| && r.begin < r.end && Overlap(rs[k], r)
    ensures Canonical(rs[..k] + Rest(rs[k], r) + rs[k + 1..])
    ensures forall x :: !r.Has(x) ==> (Covers(rs[..k] + Rest(rs[k], r) + rs[k + 1..], x) <==> Covers(rs, x))
  {
    forall x | !r.Has(x) ensures Covers(rs[..k] + Rest(rs[k], r) + rs[k + 1..], x) <==> Covers(rs, x) {
      CoversReplace(rs, k, Rest(rs[k], r), x);
      RestCovers(rs[k], r, x);
    }
  }

  /** Canonical, except that the k-th region may reach into its successors. */
  ghost predicate CanonicalBut(rs: seq<Region>, k: int) {
    && 0 <= k < |rs|
    && (forall i :: 0 <= i < |rs| ==> rs[i].begin < rs[i].end)
    && (forall i, j :: 0 <= i < j < |rs| && i != k ==> rs[i].end < rs[j].begin)
    && (forall j :: k < j < |rs| ==> rs[k].begin < rs[j].begin)
  }

  lemma MergeNext(rs: seq<Region>, k: int)
    requires CanonicalBut(rs, k) && k + 1 < |rs| && rs[k].end >= rs[k + 1].begin
    ensures Overlap(rs[k], rs[k + 1]) || Contiguous(rs[k], rs[k + 1])
    ensures CanonicalBut(rs[..k] + [GetUnion(rs[k], rs[k + 1])] + rs[k + 2..], k)
    ensures forall x :: Covers(rs[..k] + [GetUnion(rs[k], rs[k + 1])] + rs[k + 2..], x) <==> Covers(rs, x)
  {
    var u := GetUnion(rs[k], rs[k + 1]);
    forall x ensures Covers(rs[..k] + [u] + rs[k + 2..], x) <==> Covers(rs, x) {
      assert rs == rs[..k] + [rs[k], rs[k + 1]] + rs[k + 2..];
      CoversConcat(rs[..k] + [rs[k], rs[k + 1]], rs[k + 2..], x);
      CoversConcat(rs[..k], [rs[k]] + [rs[k + 1]], x);
      assert [rs[k], rs[k + 1]] == [rs[k]] + [rs[k + 1]];
      CoversConcat([rs[k]], [rs[k + 1]], x);
      CoversOne(rs[k], x);
      CoversOne(rs[k + 1], x);
      CoversConcat(rs[..k] + [u], rs[k + 2..], x);
      CoversConcat(rs[..k], [u], x);
      CoversOne(u, x);
    }
  }
}

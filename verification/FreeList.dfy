/** The free list of the remote-memory allocators: free blocks in address order, neighbours always merged. */
module FreeLists {
  import opened Options
  import opened RegionSets
  import opened Arithmetic

  /** The free blocks and the live ones share out the arena from base to end, without overlap. */
  ghost predicate SharesOut(fl: seq<Region>, live: seq<Region>, base: nat, end: nat) {
    && Canonical(fl)
    && (forall i :: 0 <= i < |live| ==> live[i].begin < live[i].end)
    && (forall i, j :: 0 <= i < j < |live| ==> !Overlap(live[i], live[j]))
    && forall x :: (base <= x < end <==> Covers(fl, x) || Covers(live, x)) && !(Covers(fl, x) && Covers(live, x))
  }

  ghost predicate Took(fl: seq<Region>, fl': seq<Region>, r: Region) {
    && Canonical(fl')
    && forall x :: (r.Has(x) ==> Covers(fl, x)) && (Covers(fl', x) <==> Covers(fl, x) && !r.Has(x))
  }

  ghost predicate Gave(fl: seq<Region>, fl': seq<Region>, r: Region) {
    && Canonical(fl') && forall x :: Covers(fl', x) <==> Covers(fl, x) || r.Has(x)
  }

  class FreeList {
    /** A free block of a given address and size is the region from its address to its end. */
    var fl: seq<Region>

    ghost predicate Valid()
      reads this
    {
      Canonical(fl)
    }

    constructor (addr: nat, size: nat)
      requires size > 0
      ensures Valid() && fl == [Region(addr, addr + size)]
    {
      fl := [Region(addr, addr + size)];
    }

    /** First fit: the front part of the first block that is large enough; None exactly when no block is. */
    method Get(size: nat) returns (r: Option<nat>)
      requires Valid() && size > 0
      modifies this
      ensures Valid()
      ensures r.None? <==> forall i :: 0 <= i < |old(fl)| ==> old(fl)[i].end - old(fl)[i].begin < size
      ensures r.None? ==> fl == old(fl)
      ensures r.Some? ==> Took(old(fl), fl, Region(r.value, r.value + size))
      ensures r.Some? ==> (exists i :: 0 <= i < |old(fl)| && r.value == old(fl)[i].begin &&
                                  forall j :: 0 <= j < i ==> old(fl)[j].end - old(fl)[j].begin < size)
    {
      var it := 0;
      while it < |fl|
        invariant 0 <= it <= |fl| && fl == old(fl)
        invariant forall j :: 0 <= j < it ==> fl[j].end - fl[j].begin < size
      {
        var e := fl[it];
        if e.end - e.begin == size {
          TakeWhole(fl, it);
          fl := fl[..it] + fl[it + 1..];
          return Some(e.begin);
        } else if e.end - e.begin > size {
          TakeFront(fl, it, size);
          fl := fl[it := Region(e.begin + size, e.end)];
          return Some(e.begin);
        }
        it := it + 1;
      }
      return None;
    }

    /** A block is given back; it must not be free already. */
    method Add(addr: nat, size: nat)
      requires Valid() && forall x :: addr <= x < addr + size ==> !Covers(fl, x)
      modifies this
      ensures Gave(old(fl), fl, Region(addr, addr + size))
    {
      if size == 0 { return; }
      var r := Region(addr, addr + size);
      var it := 0;
      while it < |fl|
        invariant 0 <= it <= |fl| && fl == old(fl)
        invariant forall j :: 0 <= j < it ==> fl[j].end < addr
      {
        BeforeOrBehind(fl, it, r);
        if addr + size == fl[it].begin {
          GiveBefore(fl, it, r);
          fl := fl[it := Region(addr, fl[it].end)];
          return;
        } else if addr + size < fl[it].begin {
          GiveAlone(fl, it, r);
          fl := fl[..it] + [r] + fl[it..];
          return;
        } else if addr == fl[it].end {
          if it + 1 < |fl| && fl[it + 1].begin == addr + size {
            GiveBetween(fl, it, r);
            fl := fl[..it] + [Region(fl[it].begin, fl[it + 1].end)] + fl[it + 2..];
          } else {
            if it + 1 < |fl| { BeforeOrBehind(fl, it + 1, r); }
            GiveAfter(fl, it, r);
            fl := fl[it := Region(fl[it].begin, addr + size)];
          }
          return;
        }
        it := it + 1;
      }
      GiveAlone(fl, it, r);
      fl := fl[..it] + [r] + fl[it..];
    }

    /** An aligned block, cut out of a larger one where necessary; None leaves the list as it was. */
    method GetAligned(size: nat, alignment: nat) returns (r: Option<nat>)
      requires Valid() && size > 0 && alignment > 0
      modifies this
      ensures Valid()
      ensures r.None? ==> fl == old(fl)
      ensures r.Some? ==> r.value % alignment == 0 && Took(old(fl), fl, Region(r.value, r.value + size))
      ensures (exists i :: 0 <= i < |old(fl)| && old(fl)[i].end - old(fl)[i].begin >= size + alignment) ==> r.Some?
    {
      var s := Get(size);
      if s.None? { return None; }
      if s.value % alignment == 0 { return s; }
      Add(s.value, size);
      CanonicalUnique(fl, old(fl));
      r := CutAligned(size, alignment);
    }

    /** A larger block is taken, and what lies before and behind the aligned part is given back. */
    method CutAligned(size: nat, alignment: nat) returns (r: Option<nat>)
      requires Valid() && size > 0 && alignment > 0
      modifies this
      ensures Valid()
      ensures r.None? ==> fl == old(fl)
      ensures r.None? <==> forall i :: 0 <= i < |old(fl)| ==> old(fl)[i].end - old(fl)[i].begin < size + alignment
      ensures r.Some? ==> r.value % alignment == 0 && Took(old(fl), fl, Region(r.value, r.value + size))
    {
      var reqSize := size + alignment;
      var s := Get(reqSize);
      if s.None? { return None; }
      var got := s.value;
      var ret := RoundUp(got, alignment);
      RoundUpIs(got, alignment);
      ghost var fl1 := fl;
      Add(got, ret - got);
      ghost var fl2 := fl;
      Add(ret + size, got + reqSize - (ret + size));
      CutIsTaking(old(fl), fl1, fl2, fl, got, ret, size, reqSize);
      return Some(ret);
    }
  }

  lemma CutIsTaking(fl: seq<Region>, fl1: seq<Region>, fl2: seq<Region>, fl3: seq<Region>, got: nat, ret: nat, size: nat, req: nat)
    requires got <= ret && ret + size <= got + req
    requires Took(fl, fl1, Region(got, got + req)) && Gave(fl1, fl2, Region(got, ret)) && Gave(fl2, fl3, Region(ret + size, got + req))
    ensures Took(fl, fl3, Region(ret, ret + size))
  {
  }

  /* ---------------------------------------------------------------- what the steps do to the covered points */

  lemma TakeWhole(fl: seq<Region>, it: nat)
    requires Canonical(fl) && it < |fl|
    ensures Took(fl, fl[..it] + fl[it + 1..], fl[it])
  {
    var fl' := fl[..it] + fl[it + 1..];
    forall x ensures (fl[it].Has(x) ==> Covers(fl, x)) && (Covers(fl', x) <==> Covers(fl, x) && !fl[it].Has(x)) {
      CoversReplace(fl, it, [], x);
      assert fl[..it] + [] + fl[it + 1..] == fl';
      Alone(fl, it, x);
    }
  }

  /** Different free blocks share no point. */
  lemma Alone(fl: seq<Region>, it: nat, x: int)
    requires Canonical(fl) && it < |fl|
    ensures fl[it].Has(x) ==> !Covers(fl[..it], x) && !Covers(fl[it + 1..], x)
  {
  }

  lemma TakeFront(fl: seq<Region>, it: nat, size: nat)
    requires Canonical(fl) && it < |fl| && 0 < size < fl[it].end - fl[it].begin
    ensures Took(fl, fl[it := Region(fl[it].begin + size, fl[it].end)], Region(fl[it].begin, fl[it].begin + size))
  {
    var e := fl[it];
    var e' := Region(e.begin + size, e.end);
    var fl' := fl[it := e'];
    forall x ensures (Region(e.begin, e.begin + size).Has(x) ==> Covers(fl, x)) &&
                     (Covers(fl', x) <==> Covers(fl, x) && !Region(e.begin, e.begin + size).Has(x)) {
      CoversReplace(fl, it, [e'], x);
      assert fl[..it] + [e'] + fl[it + 1..] == fl';
      CoversOne(e', x);
      Alone(fl, it, x);
    }
  }

  /** A region that shares no point with a list lies before or behind each of its regions. */
  lemma BeforeOrBehind(fl: seq<Region>, it: nat, r: Region)
    requires Canonical(fl) && it < |fl| && r.begin < r.end && forall x :: r.begin <= x < r.end ==> !Covers(fl, x)
    ensures r.end <= fl[it].begin || fl[it].end <= r.begin
  {
    var e := fl[it];
    assert e.Has(r.begin) ==> Covers(fl, r.begin);
    assert e.Has(e.begin) && Covers(fl, e.begin);
  }

  lemma GiveAlone(fl: seq<Region>, it: nat, r: Region)
    requires Canonical(fl) && it <= |fl| && r.begin < r.end
    requires (forall j :: 0 <= j < it ==> fl[j].end < r.begin) && (it < |fl| ==> r.end < fl[it].begin)
    ensures Gave(fl, fl[..it] + [r] + fl[it..], r)
  {
    var fl' := fl[..it] + [r] + fl[it..];
    forall x ensures Covers(fl', x) <==> Covers(fl, x) || r.Has(x) {
      CoversConcat(fl[..it] + [r], fl[it..], x);
      CoversConcat(fl[..it], [r], x);
      CoversConcat(fl[..it], fl[it..], x);
      CoversOne(r, x);
      assert fl == fl[..it] + fl[it..];
    }
  }

  lemma Replaced(fl: seq<Region>, it: nat, e': Region, r: Region)
    requires it < |fl| && forall x :: e'.Has(x) <==> fl[it].Has(x) || r.Has(x)
    ensures forall x :: Covers(fl[it := e'], x) <==> Covers(fl, x) || r.Has(x)
  {
    forall x ensures Covers(fl[it := e'], x) <==> Covers(fl, x) || r.Has(x) {
      CoversReplace(fl, it, [e'], x);
      assert fl[..it] + [e'] + fl[it + 1..] == fl[it := e'];
      CoversOne(e', x);
    }
  }

  lemma GiveBefore(fl: seq<Region>, it: nat, r: Region)
    requires Canonical(fl) && it < |fl| && r.begin < r.end == fl[it].begin && forall j :: 0 <= j < it ==> fl[j].end < r.begin
    ensures Gave(fl, fl[it := Region(r.begin, fl[it].end)], r)
  {
    Replaced(fl, it, Region(r.begin, fl[it].end), r);
  }

  lemma GiveAfter(fl: seq<Region>, it: nat, r: Region)
    requires Canonical(fl) && it < |fl| && fl[it].end == r.begin < r.end && (it + 1 < |fl| ==> r.end < fl[it + 1].begin)
    ensures Gave(fl, fl[it := Region(fl[it].begin, r.end)], r)
  {
    Replaced(fl, it, Region(fl[it].begin, r.end), r);
  }

  lemma GiveBetween(fl: seq<Region>, it: nat, r: Region)
    requires Canonical(fl) && it + 1 < |fl| && fl[it].end == r.begin < r.end == fl[it + 1].begin
    ensures Gave(fl, fl[..it] + [Region(fl[it].begin, fl[it + 1].end)] + fl[it + 2..], r)
  {
    var m := Region(fl[it].begin, fl[it + 1].end);
    var fl' := fl[..it] + [m] + fl[it + 2..];
    forall x ensures Covers(fl', x) <==> Covers(fl, x) || r.Has(x) {
      CoversConcat(fl[..it] + [m], fl[it + 2..], x);
      CoversConcat(fl[..it], [m], x);
      CoversOne(m, x);
      CoversReplace(fl, it, [], x);
      CoversConcat([fl[it + 1]], fl[it + 2..], x);
      CoversOne(fl[it + 1], x);
      assert fl[it + 1..] == [fl[it + 1]] + fl[it + 2..];
    }
  }

  /* ---------------------------------------------------------------- conservation */

  /** An allocation is disjoint from all live blocks, and nothing is lost. */
  lemma TakeShares(fl: seq<Region>, fl': seq<Region>, live: seq<Region>, r: Region, base: nat, end: nat)
    requires SharesOut(fl, live, base, end) && Took(fl, fl', r) && r.begin < r.end
    ensures SharesOut(fl', live + [r], base, end)
    ensures forall i :: 0 <= i < |live| ==> !Overlap(live[i], r)
  {
    forall i | 0 <= i < |live| ensures !Overlap(live[i], r) {
      var x := Max(live[i].begin, r.begin);
      if Overlap(live[i], r) {
        assert live[i].Has(x) && r.Has(x);
        assert Covers(live, x);
      }
    }
    forall x ensures (base <= x < end <==> Covers(fl', x) || Covers(live + [r], x)) && !(Covers(fl', x) && Covers(live + [r], x)) {
      CoversConcat(live, [r], x);
      CoversOne(r, x);
    }
  }

  /** A live block may be given back at any time, in any order. */
  lemma GiveShares(fl: seq<Region>, fl': seq<Region>, live: seq<Region>, k: nat, base: nat, end: nat)
    requires SharesOut(fl, live, base, end) && k < |live|
    ensures forall x :: live[k].Has(x) ==> !Covers(fl, x)
    ensures Gave(fl, fl', live[k]) ==> SharesOut(fl', live[..k] + live[k + 1..], base, end)
  {
    var rest := live[..k] + live[k + 1..];
    forall x ensures (Covers(live, x) <==> Covers(rest, x) || live[k].Has(x)) && (live[k].Has(x) ==> !Covers(rest, x)) &&
                     (live[k].Has(x) ==> !Covers(fl, x) && base <= x < end) {
      CoversReplace(live, k, [], x);
      assert live[..k] + [] + live[k + 1..] == rest;
      CoversConcat(live[..k], live[k + 1..], x);
      OthersApart(live, k, x);
      assert live[k].Has(x) ==> Covers(live, x);
    }
  }

  lemma OthersApart(live: seq<Region>, k: nat, x: int)
    requires k < |live| && forall i, j :: 0 <= i < j < |live| ==> !Overlap(live[i], live[j])
    ensures live[k].Has(x) ==> !Covers(live[..k], x) && !Covers(live[k + 1..], x)
  {
  }

  /** With no live block the list is the single block it began with. */
  lemma AllReturned(fl: seq<Region>, base: nat, end: nat)
    requires SharesOut(fl, [], base, end) && base < end
    ensures fl == [Region(base, end)]
  {
    forall x ensures Covers(fl, x) <==> Covers([Region(base, end)], x) {
      CoversOne(Region(base, end), x);
    }
    CanonicalUnique(fl, [Region(base, end)]);
  }

  /* ---------------------------------------------------------------- any sequence of calls */

  /** The free list and the blocks handed out. */
  datatype Arena = Arena(free: seq<Region>, live: seq<Region>)

  datatype Call = Takes(r: Region) | Gives(k: nat)

  ghost predicate Next(a: Arena, call: Call, a': Arena) {
    match call
    case Takes(r) => r.begin < r.end && Took(a.free, a'.free, r) && a'.live == a.live + [r]
    case Gives(k) =>
      k < |a.live| && Gave(a.free, a'.free, a.live[k]) && a'.live == a.live[..k] + a.live[k + 1..]
  }

  ghost predicate IsRun(arenas: seq<Arena>, calls: seq<Call>, base: nat, end: nat) {
    && |arenas| == |calls| + 1 && arenas[0] == Arena([Region(base, end)], [])
    && forall i :: 0 <= i < |calls| ==> Next(arenas[i], calls[i], arenas[i + 1])
  }

  lemma InitialShares(base: nat, end: nat)
    requires base < end
    ensures SharesOut([Region(base, end)], [], base, end)
  {
    forall x ensures Covers([Region(base, end)], x) <==> base <= x < end {
      CoversOne(Region(base, end), x);
    }
  }

  /** After any sequence of allocations and frees, free and live blocks share out the arena. */
  lemma {:induction false} RunsShareOut(arenas: seq<Arena>, calls: seq<Call>, base: nat, end: nat, n: nat)
    requires base < end && IsRun(arenas, calls, base, end) && n < |arenas|
    ensures SharesOut(arenas[n].free, arenas[n].live, base, end)
  {
    if n == 0 {
      InitialShares(base, end);
    } else {
      RunsShareOut(arenas, calls, base, end, n - 1);
      var a, a' := arenas[n - 1], arenas[n];
      assert Next(a, calls[n - 1], arenas[n - 1 + 1]);
      match calls[n - 1] {
        case Takes(r) => TakeShares(a.free, a'.free, a.live, r, base, end);
        case Gives(k) => GiveShares(a.free, a'.free, a.live, k, base, end);
      }
    }
  }

  /** No allocation of a run overlaps a block that is live then, and whenever all blocks have been given back, in
      whatever order, the list is the single block it began with. */
  lemma RunsAreSafe(arenas: seq<Arena>, calls: seq<Call>, base: nat, end: nat, n: nat)
    requires base < end && IsRun(arenas, calls, base, end) && n < |arenas|
    ensures arenas[n].live == [] ==> arenas[n].free == [Region(base, end)]
    ensures n < |calls| && calls[n].Takes? ==>
              forall i :: 0 <= i < |arenas[n].live| ==> !Overlap(arenas[n].live[i], calls[n].r)
  {
    RunsShareOut(arenas, calls, base, end, n);
    if arenas[n].live == [] { AllReturned(arenas[n].free, base, end); }
    if n < |calls| && calls[n].Takes? {
      assert Next(arenas[n], calls[n], arenas[n + 1]);
      TakeShares(arenas[n].free, arenas[n + 1].free, arenas[n].live, calls[n].r, base, end);
    }
  }
}

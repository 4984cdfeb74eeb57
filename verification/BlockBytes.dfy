/** The bytes of one cached block: the region sets and the data of the slot, on which the fetches, the puts and the
    invalidation run region by region. Every method is shown to do to the bytes of the block what the machine in module
    Coherence does to them. */
module BlockBytes {
  import opened Arithmetic
  import opened RegionSets
  import C = Coherence

  /** The bytes of to that rs covers come from from. */
  ghost predicate Copied(rs: seq<Region>, from: seq<nat>, was: seq<nat>, to: seq<nat>) {
    && |to| == |was| == |from|
    && forall o :: 0 <= o < |to| ==> to[o] == if Covers(rs, o) then from[o] else was[o]
  }

  ghost predicate Within(rs: seq<Region>, size: nat) {
    forall i :: 0 <= i < |rs| ==> rs[i].begin <= rs[i].end <= size
  }

  /** One transfer per region. */
  method Transfer(rs: seq<Region>, from: seq<nat>, to: array<nat>)
    requires Within(rs, to.Length) && |from| == to.Length
    modifies to
    ensures Copied(rs, from, old(to[..]), to[..])
  {
    for i := 0 to |rs|
      invariant Copied(rs[..i], from, old(to[..]), to[..])
    {
      CopyRegion(rs[i], from, to);
      CopiedNext(rs, i);
    }
    assert rs[..|rs|] == rs;
  }

  lemma CopiedNext(rs: seq<Region>, i: nat)
    requires i < |rs|
    ensures forall o :: Covers(rs[..i + 1], o) <==> Covers(rs[..i], o) || rs[i].Has(o)
  {
    CoversNext(rs, i);
  }

  method CopyRegion(r: Region, from: seq<nat>, to: array<nat>)
    requires r.begin <= r.end <= to.Length == |from|
    modifies to
    ensures forall o :: 0 <= o < to.Length ==> to[o] == if r.Has(o) then from[o] else old(to[o])
  {
    for k := r.begin to r.end
      invariant forall o :: 0 <= o < to.Length ==> to[o] == if r.begin <= o < k then from[o] else old(to[o])
    {
      to[k] := from[k];
    }
  }

  /** Bounded sets of points have bounded regions. */
  lemma CanonicalWithin(rs: seq<Region>, size: nat)
    requires Canonical(rs) && forall x :: Covers(rs, x) ==> x < size
    ensures Within(rs, size)
  {
    forall i | 0 <= i < |rs| ensures rs[i].end <= size {
      assert rs[i].Has(rs[i].end - 1);
      assert Covers(rs, rs[i].end - 1);
    }
  }

  lemma CanonicalAbove(rs: seq<Region>, base: nat)
    requires Canonical(rs) && forall x :: Covers(rs, x) ==> base <= x
    ensures forall i :: 0 <= i < |rs| ==> base <= rs[i].begin
  {
    forall i | 0 <= i < |rs| ensures base <= rs[i].begin {
      assert rs[i].Has(rs[i].begin);
      assert Covers(rs, rs[i].begin);
    }
  }

  lemma EmptyCovers(rs: seq<Region>)
    requires Canonical(rs)
    ensures rs == [] <==> forall x :: !Covers(rs, x)
  {
    if rs != [] {
      assert rs[0].Has(rs[0].begin);
      assert Covers(rs, rs[0].begin);
    }
  }

  class Block {
    const c: C.Config
    const number: nat
    const base: nat
    const valid: RegionSet
    const dirty: RegionSet
    /** The slot, one version per byte. */
    const data: array<nat>

    ghost const Repr: set<object> := {this, valid, dirty, data}

    ghost predicate Valid()
      reads this, valid, dirty
    {
      && c.Valid() && base == number * c.block && data.Length == c.block
      && valid != dirty && valid.Valid() && dirty.Valid()
      && forall x :: Covers(dirty.regions, x) ==> x < c.block
    }

    /** The block shows what process p has of its bytes. */
    ghost predicate Shows(p: C.Proc)
      reads this, valid, dirty, data
      requires Valid()
    {
      forall o: nat :: o < c.block ==>
        && (base + o in p.valid <==> Covers(valid.regions, o))
        && (base + o in p.dirty <==> Covers(dirty.regions, o))
        && data[o] == p.cache(base + o)
    }

    /** The versions that memory has of the bytes of the block. */
    ghost predicate Holds(memory: seq<nat>, versions: C.Versions)
      reads this
    {
      |memory| == c.block && forall o: nat :: o < c.block ==> memory[o] == versions(base + o)
    }

    /** The bytes of the block, by offset and by address. */
    lemma Offset(o: nat)
      requires Valid() && o < c.block
      ensures (base + o) / c.block == number
    {
      DivIs(base + o, c.block, number, o);
    }

    constructor (config: C.Config, blk: nat)
      requires config.Valid()
      ensures Valid() && fresh(Repr) && c == config && number == blk
      ensures valid.regions == [] && dirty.regions == []
    {
      c := config;
      number := blk;
      base := blk * config.block;
      valid := new RegionSet();
      dirty := new RegionSet();
      data := new nat[config.block](i => 0);
    }

    /** Requests by offset and by address. */
    lemma PadOffset(r: Region)
      requires Valid() && r.begin < r.end <= c.block
      ensures RoundDown(r.begin, c.sub) < RoundUp(r.end, c.sub) <= c.block
      ensures (base + r.begin) / c.block == number && C.InBlock(c, base + r.begin, base + r.end)
      ensures RoundDown(base + r.begin, c.sub) == base + RoundDown(r.begin, c.sub)
      ensures RoundUp(base + r.end, c.sub) == base + RoundUp(r.end, c.sub)
    {
      Offset(r.begin);
      var k, l := C.BlockBounds(c, number);
      ShiftDown(k, r.begin, c.sub);
      ShiftUp(k, r.end, c.sub);
      RoundDownIs(r.begin, c.sub);
      RoundUpIs(r.end, c.sub);
      RoundUpBelow(base + r.end, c.sub, l);
    }

    /** The points of a request are the bytes of its range. */
    lemma RequestBytes(r: Region, lo: nat, hi: nat)
      requires Valid() && Requests(r, lo, hi)
      ensures forall o: nat :: o < c.block ==> (base + o in C.Range(lo, hi) <==> r.Has(o)) && (base + o in C.Pad(c, lo, hi) <==> Padded(r).Has(o))
      ensures r.Has(r.begin) && Padded(r).begin < Padded(r).end <= c.block
    {
      PadOffset(r);
    }

    lemma RequestIncluded(r: Region, lo: nat, hi: nat, p: C.Proc)
      requires Valid() && Shows(p) && Requests(r, lo, hi)
      ensures C.Range(lo, hi) <= p.valid <==> forall x :: r.Has(x) ==> Covers(valid.regions, x)
    {
      RequestBytes(r, lo, hi);
      if C.Range(lo, hi) <= p.valid {
        forall x | r.Has(x) ensures Covers(valid.regions, x) {
          assert base + x in C.Range(lo, hi);
        }
      } else {
        var b: nat :| b in C.Range(lo, hi) && b !in p.valid;
        assert r.Has(b - base);
      }
    }

    function Padded(r: Region): Region
      requires c.sub > 0
    {
      Region(RoundDown(r.begin, c.sub), RoundUp(r.end, c.sub))
    }

    ghost predicate Requests(r: Region, lo: nat, hi: nat)
      reads this
    {
      r.begin < r.end <= c.block && lo == base + r.begin && hi == base + r.end
    }

    /** fetch_begin: unless all of r is valid, the regions of the padded request that are not valid are fetched. */
    method FetchBegin(r: Region, home: seq<nat>, lo: nat, hi: nat, ghost versions: C.Versions, ghost p: C.Proc) returns (started: bool)
      requires Valid() && Shows(p) && Requests(r, lo, hi) && Holds(home, versions)
      modifies valid, data
      ensures Valid() && Shows(C.Fetch(c, p, versions, lo, hi))
      ensures started <==> !(C.Range(lo, hi) <= p.valid)
    {
      RequestBytes(r, lo, hi);
      RequestIncluded(r, lo, hi, p);
      var included := valid.Include(r);
      if included { return false; }
      FetchMissing(r, home, lo, hi, versions, p);
      return true;
    }

    method FetchMissing(r: Region, home: seq<nat>, lo: nat, hi: nat, ghost versions: C.Versions, ghost p: C.Proc)
      requires Valid() && Shows(p) && Requests(r, lo, hi) && Holds(home, versions) && !(C.Range(lo, hi) <= p.valid)
      modifies valid, data
      ensures Valid() && Shows(C.Fetch(c, p, versions, lo, hi))
    {
      RequestBytes(r, lo, hi);
      var pad := Padded(r);
      var fetches := valid.Complement(pad);
      CanonicalWithin(fetches, c.block);
      Transfer(fetches, home, data);
      valid.Add(pad);
      Fetched(old(data[..]), old(valid.regions), fetches, home, lo, hi, versions, p);
    }

    /** What the transfer leaves is what the machine fetches. */
    lemma Fetched(was: seq<nat>, regions: seq<Region>, fetches: seq<Region>, home: seq<nat>, lo: nat, hi: nat, versions: C.Versions, p: C.Proc)
      requires Valid() && Holds(home, versions) && !(C.Range(lo, hi) <= p.valid) && |was| == c.block
      requires Copied(fetches, home, was, data[..])
      requires forall o: nat :: o < c.block ==>
                 && (base + o in p.valid <==> Covers(regions, o))
                 && (base + o in p.dirty <==> Covers(dirty.regions, o)) && was[o] == p.cache(base + o)
                 && (Covers(fetches, o) <==> base + o in C.Pad(c, lo, hi) && !Covers(regions, o))
                 && (Covers(valid.regions, o) <==> Covers(regions, o) || base + o in C.Pad(c, lo, hi))
      ensures Shows(C.Fetch(c, p, versions, lo, hi))
    {
      assert forall o: nat :: o < c.block ==> data[o] == data[..][o];
    }

    /** checkout_blk on the bytes: a request to write only is marked valid without a fetch. */
    method Checkout(r: Region, skipFetch: bool, home: seq<nat>, lo: nat, hi: nat, ghost versions: C.Versions, ghost p: C.Proc) returns (started: bool)
      requires Valid() && Shows(p) && Requests(r, lo, hi) && Holds(home, versions)
      modifies valid, data
      ensures Valid() && Shows(if skipFetch then p.(valid := p.valid + C.Range(lo, hi)) else C.Fetch(c, p, versions, lo, hi))
      ensures started <==> !skipFetch && !(C.Range(lo, hi) <= p.valid)
    {
      if skipFetch {
        MarkValid(r, lo, hi, p);
        return false;
      }
      started := FetchBegin(r, home, lo, hi, versions, p);
    }

    /** A request that skips the fetch. */
    method MarkValid(r: Region, lo: nat, hi: nat, ghost p: C.Proc)
      requires Valid() && Shows(p) && Requests(r, lo, hi)
      modifies valid
      ensures Valid() && Shows(p.(valid := p.valid + C.Range(lo, hi)))
    {
      RequestBytes(r, lo, hi);
      valid.Add(r);
    }

    /** add_dirty_region on the bytes; the answer says whether the block was clean. */
    method MarkDirty(r: Region, lo: nat, hi: nat, ghost p: C.Proc) returns (isNew: bool)
      requires Valid() && Shows(p) && Requests(r, lo, hi)
      modifies dirty
      ensures Valid() && Shows(C.AddDirty(c, p, lo, hi))
      ensures isNew <==> C.OfBlock(c, p.dirty, number) == iset{}
    {
      isNew := dirty.regions == [];
      DirtyOfBlock(p);
      PadOffset(r);
      RequestBytes(r, lo, hi);
      dirty.Add(r);
    }

    lemma DirtyOfBlock(p: C.Proc)
      requires Valid() && Shows(p)
      ensures dirty.regions == [] <==> C.OfBlock(c, p.dirty, number) == iset{}
      ensures forall o: nat :: o < c.block ==> (base + o in C.OfBlock(c, p.dirty, number) <==> Covers(dirty.regions, o))
    {
      EmptyCovers(dirty.regions);
      forall o: nat | o < c.block ensures base + o in C.OfBlock(c, p.dirty, number) <==> Covers(dirty.regions, o) { Offset(o); }
      forall b: nat | b in C.OfBlock(c, p.dirty, number) ensures Covers(dirty.regions, b - base) {
        Remainder(b, c.block);
      }
      if dirty.regions != [] {
        var o: nat := dirty.regions[0].begin;
        assert dirty.regions[0].Has(o);
        assert Covers(dirty.regions, o);
        assert base + o in C.OfBlock(c, p.dirty, number);
      }
    }

    /** writeback_begin of the block: its dirty regions are put, and what home gets is what the machine sends. */
    method PutDirty(home: array<nat>, ghost p: C.Proc)
      requires Valid() && Shows(p) && home.Length == c.block && home != data
      modifies dirty, home
      ensures Valid() && Shows(C.PutBlock(c, p, number)) && dirty.regions == []
      ensures Gets(home[..], old(home[..]), p)
    {
      DirtyOfBlock(p);
      CanonicalWithin(dirty.regions, c.block);
      Transfer(dirty.regions, data[..], home);
      PutBytes(home[..], old(home[..]), p);
      dirty.regions := [];
    }

    /** home has what a put of the block of p sends, and otherwise what it was; nothing is dirty any more. */
    ghost predicate Gets(home: seq<nat>, was: seq<nat>, p: C.Proc)
      reads this
      requires c.Valid()
    {
      |home| == |was| == c.block && forall o: nat :: o < c.block ==> GetsByte(home[o], was[o], p, base + o)
    }

    ghost predicate GetsByte(home: nat, was: nat, p: C.Proc, b: nat)
      reads this
      requires c.Valid()
    {
      var p' := C.PutBlock(c, p, number);
      b !in p'.dirty && home == if b in C.OfBlock(c, p.dirty, number) then p'.sent(b) else was
    }

    lemma PutBytes(home: seq<nat>, was: seq<nat>, p: C.Proc)
      requires Valid() && Shows(p) && Copied(dirty.regions, data[..], was, home)
      ensures Gets(home, was, p)
    {
      DirtyOfBlock(p);
      forall o: nat | o < c.block ensures GetsByte(home[o], was[o], p, base + o) {
        Offset(o);
        assert data[..][o] == data[o] == p.cache(base + o);
        assert base + o in p.dirty <==> base + o in C.OfBlock(c, p.dirty, number);
      }
    }

    /** invalidate_all on the block: what it shares with the read-only regions, which are given by address, stays. */
    method Invalidate(readonly: RegionSet, ghost p: C.Proc)
      requires Valid() && Shows(p) && readonly.Valid() && readonly != valid && readonly != dirty && dirty.regions == []
      modifies valid
      ensures Valid() && forall o: nat :: o < c.block ==>
                (Covers(valid.regions, o) <==> base + o in p.valid && Covers(readonly.regions, base + o))
    {
      var block := Region(base, base + c.block);
      var shared := readonly.IntersectRegion(block);
      if shared == [] {
        valid.regions := [];
      } else if shared[0] != block {
        CanonicalAbove(shared, base);
        var offsets := ToOffsets(shared);
        valid.regions := valid.IntersectSet(offsets);
      }
    }

    /** Regions of the block by offset; each one is added behind the last. */
    method ToOffsets(shared: seq<Region>) returns (offsets: RegionSet)
      requires Valid() && Canonical(shared) && forall i :: 0 <= i < |shared| ==> base <= shared[i].begin
      ensures fresh(offsets) && offsets.Valid()
      ensures forall x :: Covers(offsets.regions, x) <==> Covers(shared, base + x)
    {
      offsets := new RegionSet();
      var it := -1;
      for i := 0 to |shared|
        invariant fresh(offsets) && offsets.Valid() && -1 <= it < |offsets.regions|
        invariant 0 <= it ==> 0 < i && offsets.regions[it].end <= shared[i - 1].end - base
        invariant forall x :: Covers(offsets.regions, x) <==> Covers(shared[..i], base + x)
      {
        it := offsets.AddFrom(Region(shared[i].begin - base, shared[i].end - base), it);
        CopiedNext(shared, i);
        assert forall x :: Covers(offsets.regions, x) <==> Covers(shared[..i + 1], base + x);
        LastBehind(offsets.regions, it, shared, i, base);
      }
      assert shared[..|shared|] == shared;
    }
  }

  lemma LastBehind(offsets: seq<Region>, it: nat, shared: seq<Region>, i: nat, base: nat)
    requires Canonical(offsets) && Canonical(shared) && it < |offsets| && i < |shared|
    requires forall x :: Covers(offsets, x) ==> Covers(shared[..i + 1], base + x)
    ensures offsets[it].end <= shared[i].end - base
  {
    assert offsets[it].Has(offsets[it].end - 1);
    assert Covers(offsets, offsets[it].end - 1);
    assert Covers(shared[..i + 1], base + offsets[it].end - 1);
  }
}

/** Requests on a collective allocation: the loops over segments and blocks, and the uncached get and put built on them.
    They work for any mapper that places bytes as a bijection; the memories of the ranks are then one flat array. */
module CollMems {
  import opened Arithmetic
  import opened Placement

  /** What the interface of the mappers promises: an effective size, and for each offset its segment. */
  datatype Layout = Layout(n: int, bs: int, size: int, seg: int -> Segment, localSize: int -> int)

  function HomeOf(l: Layout, o: int): (int, int) {
    (l.seg(o).owner, l.seg(o).pm + (o - l.seg(o).b))
  }

  ghost predicate SegmentOk(l: Layout, o: int)
    requires l.bs > 0
  {
    var s := l.seg(o);
    && 0 <= s.b <= o < s.e <= l.size && 0 <= s.owner < l.n
    && 0 <= s.pm && s.pm + (s.e - s.b) <= l.localSize(s.owner)
    && s.b % l.bs == 0 && s.e % l.bs == 0
  }

  /** The segments tile the allocation, lie in the memories of their owners, and no two bytes share a home. */
  ghost predicate IsPlacement(l: Layout) {
    && l.n > 0 && l.bs > 0
    && (forall o :: 0 <= o < l.size ==> SegmentOk(l, o))
    && (forall o, x :: 0 <= o < l.size && l.seg(o).b <= x < l.seg(o).e ==> l.seg(x) == l.seg(o))
    && (forall o, x :: 0 <= o < l.size && 0 <= x < l.size && HomeOf(l, o) == HomeOf(l, x) ==> o == x)
  }

  function LayoutOf(m: Mapper): Layout
    requires Placement.Valid(m)
  {
    Layout(m.n, m.bs, EffectiveSize(m),
           o requires true => if 0 <= o < EffectiveSize(m) then GetSegment(m, o) else Segment(0, 0, 0, 0),
           r => LocalSize(m, r))
  }

  /** All three distributions are placements. */
  lemma MappersArePlacements(m: Mapper)
    requires Placement.Valid(m)
    ensures IsPlacement(LayoutOf(m))
  {
    var l := LayoutOf(m);
    forall o | 0 <= o < l.size ensures SegmentOk(l, o) {
      SegmentHolds(m, o);
    }
    forall o, x | 0 <= o < l.size && l.seg(o).b <= x < l.seg(o).e ensures l.seg(x) == l.seg(o) {
      SegmentsTile(m, o, x);
    }
    forall o, x | 0 <= o < l.size && 0 <= x < l.size && HomeOf(l, o) == HomeOf(l, x) ensures o == x {
      HomeRoundTrip(m, o);
      HomeRoundTrip(m, x);
    }
  }

  /** Block boundaries inside a segment. */
  lemma BlockInSegment(d: int, b: int, e: int, x: int, blk: int)
    requires d > 0 && b % d == 0 && e % d == 0 && b <= x < e && blk % d == 0 && blk <= x < blk + d
    ensures b <= blk && blk + d <= e
  {
    Remainder(b, d);
    Remainder(e, d);
    Remainder(blk, d);
    var k := blk / d;
    LessTimes(k, b / d, d);
    LessTimes(e / d, k + 1, d);
    NextTimes(k, d);
  }

  lemma NextBlock(blk: int, d: int)
    requires d > 0 && blk % d == 0
    ensures (blk + d) % d == 0
  {
    Remainder(blk, d);
    NextTimes(blk / d, d);
    DivIs(blk + d, d, blk / d + 1, 0);
  }

  class CollMem<T> {
    const l: Layout
    /** The rank of this process. */
    const me: int
    /** The memories of all ranks. */
    var mem: seq<seq<T>>

    ghost predicate Valid()
      reads this
    {
      IsPlacement(l) && |mem| == l.n && forall r :: 0 <= r < l.n ==> |mem[r]| == l.localSize(r)
    }

    /** The byte at offset o of the allocation. */
    ghost function At(o: int): T
      reads this
      requires Valid() && 0 <= o < l.size
    {
      assert SegmentOk(l, o);
      mem[HomeOf(l, o).0][HomeOf(l, o).1]
    }

    /** The part of segment seg that a request touches: the bytes from b to e. */
    ghost predicate InSegment(seg: Segment, b: int, e: int) {
      && l.bs > 0 && 0 <= seg.owner < l.n && 0 <= seg.pm && seg.pm + (seg.e - seg.b) <= l.localSize(seg.owner)
      && seg.b % l.bs == 0 && seg.e % l.bs == 0 && 0 <= seg.b <= b < e <= seg.e <= l.size
      && forall x :: b <= x < e ==> l.seg(x) == seg
    }

    lemma PartOfSegment(o: int, start: int, end: int)
      requires IsPlacement(l) && 0 <= start <= o < end <= l.size
      ensures InSegment(l.seg(o), Max(start, l.seg(o).b), Min(end, l.seg(o).e)) && l.seg(o).b <= o < l.seg(o).e
    {
      assert SegmentOk(l, o);
    }

    /** What has been read of a request. */
    ghost predicate Read(buf: array<T>, start: int, b: int, e: int)
      reads this, buf
      requires Valid()
    {
      && 0 <= start <= b && e <= start + buf.Length && start + buf.Length <= l.size
      && forall o :: b <= o < e ==> buf[o - start] == At(o)
    }

    /** get_coll: the whole request, whatever segments and blocks it touches, is one copy of the flat array. */
    method GetColl(start: int, buf: array<T>)
      requires Valid() && 0 <= start && start + buf.Length <= l.size
      modifies buf
      ensures forall i :: 0 <= i < buf.Length ==> buf[i] == At(start + i)
    {
      var end := start + buf.Length;
      var offset := start;
      while offset < end
        invariant start <= offset && Read(buf, start, start, Min(offset, end))
        decreases end - offset
      {
        var seg := l.seg(offset);
        PartOfSegment(offset, start, end);
        GetSegmentPart(start, buf, seg, Max(start, seg.b), Min(end, seg.e));
        offset := seg.e;
      }
      assert forall i :: 0 <= i < buf.Length ==> buf[i] == buf[(start + i) - start];
    }

    method GetSegmentPart(start: int, buf: array<T>, seg: Segment, b: int, e: int)
      requires Valid() && InSegment(seg, b, e) && 0 <= start <= b && e <= start + buf.Length <= l.size
      modifies buf
      ensures Read(buf, start, b, e)
      ensures forall i :: 0 <= i < b - start ==> buf[i] == old(buf[i])
    {
      if seg.owner == me {
        CopyOut(seg, b, buf, b - start, e - b);
      } else {
        GetBlocks(start, buf, seg, b, e);
      }
    }

    /** memcpy or a remote get: the bytes from offset o of a segment. */
    method CopyOut(seg: Segment, o: int, buf: array<T>, at: int, len: int)
      requires Valid() && len > 0 && InSegment(seg, o, o + len) && 0 <= at && at + len <= buf.Length
      modifies buf
      ensures forall i :: 0 <= i < buf.Length ==> buf[i] == if at <= i < at + len then At(o + (i - at)) else old(buf[i])
    {
      forall i | at <= i < at + len { buf[i] := mem[seg.owner][seg.pm + (o + (i - at) - seg.b)]; }
      forall i | at <= i < at + len ensures buf[i] == At(o + (i - at)) {
        assert l.seg(o + (i - at)) == seg;
      }
    }

    /** The blocks of the request, with the source's check that each block lies in the memory of its owner. */
    method GetBlocks(start: int, buf: array<T>, seg: Segment, b: int, e: int)
      requires Valid() && InSegment(seg, b, e) && 0 <= start <= b && e <= start + buf.Length <= l.size
      modifies buf
      ensures Read(buf, start, b, e)
      ensures forall i :: 0 <= i < b - start ==> buf[i] == old(buf[i])
    {
      var blk := RoundDown(b, l.bs);
      RoundDownIs(b, l.bs);
      while blk < e
        invariant blk % l.bs == 0 && blk + l.bs > b
        invariant Read(buf, start, b, Min(Max(blk, b), e))
        invariant forall i :: 0 <= i < b - start ==> buf[i] == old(buf[i])
        decreases e - blk
      {
        GetBlock(start, buf, seg, b, e, blk);
        NextBlock(blk, l.bs);
        blk := blk + l.bs;
      }
    }

    /** The part of the request in one block, which lies in the owner's memory as a whole. */
    method GetBlock(start: int, buf: array<T>, seg: Segment, b: int, e: int, blk: int)
      requires Valid() && InSegment(seg, b, e) && 0 <= start <= b && e <= start + buf.Length <= l.size
      requires blk % l.bs == 0 && b - l.bs < blk < e && Read(buf, start, b, Max(blk, b))
      modifies buf
      ensures Read(buf, start, b, Min(Max(blk + l.bs, b), e))
      ensures forall i :: 0 <= i < b - start ==> buf[i] == old(buf[i])
    {
      var reqB, reqE := Max(b, blk), Min(e, blk + l.bs);
      BlockInSegment(l.bs, seg.b, seg.e, reqB, blk);
      var pm := seg.pm + (blk - seg.b);
      assert pm + l.bs <= l.localSize(seg.owner);
      CopyOut(seg, reqB, buf, reqB - start, reqE - reqB);
    }

    ghost function Flat(): (s: seq<T>)
      reads this
      requires Valid() && l.size >= 0
      ensures |s| == l.size && forall o :: 0 <= o < l.size ==> s[o] == At(o)
    {
      seq(l.size, o requires 0 <= o < l.size && Valid() reads this => At(o))
    }

    /** What has been written of a request: data from offset b to e, and nothing else. */
    ghost predicate Written(was: seq<T>, start: int, data: seq<T>, b: int, e: int)
      reads this
    {
      && Valid() && |was| == l.size && 0 <= start <= b && e <= start + |data| <= l.size
      && forall o :: 0 <= o < l.size ==> At(o) == if b <= o < e then data[o - start] else was[o]
    }

    /** put_coll: the flat array is overwritten with data from start on, and nowhere else. */
    method PutColl(start: int, data: seq<T>)
      requires Valid() && 0 <= start && start + |data| <= l.size
      modifies this`mem
      ensures Written(old(Flat()), start, data, start, start + |data|)
    {
      var end := start + |data|;
      var offset := start;
      while offset < end
        invariant start <= offset && Written(old(Flat()), start, data, start, Min(offset, end))
        decreases end - offset
      {
        var seg := l.seg(offset);
        PartOfSegment(offset, start, end);
        PutSegmentPart(start, data, seg, Max(start, seg.b), Min(end, seg.e));
        offset := seg.e;
      }
    }

    method PutSegmentPart(start: int, data: seq<T>, seg: Segment, b: int, e: int)
      requires Valid() && InSegment(seg, b, e) && 0 <= start <= b && e <= start + |data| <= l.size
      modifies this`mem
      ensures Written(old(Flat()), start, data, b, e)
    {
      if seg.owner == me {
        CopyIn(seg, b, data[b - start..e - start]);
      } else {
        PutBlocks(start, data, seg, b, e);
      }
    }

    /** memcpy or a remote put of bytes into a segment. */
    method CopyIn(seg: Segment, o: int, bytes: seq<T>)
      requires Valid() && |bytes| > 0 && InSegment(seg, o, o + |bytes|)
      modifies this`mem
      ensures Valid()
      ensures forall x :: 0 <= x < l.size ==> At(x) == if o <= x < o + |bytes| then bytes[x - o] else old(At(x))
    {
      var pm := seg.pm + (o - seg.b);
      var was := mem[seg.owner];
      mem := mem[seg.owner := was[..pm] + bytes + was[pm + |bytes|..]];
      forall x | 0 <= x < l.size ensures At(x) == if o <= x < o + |bytes| then bytes[x - o] else old(At(x)) {
        assert SegmentOk(l, x);
        if o <= x < o + |bytes| {
          assert l.seg(x) == seg;
        } else {
          OutsidePart(seg, o, o + |bytes|, x);
        }
      }
    }

    /** A byte outside the part has its home outside the part's home. */
    lemma OutsidePart(seg: Segment, b: int, e: int, x: int)
      requires IsPlacement(l) && InSegment(seg, b, e) && 0 <= x < l.size && !(b <= x < e)
      ensures var (rank, pm) := HomeOf(l, x); rank != seg.owner || !(seg.pm + (b - seg.b) <= pm < seg.pm + (e - seg.b))
    {
      var y := HomeOf(l, x).1 - seg.pm + seg.b;
      assert b <= y < e ==> l.seg(y) == seg && HomeOf(l, y) != HomeOf(l, x);
    }

    method PutBlocks(start: int, data: seq<T>, seg: Segment, b: int, e: int)
      requires Valid() && InSegment(seg, b, e) && 0 <= start <= b && e <= start + |data| <= l.size
      modifies this`mem
      ensures Written(old(Flat()), start, data, b, e)
    {
      var blk := RoundDown(b, l.bs);
      RoundDownIs(b, l.bs);
      while blk < e
        invariant blk % l.bs == 0 && blk + l.bs > b
        invariant Written(old(Flat()), start, data, b, Min(Max(blk, b), e))
        decreases e - blk
      {
        var reqB, reqE := Max(b, blk), Min(e, blk + l.bs);
        BlockInSegment(l.bs, seg.b, seg.e, reqB, blk);
        var pm := seg.pm + (blk - seg.b);
        assert pm + l.bs <= l.localSize(seg.owner);
        CopyIn(seg, reqB, data[reqB - start..reqE - start]);
        NextBlock(blk, l.bs);
        blk := blk + l.bs;
      }
    }
  }
}

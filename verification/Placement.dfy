/** Where the bytes of a collective allocation live: the block, reversed-block and cyclic distributions. */
module Placement {
  import opened Arithmetic

  /** One allocation: its distribution, size, number of processes and block size. */
  datatype Policy = Block | BlockAdws | Cyclic(segSize: nat)

  datatype Mapper = Mapper(policy: Policy, size: nat, n: nat, bs: nat)

  datatype Segment = Segment(owner: int, b: int, e: int, pm: int)

  ghost predicate Valid(m: Mapper) {
    m.n > 0 && m.bs > 0 && (m.policy.Cyclic? ==> m.policy.segSize >= m.bs && m.policy.segSize % m.bs == 0)
  }

  function Blocks(m: Mapper): nat
    requires m.bs > 0
  {
    CeilDiv(m.size, m.bs)
  }

  /** The blocks of segment id, from the first to the one after the last. */
  function SegRange(m: Mapper, id: int): (int, int)
    requires m.n > 0 && m.bs > 0
  {
    if m.policy.Block? then (CeilDiv(id * Blocks(m), m.n), CeilDiv((id + 1) * Blocks(m), m.n))
    else ((id * Blocks(m)) / m.n, ((id + 1) * Blocks(m)) / m.n)
  }

  function CyclicLocal(m: Mapper): int
    requires Valid(m) && m.policy.Cyclic?
  {
    CeilDiv(CeilDiv(m.size, m.policy.segSize), m.n) * m.policy.segSize
  }

  function LocalSize(m: Mapper, rank: int): int
    requires Valid(m)
  {
    match m.policy
    case Block => var (b, e) := SegRange(m, rank); Max(1, e - b) * m.bs
    case BlockAdws => var (b, e) := SegRange(m, m.n - rank - 1); Max(1, e - b) * m.bs
    case Cyclic(_) => CyclicLocal(m)
  }

  function EffectiveSize(m: Mapper): int
    requires Valid(m)
  {
    if m.policy.Cyclic? then CyclicLocal(m) * m.n else Blocks(m) * m.bs
  }

  /** The number of the segment that block blk belongs to. */
  function SegId(m: Mapper, blk: int): int
    requires Valid(m) && Blocks(m) > 0
  {
    if m.policy.Block? then blk * m.n / Blocks(m) else CeilDiv((blk + 1) * m.n, Blocks(m)) - 1
  }

  function GetSegment(m: Mapper, offset: int): Segment
    requires Valid(m) && 0 <= offset < EffectiveSize(m)
  {
    match m.policy
    case Block =>
      var id := SegId(m, offset / m.bs);
      var (b, e) := SegRange(m, id);
      Segment(id, b * m.bs, e * m.bs, 0)
    case BlockAdws =>
      var id := SegId(m, offset / m.bs);
      var (b, e) := SegRange(m, id);
      Segment(m.n - id - 1, b * m.bs, e * m.bs, 0)
    case Cyclic(s) =>
      var g := offset / s;
      Segment(g % m.n, g * s, (g + 1) * s, g / m.n * s)
  }

  /** Block blk lies in exactly one segment. */
  lemma SegIdIs(m: Mapper, blk: int, id: int)
    requires Valid(m) && !m.policy.Cyclic? && Blocks(m) > 0
    ensures var (b, e) := SegRange(m, id); b <= blk < e <==> id == SegId(m, blk)
  {
    var nb := Blocks(m);
    if m.policy.Block? {
      CeilLe(id * nb, m.n, blk);
      CeilLe((id + 1) * nb, m.n, blk);
      DivLe(blk * m.n, nb, id);
      DivLe(blk * m.n, nb, id + 1);
    } else {
      DivLe(id * nb, m.n, blk + 1);
      DivLe((id + 1) * nb, m.n, blk + 1);
      CeilLe((blk + 1) * m.n, nb, id);
      CeilLe((blk + 1) * m.n, nb, id + 1);
    }
  }

  /** The segments of the ranks tile the blocks of the allocation. */
  lemma SegIdInRange(m: Mapper, blk: int)
    requires Valid(m) && !m.policy.Cyclic? && 0 <= blk < Blocks(m)
    ensures 0 <= SegId(m, blk) < m.n
    ensures var (b, e) := SegRange(m, SegId(m, blk)); 0 <= b <= blk < e <= Blocks(m)
  {
    var nb, id := Blocks(m), SegId(m, blk);
    SegIdIs(m, blk, id);
    if m.policy.Block? {
      DivLe(blk * m.n, nb, 0);
      DivLe(blk * m.n, nb, m.n);
      MulMono(blk + 1, nb, m.n);
    } else {
      CeilLe((blk + 1) * m.n, nb, 0);
      CeilLe((blk + 1) * m.n, nb, m.n);
      MulMono(blk + 1, nb, m.n);
      MulMono(1, blk + 1, m.n);
    }
    RangeBounds(m, id);
  }

  lemma RangeBounds(m: Mapper, id: int)
    requires Valid(m) && !m.policy.Cyclic? && 0 <= id < m.n
    ensures var (b, e) := SegRange(m, id); 0 <= b <= e <= Blocks(m)
  {
    CeilBounds(Blocks(m), m.n, id);
    FloorBounds(Blocks(m), m.n, id);
  }

  /* ---------------------------------------------------------------- segments */

  /** Every offset lies in its segment, whose bytes lie in the memory of its owner. */
  lemma SegmentHolds(m: Mapper, o: int)
    requires Valid(m) && 0 <= o < EffectiveSize(m)
    ensures var s := GetSegment(m, o);
            && 0 <= s.b <= o < s.e <= EffectiveSize(m) && 0 <= s.owner < m.n
            && 0 <= s.pm && s.pm + (s.e - s.b) <= LocalSize(m, s.owner)
            && s.b % m.bs == 0 && s.e % m.bs == 0 && s.pm % m.bs == 0
  {
    match m.policy {
      case Cyclic(s) => CyclicHolds(m, o, s);
      case _ =>
        DivLe(o, m.bs, 0);
        DivLe(o, m.bs, Blocks(m));
        var blk := o / m.bs;
        SegIdInRange(m, blk);
        var (b, e) := SegRange(m, SegId(m, blk));
        ScaleRange(b, e, blk, Blocks(m), m.bs, o);
        MulMono(e - b, Max(1, e - b), m.bs);
        Distributes(e, b, m.bs);
    }
  }

  lemma ScaleRange(b: int, e: int, blk: int, nb: int, d: int, o: int)
    requires d > 0 && 0 <= b <= blk < e <= nb && blk == o / d
    ensures 0 <= b * d <= o < e * d <= nb * d && (b * d) % d == 0 && (e * d) % d == 0
  {
    DivLe(o, d, b);
    DivLe(o, d, e);
    MulMono(e, nb, d);
    MulMono(0, b, d);
    TimesMod(b, d);
    TimesMod(e, d);
  }

  lemma CyclicHolds(m: Mapper, o: int, s: nat)
    requires Valid(m) && m.policy == Cyclic(s) && 0 <= o < EffectiveSize(m)
    ensures var seg := GetSegment(m, o);
            && 0 <= seg.b <= o < seg.e <= EffectiveSize(m) && 0 <= seg.owner < m.n
            && 0 <= seg.pm && seg.pm + (seg.e - seg.b) <= LocalSize(m, seg.owner)
            && seg.b % m.bs == 0 && seg.e % m.bs == 0 && seg.pm % m.bs == 0
  {
    var g := o / s;
    var l := CeilDiv(CeilDiv(m.size, s), m.n);
    Exchange(l, s, m.n);
    DivLe(o, s, 0);
    DivLe(o, s, g);
    DivLe(o, s, g + 1);
    DivLe(o, s, l * m.n);
    DivLe(g, m.n, 0);
    DivLe(g, m.n, l);
    MulMono(g + 1, l * m.n, s);
    MulMono(g / m.n + 1, l, s);
    MulMono(0, g, s);
    MulMono(0, g / m.n, s);
    NextTimes(g, s);
    NextTimes(g / m.n, s);
    MultipleOf(g, s, m.bs);
    MultipleOf(g + 1, s, m.bs);
    MultipleOf(g / m.n, s, m.bs);
  }

  /** All offsets of a segment give this very segment: the segments tile the allocation. */
  lemma SegmentsTile(m: Mapper, o: int, x: int)
    requires Valid(m) && 0 <= o < EffectiveSize(m)
    requires var s := GetSegment(m, o); s.b <= x < s.e
    ensures 0 <= x < EffectiveSize(m) && GetSegment(m, x) == GetSegment(m, o)
  {
    SegmentHolds(m, o);
    match m.policy {
      case Cyclic(s) =>
        var g := o / s;
        DivLe(x, s, g);
        DivLe(x, s, g + 1);
      case _ =>
        var blk, id := x / m.bs, SegId(m, o / m.bs);
        DivLe(o, m.bs, 0);
        DivLe(o, m.bs, Blocks(m));
        SegIdInRange(m, o / m.bs);
        var (b, e) := SegRange(m, id);
        DivLe(x, m.bs, b);
        DivLe(x, m.bs, e);
        SegIdIs(m, blk, id);
    }
  }

  /** Where a byte lives: the rank and the offset in its memory. */
  function Home(m: Mapper, o: int): (int, int)
    requires Valid(m) && 0 <= o < EffectiveSize(m)
  {
    var s := GetSegment(m, o);
    (s.owner, s.pm + (o - s.b))
  }

  /** The byte that lives at offset pm of a rank. */
  function OffsetOf(m: Mapper, rank: int, pm: int): int
    requires Valid(m)
  {
    match m.policy
    case Block => SegRange(m, rank).0 * m.bs + pm
    case BlockAdws => SegRange(m, m.n - rank - 1).0 * m.bs + pm
    case Cyclic(s) => (pm / s * m.n + rank) * s + pm % s
  }

  /** The placement is a bijection between the offsets and the homes they use: no two bytes share a home. */
  lemma HomeRoundTrip(m: Mapper, o: int)
    requires Valid(m) && 0 <= o < EffectiveSize(m)
    ensures var (rank, pm) := Home(m, o);
            0 <= rank < m.n && 0 <= pm < LocalSize(m, rank) && OffsetOf(m, rank, pm) == o
  {
    SegmentHolds(m, o);
    if m.policy.Cyclic? { CyclicBack(o, m.policy.segSize, m.n); }
  }

  lemma CyclicBack(o: int, s: int, n: int)
    requires 0 < s && 0 < n && 0 <= o
    ensures var g := o / s;
            var pm := g / n * s + (o - g * s);
            (pm / s * n + g % n) * s + pm % s == o
  {
    var g := o / s;
    var l := g / n;
    Remainder(o, s);
    Remainder(g, n);
    DivIs(l * s + (o - g * s), s, l, o - g * s);
  }

  lemma CyclicForth(rank: int, pm: int, s: int, n: int)
    requires 0 < s && 0 <= rank < n && 0 <= pm
    ensures var g := pm / s * n + rank;
            var o := g * s + pm % s;
            o / s == g && g % n == rank && g / n * s + (o - g * s) == pm
  {
    var l := pm / s;
    var g := l * n + rank;
    Remainder(pm, s);
    DivIs(g * s + pm % s, s, g, pm % s);
    DivIs(g, n, l, rank);
  }

  /** Under the cyclic distribution every byte of every rank's memory is used. */
  lemma CyclicIsOnto(m: Mapper, rank: int, pm: int)
    requires Valid(m) && m.policy.Cyclic? && 0 <= rank < m.n && 0 <= pm < LocalSize(m, rank)
    ensures var o := OffsetOf(m, rank, pm); 0 <= o < EffectiveSize(m) && Home(m, o) == (rank, pm)
  {
    var s := m.policy.segSize;
    var k := CeilDiv(CeilDiv(m.size, s), m.n);
    DivLe(pm, s, 0);
    DivLe(pm, s, k);
    InGrid(pm / s, m.n, rank, k);
    Remainder(pm, s);
    InGrid(pm / s * m.n + rank, s, pm % s, k * m.n);
    Exchange(k, s, m.n);
    CyclicForth(rank, pm, s, m.n);
  }

  /** The reversed distribution is the mirror image of the block distribution. */
  lemma AdwsIsMirror(m: Mapper, blk: int)
    requires Valid(m) && m.policy.BlockAdws? && 0 <= blk < Blocks(m)
    ensures m.n - SegId(m, blk) - 1 == SegId(m.(policy := Block), Blocks(m) - 1 - blk)
  {
    var m' := m.(policy := Block);
    var nb, id := Blocks(m), SegId(m', Blocks(m) - 1 - blk);
    var mirror := m.n - id - 1;
    SegIdIs(m', nb - 1 - blk, id);
    Mirror(m, id);
    SegIdIs(m, blk, mirror);
  }

  /** The range of a segment counted from the other end. */
  lemma Mirror(m: Mapper, id: int)
    requires Valid(m) && m.policy.BlockAdws?
    ensures var (b, e) := SegRange(m.(policy := Block), id); SegRange(m, m.n - id - 1) == (Blocks(m) - e, Blocks(m) - b)
  {
    MirrorBound(Blocks(m), m.n, id);
    MirrorBound(Blocks(m), m.n, id + 1);
  }

  lemma MirrorBound(nb: int, n: int, k: int)
    requires n > 0
    ensures (n - k) * nb / n == nb - CeilDiv(k * nb, n)
  {
    var c := CeilDiv(k * nb, n);
    CeilLe(k * nb, n, c);
    CeilLe(k * nb, n, c - 1);
    assert (n - k) * nb == nb * n - k * nb;
    assert (nb - c) * n == nb * n - c * n && (nb - c + 1) * n == nb * n - (c - 1) * n;
    DivLe((n - k) * nb, n, nb - c);
    DivLe((n - k) * nb, n, nb - c + 1);
  }
}

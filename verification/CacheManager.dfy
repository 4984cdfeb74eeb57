/** The cache of one process as the object it is: blocks whose byte sets are updated in place, the list of dirty blocks,
    and the counters that tell which blocks have puts under way. Every method is shown to take the object from one
    process of the machine in module Coherence to the process that the machine's step yields. */
module CacheManagers {
  import opened Arithmetic
  import C = Coherence

  /** A cached block. Bytes are named by their address. */
  datatype Block = Block(valid: set<nat>, dirty: set<nat>, refCount: nat, writebackEpoch: nat)

  function Bytes(lo: nat, hi: nat): (r: set<nat>)
    ensures forall x: nat :: x in r <==> lo <= x < hi
    decreases hi - lo
  {
    if lo >= hi then {} else {lo} + Bytes(lo + 1, hi)
  }

  /** All puts have arrived. */
  ghost function Landed(p: C.Proc): C.Proc {
    p.(unlanded := iset{})
  }

  /** One round of the loop of writeback_begin, with the flush it may have to wait for. */
  ghost function BegunBlock(c: C.Config, p: C.Proc, blk: nat): C.Proc
    requires c.Valid()
  {
    if C.OfBlock(c, p.dirty, blk) == iset{} then p
    else C.PutBlock(c, if blk in p.writing then C.Flushed(Landed(p)) else p, blk)
  }

  /** The rounds from the k-th on. */
  ghost function Begun(c: C.Config, p: C.Proc, k: nat): C.Proc
    requires c.Valid()
    decreases |p.list| - k
  {
    if k >= |p.list| then p.(list := [])
    else
      var p' := BegunBlock(c, p, p.list[k]);
      assert p'.list == p.list;
      Begun(c, p', k + 1)
  }

  /** A round is one step of the machine, or two with the arrival of all puts in between. */
  lemma BegunIsSteps(c: C.Config, p: C.Proc, k: nat, next: C.Then)
    requires c.Valid() && p.pc == C.Begin(k, next) && k < |p.list|
    ensures var needsFlush := C.OfBlock(c, p.dirty, p.list[k]) != iset{} && p.list[k] in p.writing;
            var q := if needsFlush then C.BeginStep(c, Landed(p), k, next) else p;
            C.BeginStep(c, q, k, next) == BegunBlock(c, p, p.list[k]).(pc := C.Begin(k + 1, next))
  {
  }

  /** The valid and dirty bytes of the blocks are those of the sets. */
  ghost predicate ShowsBytes(c: C.Config, blocks: map<nat, Block>, valid: iset<nat>, dirty: iset<nat>)
    requires c.Valid()
  {
    && (forall x: nat :: x in valid <==> x / c.block in blocks && x in blocks[x / c.block].valid)
    && (forall x: nat :: x in dirty <==> x / c.block in blocks && x in blocks[x / c.block].dirty)
  }

  /** One block changes. */
  lemma ChangeBlock(c: C.Config, blocks: map<nat, Block>, valid: iset<nat>, dirty: iset<nat>,
                    b: nat, cb: Block, valid': iset<nat>, dirty': iset<nat>)
    requires c.Valid() && ShowsBytes(c, blocks, valid, dirty)
    requires forall x: nat :: x / c.block == b ==> (x in valid' <==> x in cb.valid) && (x in dirty' <==> x in cb.dirty)
    requires forall x: nat :: x / c.block != b ==> (x in valid' <==> x in valid) && (x in dirty' <==> x in dirty)
    ensures ShowsBytes(c, blocks[b := cb], valid', dirty')
  {
  }

  /** What is kept of each block; listed says whether it is in the list of dirty blocks. */
  ghost predicate BlockOk(c: C.Config, b: nat, cb: Block, listed: bool, writebackEpoch: nat, isPut: bool)
    requires c.Valid()
  {
    && cb.dirty <= cb.valid && (forall x :: x in cb.valid ==> x / c.block == b)
    && (cb.dirty != {} ==> listed)
    && cb.writebackEpoch <= writebackEpoch && (cb.writebackEpoch == writebackEpoch ==> isPut)
  }

  lemma RangeInBlock(c: C.Config, lo: nat, hi: nat)
    requires c.Valid() && C.InBlock(c, lo, hi)
    ensures forall x: nat {:trigger x in C.Range(lo, hi)} {:trigger x in Bytes(lo, hi)} ::
              (x in C.Range(lo, hi) <==> x in Bytes(lo, hi)) && (x in Bytes(lo, hi) ==> x / c.block == lo / c.block)
    ensures forall x: nat {:trigger x in C.Pad(c, lo, hi)} {:trigger x in Bytes(RoundDown(lo, c.sub), RoundUp(hi, c.sub))} ::
              (x in C.Pad(c, lo, hi) <==> x in Bytes(RoundDown(lo, c.sub), RoundUp(hi, c.sub))) && (x in C.Pad(c, lo, hi) ==> x / c.block == lo / c.block)
    ensures C.Range(lo, hi) <= C.Pad(c, lo, hi)
  {
    forall x: nat | x in Bytes(lo, hi) ensures x / c.block == lo / c.block && x in C.Pad(c, lo, hi) {
      C.SameBlock(c, lo, hi, x);
      C.PadCovers(c, lo, hi, x);
    }
    forall x: nat | x in C.Pad(c, lo, hi) ensures x / c.block == lo / c.block { C.PadInBlock(c, lo, hi, x); }
  }

  class CacheManager {
    const c: C.Config
    const maxDirtyBlocks: nat
    const writeThrough: bool
    /** The cached blocks by number. */
    var blocks: map<nat, Block>
    var dirtyBlocks: seq<nat>
    var hasDirty: bool
    var writebackEpoch: nat
    /** The blocks put since the last flush, standing for the windows to flush. */
    var writingBack: seq<nat>
    var currentEpoch: nat
    var requestedEpoch: nat
    ghost var inflight: iset<nat>

    predicate IsWritingBack(b: nat)
      reads this
      requires b in blocks
    {
      blocks[b].writebackEpoch == writebackEpoch
    }

    ghost predicate Valid()
      reads this
    {
      && c.Valid() && writebackEpoch > 0
      && (forall b :: b in blocks ==> BlockOk(c, b, blocks[b], b in dirtyBlocks, writebackEpoch, writingBack != []))
      && (forall j :: 0 <= j < |dirtyBlocks| ==> dirtyBlocks[j] in blocks)
      && (dirtyBlocks != [] || inflight != iset{} ==> hasDirty)
      && (writingBack == [] ==> inflight == iset{})
      && requestedEpoch <= currentEpoch + 1 && (requestedEpoch > currentEpoch ==> hasDirty)
    }

    /** The object shows the state of process p. */
    ghost predicate Shows(p: C.Proc)
      reads this
      requires c.Valid()
    {
      && ShowsBytes(c, blocks, p.valid, p.dirty)
      && (forall b: nat :: b in p.writing <==> b in blocks && IsWritingBack(b))
      && p.inflight == inflight && p.hasDirty == hasDirty && p.epoch == currentEpoch && p.requested == requestedEpoch
      && p.list == dirtyBlocks
    }

    /** A new cache shows the initial process of the machine. */
    constructor (config: C.Config, dirtyLimit: nat, through: bool)
      requires config.Valid()
      ensures Valid() && c == config && maxDirtyBlocks == dirtyLimit && writeThrough == through && blocks == map[]
      ensures forall p :: C.InitialProc(p) ==> Shows(p)
    {
      c, maxDirtyBlocks, writeThrough := config, dirtyLimit, through;
      blocks, dirtyBlocks, hasDirty := map[], [], false;
      writebackEpoch, writingBack := 1, [];
      currentEpoch, requestedEpoch := 1, 1;
      inflight := iset{};
    }

    /** The dirty bytes of a block. */
    lemma DirtyOfBlock(p: C.Proc, b: nat)
      requires Valid() && Shows(p) && b in blocks
      ensures forall x: nat :: x in C.OfBlock(c, p.dirty, b) <==> x in blocks[b].dirty
      ensures C.OfBlock(c, p.dirty, b) == iset{} <==> blocks[b].dirty == {}
    {
      if blocks[b].dirty != {} {
        var x :| x in blocks[b].dirty;
        assert x in C.OfBlock(c, p.dirty, b);
      }
    }

    /** writeback_complete: the flush, the next writeback epoch, and the next release epoch once all is clean. */
    method WritebackComplete(ghost p: C.Proc)
      requires Valid() && Shows(p)
      modifies this`writingBack, this`writebackEpoch, this`hasDirty, this`currentEpoch, this`inflight
      ensures Valid() && Shows(C.Flushed(Landed(p)))
      ensures forall b :: b in blocks ==> !IsWritingBack(b)
    {
      if writingBack != [] {
        writingBack := [];
        inflight := iset{};
        writebackEpoch := writebackEpoch + 1;
      }
      if dirtyBlocks == [] && hasDirty {
        hasDirty := false;
        currentEpoch := currentEpoch + 1;
      }
    }

    /** writeback_begin of one block: overlapping puts are kept apart by a flush. */
    method WritebackBeginBlock(b: nat, ghost p: C.Proc)
      requires Valid() && Shows(p) && b in blocks && blocks[b].dirty != {}
      modifies this`writingBack, this`writebackEpoch, this`hasDirty, this`currentEpoch, this`inflight, this`blocks
      ensures Valid() && Shows(BegunBlock(c, p, b)) && blocks.Keys == old(blocks.Keys)
      ensures forall x :: x in blocks && x != b ==> blocks[x] == old(blocks[x])
      ensures blocks[b].dirty == {} && blocks[b].valid == old(blocks[b].valid)
    {
      DirtyOfBlock(p, b);
      ghost var q := p;
      if IsWritingBack(b) {
        WritebackComplete(p);
        q := C.Flushed(Landed(p));
      }
      DirtyOfBlock(q, b);
      PutDirty(b, q);
    }

    method PutDirty(b: nat, ghost q: C.Proc)
      requires Valid() && Shows(q) && b in blocks && blocks[b].dirty != {} && !IsWritingBack(b)
      modifies this`writingBack, this`inflight, this`blocks
      ensures Valid() && Shows(C.PutBlock(c, q, b)) && blocks.Keys == old(blocks.Keys)
      ensures blocks == old(blocks)[b := old(blocks[b]).(dirty := {}, writebackEpoch := writebackEpoch)]
    {
      DirtyOfBlock(q, b);
      ghost var d := C.OfBlock(c, q.dirty, b);
      inflight := inflight + d;
      blocks := blocks[b := blocks[b].(dirty := {}, writebackEpoch := writebackEpoch)];
      writingBack := writingBack + [b];
    }

    method WritebackRound(b: nat, ghost p: C.Proc)
      requires Valid() && Shows(p) && b in blocks
      modifies this`writingBack, this`writebackEpoch, this`hasDirty, this`currentEpoch, this`inflight, this`blocks
      ensures Valid() && Shows(BegunBlock(c, p, b)) && blocks.Keys == old(blocks.Keys)
      ensures dirtyBlocks == old(dirtyBlocks)
      ensures forall x :: x in blocks && blocks[x].dirty != {} ==> x != b && old(blocks)[x].dirty != {}
    {
      DirtyOfBlock(p, b);
      if blocks[b].dirty != {} { WritebackBeginBlock(b, p); }
    }

    ghost predicate ListedFrom(b: nat, k: int)
      reads this
    {
      exists j :: k <= j < |dirtyBlocks| && 0 <= j && dirtyBlocks[j] == b
    }

    /** Dirty blocks are listed from position k on. */
    ghost predicate DirtyListed(k: int)
      reads this
    {
      forall b :: b in blocks && blocks[b].dirty != {} ==> ListedFrom(b, k)
    }

    lemma AllListed()
      requires Valid()
      ensures DirtyListed(0)
    {
    }

    /** One round of the loop at position k. */
    method NextRound(k: nat, ghost p: C.Proc, ghost goal: C.Proc) returns (ghost q: C.Proc)
      requires Valid() && Shows(p) && k < |dirtyBlocks| && Begun(c, p, k) == goal
      requires DirtyListed(k)
      modifies this`writingBack, this`writebackEpoch, this`hasDirty, this`currentEpoch, this`inflight, this`blocks
      ensures Valid() && Shows(q) && Begun(c, q, k + 1) == goal && blocks.Keys == old(blocks.Keys)
      ensures dirtyBlocks == old(dirtyBlocks)
      ensures DirtyListed(k + 1)
    {
      q := BegunBlock(c, p, dirtyBlocks[k]);
      WritebackRound(dirtyBlocks[k], p);
    }

    /** writeback_begin: every listed block that is still dirty is put, and the list becomes empty. */
    method WritebackBegin(ghost p: C.Proc)
      requires Valid() && Shows(p)
      modifies this`writingBack, this`writebackEpoch, this`hasDirty, this`currentEpoch, this`inflight, this`blocks, this`dirtyBlocks
      ensures Valid() && Shows(Begun(c, p, 0)) && dirtyBlocks == [] && blocks.Keys == old(blocks.Keys)
      ensures forall b :: b in blocks ==> blocks[b].dirty == {}
    {
      hide BlockOk, ShowsBytes;
      ghost var q := p;
      var k := 0;
      AllListed();
      while k < |dirtyBlocks|
        invariant 0 <= k <= |dirtyBlocks| && dirtyBlocks == old(dirtyBlocks) && blocks.Keys == old(blocks.Keys)
        invariant Valid() && Shows(q) && Begun(c, q, k) == Begun(c, p, 0)
        invariant DirtyListed(k)
      {
        q := NextRound(k, q, Begun(c, p, 0));
        k := k + 1;
      }
      ClearList(q);
    }

    method ClearList(ghost p: C.Proc)
      requires Valid() && Shows(p) && forall b :: b in blocks ==> blocks[b].dirty == {}
      modifies this`dirtyBlocks
      ensures Valid() && Shows(p.(list := [])) && dirtyBlocks == []
    {
      dirtyBlocks := [];
    }

    /** ensure_all_cache_clean: afterwards nothing is dirty, and the epoch has advanced if anything was. */
    method EnsureAllCacheClean(ghost p: C.Proc)
      requires Valid() && Shows(p)
      modifies this`writingBack, this`writebackEpoch, this`hasDirty, this`currentEpoch, this`inflight, this`blocks, this`dirtyBlocks
      ensures Valid() && Shows(C.Flushed(Landed(Begun(c, p, 0)))) && blocks.Keys == old(blocks.Keys)
      ensures !hasDirty && dirtyBlocks == [] && inflight == iset{}
      ensures forall b :: b in blocks ==> blocks[b].dirty == {} && !IsWritingBack(b)
      ensures currentEpoch == old(currentEpoch) + (if old(hasDirty) then 1 else 0)
    {
      WritebackBegin(p);
      BegunEpoch(p, 0);
      WritebackComplete(Begun(c, p, 0));
    }

    /** The loop itself never advances the epoch: the list is not empty while it runs. */
    lemma {:induction false} BegunEpoch(p: C.Proc, k: nat)
      requires c.Valid()
      ensures Begun(c, p, k).epoch == p.epoch && Begun(c, p, k).hasDirty == p.hasDirty
      decreases |p.list| - k
    {
      if k < |p.list| { BegunEpoch(BegunBlock(c, p, p.list[k]), k + 1); }
    }

    /** add_dirty_region, with the write-through mode and the limit on dirty blocks. */
    method AddDirtyRegion(b: nat, lo: nat, hi: nat, ghost p: C.Proc) returns (ghost q: C.Proc)
      requires Valid() && Shows(p) && C.InBlock(c, lo, hi) && lo / c.block == b && b in blocks && Bytes(lo, hi) <= blocks[b].valid
      modifies this`writingBack, this`writebackEpoch, this`hasDirty, this`currentEpoch, this`inflight, this`blocks, this`dirtyBlocks
      ensures Valid() && Shows(q) && blocks.Keys == old(blocks.Keys)
      ensures var a := C.AddDirty(c, p, lo, hi);
              q == if a.list == p.list then a
                   else if writeThrough then C.Flushed(Landed(Begun(c, a, 0)))
                   else if |a.list| >= maxDirtyBlocks then Begun(c, a, 0)
                   else a
    {
      DirtyOfBlock(p, b);
      var isNew := blocks[b].dirty == {};
      q := C.AddDirty(c, p, lo, hi);
      MarkDirty(b, lo, hi, isNew, p);
      if isNew {
        if writeThrough {
          EnsureAllCacheClean(q);
          q := C.Flushed(Landed(Begun(c, q, 0)));
        } else if |dirtyBlocks| >= maxDirtyBlocks {
          WritebackBegin(q);
          q := Begun(c, q, 0);
        }
      }
    }

    method MarkDirty(b: nat, lo: nat, hi: nat, isNew: bool, ghost p: C.Proc)
      requires Valid() && Shows(p) && C.InBlock(c, lo, hi) && lo / c.block == b && b in blocks && Bytes(lo, hi) <= blocks[b].valid
      requires isNew == (blocks[b].dirty == {})
      modifies this`hasDirty, this`blocks, this`dirtyBlocks
      ensures Valid() && Shows(C.AddDirty(c, p, lo, hi)) && blocks.Keys == old(blocks.Keys)
    {
      DirtyOfBlock(p, b);
      RangeInBlock(c, lo, hi);
      var cb := blocks[b].(dirty := blocks[b].dirty + Bytes(lo, hi));
      ChangeBlock(c, blocks, p.valid, p.dirty, b, cb, p.valid, p.dirty + C.Range(lo, hi));
      blocks := blocks[b := cb];
      if isNew {
        dirtyBlocks := dirtyBlocks + [b];
        hasDirty := true;
      }
    }

    /** The part of checkout_blk on the byte sets: the padded request is fetched, or the request is only marked valid. */
    method CheckoutBlk(b: nat, lo: nat, hi: nat, skipFetch: bool, ghost home: C.Versions, ghost p: C.Proc)
      requires Valid() && Shows(p) && C.InBlock(c, lo, hi) && lo / c.block == b
      modifies this`blocks
      ensures Valid() && b in blocks && Bytes(lo, hi) <= blocks[b].valid
      ensures blocks[b].refCount == (if b in old(blocks) then old(blocks)[b].refCount else 0) + 1
      ensures Shows(if skipFetch then p.(valid := p.valid + C.Range(lo, hi)) else C.Fetch(c, p, home, lo, hi))
    {
      var cb := BlockOrNew(b);
      RangeInBlock(c, lo, hi);
      if skipFetch {
        AddValid(b, cb, Bytes(lo, hi), C.Range(lo, hi), p);
      } else {
        FetchBegin(b, cb, lo, hi, home, p);
      }
    }

    function BlockOrNew(b: nat): Block
      reads this
    {
      if b in blocks then blocks[b] else Block({}, {}, 0, 0)
    }

    method FetchBegin(b: nat, cb: Block, lo: nat, hi: nat, ghost home: C.Versions, ghost p: C.Proc)
      requires Valid() && Shows(p) && C.InBlock(c, lo, hi) && lo / c.block == b && cb == BlockOrNew(b)
      modifies this`blocks
      ensures Valid() && Shows(C.Fetch(c, p, home, lo, hi))
      ensures b in blocks && Bytes(lo, hi) <= blocks[b].valid && blocks[b].refCount == cb.refCount + 1
    {
      RangeInBlock(c, lo, hi);
      RequestIncluded(p, lo, hi, cb);
      if Bytes(lo, hi) <= cb.valid {
        AddValid(b, cb, {}, iset{}, p);
        assert p.(valid := p.valid + iset{}) == p;
      } else {
        AddValid(b, cb, Bytes(RoundDown(lo, c.sub), RoundUp(hi, c.sub)), C.Pad(c, lo, hi), p);
      }
    }

    /** The request is valid in the process exactly when its block has it. */
    lemma RequestIncluded(p: C.Proc, lo: nat, hi: nat, cb: Block)
      requires c.Valid() && ShowsBytes(c, blocks, p.valid, p.dirty) && C.InBlock(c, lo, hi)
      requires var b := lo / c.block; if b in blocks then cb == blocks[b] else cb.valid == {}
      ensures C.Range(lo, hi) <= p.valid <==> Bytes(lo, hi) <= cb.valid
    {
      RangeInBlock(c, lo, hi);
    }

    method AddValid(b: nat, cb: Block, added: set<nat>, ghost v: iset<nat>, ghost p: C.Proc)
      requires Valid() && Shows(p) && cb == BlockOrNew(b)
      requires forall x: nat :: (x in added <==> x in v) && (x in added ==> x / c.block == b)
      modifies this`blocks
      ensures Valid() && Shows(p.(valid := p.valid + v))
      ensures blocks == old(blocks)[b := cb.(valid := cb.valid + added, refCount := cb.refCount + 1)]
    {
      var cb' := cb.(valid := cb.valid + added, refCount := cb.refCount + 1);
      ChangeBlock(c, blocks, p.valid, p.dirty, b, cb', p.valid + v, p.dirty);
      blocks := blocks[b := cb'];
    }

    /** release_lazy. */
    method ReleaseLazy(me: nat, ghost p: C.Proc) returns (target: nat, required: nat)
      requires Valid() && Shows(p)
      ensures var h := C.HandlerOf(p, me, C.Released(p)); target == h.target && required == h.required
    {
      if hasDirty { return me, currentEpoch + 1; } else { return 0, 0; }
    }

    /** poll: whatever has been requested is released. */
    method Poll(ghost p: C.Proc)
      requires Valid() && Shows(p)
      modifies this`writingBack, this`writebackEpoch, this`hasDirty, this`currentEpoch, this`inflight, this`blocks, this`dirtyBlocks
      ensures Valid() && requestedEpoch <= currentEpoch
      ensures Shows(if p.requested > p.epoch then C.Flushed(Landed(Begun(c, p, 0))) else p)
    {
      if requestedEpoch > currentEpoch { EnsureAllCacheClean(p); }
    }

    /** discard_dirty. */
    method DiscardDirty(b: nat, lo: nat, hi: nat, ghost p: C.Proc)
      requires Valid() && Shows(p) && C.InBlock(c, lo, hi) && lo / c.block == b
      modifies this`writingBack, this`writebackEpoch, this`hasDirty, this`currentEpoch, this`inflight, this`blocks
      ensures Valid()
      ensures var q := if b in p.writing then C.Flushed(Landed(p)) else p; Shows(q.(dirty := q.dirty - C.Range(lo, hi)))
    {
      if b in blocks {
        ghost var q := p;
        if IsWritingBack(b) {
          WritebackComplete(p);
          q := C.Flushed(Landed(p));
        }
        RemoveDirty(b, lo, hi, q);
      } else {
        RangeInBlock(c, lo, hi);
        assert p.dirty - C.Range(lo, hi) == p.dirty;
      }
    }

    method RemoveDirty(b: nat, lo: nat, hi: nat, ghost q: C.Proc)
      requires Valid() && Shows(q) && C.InBlock(c, lo, hi) && lo / c.block == b && b in blocks
      modifies this`blocks
      ensures Valid() && Shows(q.(dirty := q.dirty - C.Range(lo, hi)))
    {
      RangeInBlock(c, lo, hi);
      var cb := blocks[b].(dirty := blocks[b].dirty - Bytes(lo, hi));
      ChangeBlock(c, blocks, q.valid, q.dirty, b, cb, q.valid, q.dirty - C.Range(lo, hi));
      blocks := blocks[b := cb];
    }

    /** The bytes of a block. */
    function BlockBytes(b: nat): set<nat>
      requires c.Valid()
    {
      Bytes(b * c.block, b * c.block + c.block)
    }

    /** invalidate_all, in its three cases: a block outside, inside, or partly inside the read-only regions. */
    method InvalidateAll(readonly: set<nat>, ghost p: C.Proc)
      requires Valid() && Shows(p) && !hasDirty && forall b :: b in blocks ==> blocks[b].refCount == 0 && blocks[b].dirty == {}
      modifies this`blocks
      ensures Valid() && blocks.Keys == old(blocks.Keys)
      ensures Shows(p.(valid := p.valid * iset x: nat | x in readonly))
    {
      var todo := blocks.Keys;
      while todo != {}
        invariant todo <= blocks.Keys == old(blocks.Keys) && Valid()
        invariant forall b :: b in blocks ==> blocks[b] == old(blocks[b]).(valid := if b in todo then old(blocks[b]).valid else old(blocks[b]).valid * readonly)
      {
        var b :| b in todo;
        InvalidateBlock(b, readonly);
        todo := todo - {b};
      }
    }

    method InvalidateBlock(b: nat, readonly: set<nat>)
      requires Valid() && b in blocks && blocks[b].dirty == {}
      modifies this`blocks
      ensures Valid() && blocks == old(blocks)[b := old(blocks[b]).(valid := old(blocks[b]).valid * readonly)]
    {
      var cb := blocks[b];
      ValidInBlock(b);
      var inside := readonly * BlockBytes(b);
      if cb.valid == {} {
      } else if inside == {} {
        blocks := blocks[b := cb.(valid := {})];
      } else if inside != BlockBytes(b) {
        blocks := blocks[b := cb.(valid := cb.valid * inside)];
      }
      assert blocks[b].valid == cb.valid * readonly;
    }

    lemma ValidInBlock(b: nat)
      requires Valid() && b in blocks
      ensures blocks[b].valid <= BlockBytes(b)
    {
      forall x | x in blocks[b].valid ensures x in BlockBytes(b) {
        Remainder(x, c.block);
      }
    }
  }
}

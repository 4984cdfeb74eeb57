/** Every step of the machine in module Coherence keeps its invariant, and so does every run. */
module CoherenceSteps {
  import opened Arithmetic
  import opened Coherence

  /* ---------------------------------------------------------------- frames */

  /** p' is p as far as byte b is concerned. */
  ghost predicate SameAt(p: Proc, p': Proc, b: nat) {
    && (b in p'.valid <==> b in p.valid) && (b in p'.dirty <==> b in p.dirty) && (b in p'.inflight <==> b in p.inflight)
    && (b in p'.unlanded <==> b in p.unlanded) && (b in p'.readonly <==> b in p.readonly)
    && p'.cache(b) == p.cache(b) && p'.sent(b) == p.sent(b) && p'.known(b) == p.known(b)
    && (Writing(p', b) <==> Writing(p, b)) && (Reading(p', b) <==> Reading(p, b))
    && (Owns(p, b) ==> p'.epoch == p.epoch)
  }

  lemma ByteSame(c: Config, s: State, s': State, b: nat)
    requires c.Valid() && ByteOk(c, s, b) && |s'.procs| == |s.procs| && s'.handlers == s.handlers
    requires forall i :: 0 <= i < |s.procs| ==> SameAt(s.procs[i], s'.procs[i], b)
    requires s'.home(b) == s.home(b) && s'.latest(b) == s.latest(b) && (b in s'.undef <==> b in s.undef)
    ensures ByteOk(c, s', b)
  {
    forall i | 0 <= i < |s'.procs| ensures CopyOk(c, s', i, b) && (Owns(s'.procs[i], b) <==> Owns(s.procs[i], b)) {
      assert CopyOk(c, s, i, b) && SameAt(s.procs[i], s'.procs[i], b);
    }
    forall i, j | 0 <= i < |s'.procs| && 0 <= j < |s'.procs| ensures OwnerOk(s', i, j, b) {
      assert OwnerOk(s, i, j, b) && SameAt(s.procs[i], s'.procs[i], b) && SameAt(s.procs[j], s'.procs[j], b);
    }
    forall k, i | 0 <= k < |s'.handlers| && 0 <= i < |s'.procs| ensures SnapOk(s', s'.handlers[k], i, b) {
      assert SnapOk(s, s.handlers[k], i, b) && SameAt(s.procs[i], s'.procs[i], b);
    }
  }

  /** A step of me that leaves epochs, flags and the other processes alone. */
  lemma OthersSame(c: Config, s: State, s': State, me: nat, i: nat)
    requires c.Valid() && Inv(c, s) && me < |s.procs| == |s'.procs| && i < |s.procs| && i != me
    requires s'.procs[i] == s.procs[i] && s'.procs[me].epoch >= s.procs[me].epoch
    requires s'.handlers == s.handlers
    requires forall j :: 0 <= j < |s.procs| && j != me ==> s'.procs[j] == s.procs[j]
    ensures ProcOk(c, s', i)
  {
    assert ProcOk(c, s, i);
  }

  /** A step that changes nothing but program counters and the bookkeeping of requests. */
  ghost predicate SameData(p: Proc, p': Proc) {
    p' == p.(pc := p'.pc, remote := p'.remote, requested := p'.requested)
  }

  lemma ControlStep(c: Config, s: State, s': State, me: nat)
    requires c.Valid() && Inv(c, s) && me < |s.procs|
    requires s' == s.(procs := s'.procs) && |s'.procs| == |s.procs|
    requires forall i :: 0 <= i < |s.procs| && i != me ==> s'.procs[i] == s.procs[i]
    requires SameData(s.procs[me], s'.procs[me]) && ProcOk(c, s', me)
    ensures Inv(c, s')
  {
    forall b: nat ensures ByteOk(c, s', b) {
      assert ByteOk(c, s, b);
      ByteSame(c, s, s', b);
    }
    forall i | 0 <= i < |s.procs| ensures ProcOk(c, s', i) {
      if i != me { OthersSame(c, s, s', me, i); }
    }
    forall k | 0 <= k < |s'.handlers| ensures HandlerOk(s'.procs, s'.handlers[k]) {
      assert HandlerOk(s.procs, s.handlers[k]);
    }
  }

  lemma StartKeeps(c: Config, s: State, me: nat, call: Call)
    requires c.Valid() && Inv(c, s) && me < |s.procs| && s.procs[me].pc == Idle
    requires call.StartWriteback? || call.FinishWriteback? || call.Release? || call.Poll? || call.Acquire?
    ensures Inv(c, IdleStep(c, s, me, call))
  {
    assert ProcOk(c, s, me);
    ControlStep(c, s, IdleStep(c, s, me, call), me);
  }

  lemma CheckKeeps(c: Config, s: State, me: nat)
    requires c.Valid() && Inv(c, s) && me < |s.procs| && (s.procs[me].pc.Check? || s.procs[me].pc.Refresh?)
    ensures Inv(c, BusyStep(c, s, me))
  {
    assert ProcOk(c, s, me);
    var h := s.procs[me].pc.h;
    var k :| 0 <= k < |s.handlers| && s.handlers[k] == h;
    assert HandlerOk(s.procs, s.handlers[k]);
    ControlStep(c, s, BusyStep(c, s, me), me);
  }

  /** The value a successful compare-and-swap stores: at most one epoch ahead of the target. */
  lemma RequestedKeeps(c: Config, s: State, h: Handler, t: nat)
    requires c.Valid() && Inv(c, s) && h in s.handlers && t == h.target < |s.procs| && s.procs[t].requested < h.required
    ensures Inv(c, Put(s, t, s.procs[t].(requested := h.required)))
  {
    var k :| 0 <= k < |s.handlers| && s.handlers[k] == h;
    assert HandlerOk(s.procs, s.handlers[k]) && ProcOk(c, s, t);
    ControlStep(c, s, Put(s, t, s.procs[t].(requested := h.required)), t);
  }

  lemma RequestKeeps(c: Config, s: State, me: nat, h: Handler, guess: nat)
    requires c.Valid() && Inv(c, s) && me < |s.procs| && s.procs[me].pc == Request(h, guess)
    ensures Inv(c, RequestStep(s, me, h, guess))
  {
    assert ProcOk(c, s, me);
    var k :| 0 <= k < |s.handlers| && s.handlers[k] == h;
    assert HandlerOk(s.procs, s.handlers[k]);
    var s' := RequestStep(s, me, h, guess);
    if guess < h.required && s.procs[h.target].requested == guess {
      var s1 := Put(s, h.target, s.procs[h.target].(requested := h.required));
      RequestedKeeps(c, s, h, h.target);
      assert ProcOk(c, s1, me);
      ControlStep(c, s1, s', me);
    } else {
      ControlStep(c, s, s', me);
    }
  }

  /* ---------------------------------------------------------------- data of one process */

  /** A step of me on its own copy of b. */
  lemma OwnByte(c: Config, s: State, s': State, me: nat, b: nat)
    requires c.Valid() && ByteOk(c, s, b) && me < |s.procs| == |s'.procs| && s' == s.(procs := s'.procs)
    requires forall i :: 0 <= i < |s.procs| && i != me ==> s'.procs[i] == s.procs[i]
    requires CopyOk(c, s', me, b)
    requires var p, p' := s.procs[me], s'.procs[me];
             && p'.known(b) == p.known(b) && (b in p'.readonly ==> b in p.readonly)
             && (Owns(p', b) ==> Owns(p, b) && (Writing(p', b) ==> Writing(p, b)) && (p'.epoch == p.epoch || Writing(p, b)))
             && (Owns(p, b) && !Owns(p', b) ==> s.home(b) == s.latest(b))
    ensures ByteOk(c, s', b)
  {
    forall i | 0 <= i < |s'.procs| ensures CopyOk(c, s', i, b) {
      assert CopyOk(c, s, i, b);
    }
    forall i, j | 0 <= i < |s'.procs| && 0 <= j < |s'.procs| ensures OwnerOk(s', i, j, b) {
      assert OwnerOk(s, i, j, b);
    }
    forall k, i | 0 <= k < |s'.handlers| && 0 <= i < |s'.procs| ensures SnapOk(s', s'.handlers[k], i, b) {
      assert SnapOk(s, s.handlers[k], i, b);
    }
    if b !in s.undef && !Pending(s', b) {
      assert s.home(b) == s.latest(b) by {
        if Pending(s, b) {
          var i :| 0 <= i < |s.procs| && Owns(s.procs[i], b);
          assert i != me ==> Owns(s'.procs[i], b);
        }
      }
    }
  }

  /** What is left to show when all bytes are fine. */
  lemma OwnStep(c: Config, s: State, s': State, me: nat)
    requires c.Valid() && Inv(c, s) && me < |s.procs| == |s'.procs| && s'.handlers == s.handlers
    requires forall i :: 0 <= i < |s.procs| && i != me ==> s'.procs[i] == s.procs[i]
    requires forall b: nat :: ByteOk(c, s', b)
    requires s'.procs[me].epoch >= s.procs[me].epoch
    requires s'.procs[me].epoch == s.procs[me].epoch ==> (s.procs[me].hasDirty ==> s'.procs[me].hasDirty)
    requires ProcOk(c, s', me)
    ensures Inv(c, s')
  {
    forall i | 0 <= i < |s.procs| ensures ProcOk(c, s', i) {
      if i != me { OthersSame(c, s, s', me, i); }
    }
    forall k | 0 <= k < |s'.handlers| ensures HandlerOk(s'.procs, s'.handlers[k]) {
      assert HandlerOk(s.procs, s.handlers[k]);
    }
  }

  lemma EvictKeeps(c: Config, s: State, me: nat, blk: nat)
    requires c.Valid() && Inv(c, s) && me < |s.procs| && s.procs[me].pc == Idle && Evictable(c, s.procs[me], blk)
    ensures Inv(c, IdleStep(c, s, me, Evict(blk)))
  {
    var p := s.procs[me];
    var s' := IdleStep(c, s, me, Evict(blk));
    assert ProcOk(c, s, me);
    forall b: nat ensures ByteOk(c, s', b) {
      assert ByteOk(c, s, b) && CopyOk(c, s, me, b);
      EvictedUnused(c, p, blk, b);
      OwnByte(c, s, s', me, b);
    }
    OwnStep(c, s, s', me);
  }

  /** Nothing of an evictable block is checked out, dirty or in flight. */
  lemma EvictedUnused(c: Config, p: Proc, blk: nat, b: nat)
    requires c.Valid() && Evictable(c, p, blk)
    requires forall x: nat :: x in p.inflight ==> x / c.block in p.writing
    requires forall id :: id in p.outs ==> InBlock(c, p.outs[id].lo, p.outs[id].hi)
    ensures b / c.block == blk ==> !Owns(p, b) && !Reading(p, b)
  {
    assert b in OfBlock(c, p.dirty, blk) <==> b in p.dirty && b / c.block == blk;
    forall id | id in p.outs && p.outs[id].Has(b) ensures p.outs[id].lo / c.block == b / c.block {
      SameBlock(c, p.outs[id].lo, p.outs[id].hi, b);
    }
  }

  lemma UnsetKeeps(c: Config, s: State, me: nat, lo: nat, hi: nat)
    requires c.Valid() && Inv(c, s) && me < |s.procs| && s.procs[me].pc == Idle
    ensures Inv(c, IdleStep(c, s, me, UnsetReadonly(lo, hi)))
  {
    var s' := IdleStep(c, s, me, UnsetReadonly(lo, hi));
    assert ProcOk(c, s, me);
    forall b: nat ensures ByteOk(c, s', b) {
      assert ByteOk(c, s, b) && CopyOk(c, s, me, b);
      OwnByte(c, s, s', me, b);
    }
    OwnStep(c, s, s', me);
  }

  lemma PutKeeps(c: Config, s: State, me: nat, k: nat, next: Then)
    requires c.Valid() && Inv(c, s) && me < |s.procs| && s.procs[me].pc == Begin(k, next)
    requires var p := s.procs[me]; k < |p.list| && p.list[k] !in p.writing
    ensures var p := s.procs[me]; Inv(c, Put(s, me, PutBlock(c, p, p.list[k]).(pc := Begin(k + 1, next))))
  {
    var p := s.procs[me];
    var p' := PutBlock(c, p, p.list[k]).(pc := Begin(k + 1, next));
    var s' := Put(s, me, p');
    assert ProcOk(c, s, me);
    forall b: nat ensures ByteOk(c, s', b) {
      assert ByteOk(c, s, b) && CopyOk(c, s, me, b);
      OwnByte(c, s, s', me, b);
    }
    assert ProcOk(c, s', me) by {
      forall m | 0 <= m < k + 1 ensures OfBlock(c, p'.dirty, p'.list[m]) == iset{} {
      }
    }
    OwnStep(c, s, s', me);
  }

  /** Once every put has landed, a flushed byte that was not written again is at home. */
  lemma FlushedBytes(c: Config, s: State, me: nat, p': Proc)
    requires c.Valid() && Inv(c, s) && me < |s.procs| && s.procs[me].unlanded == iset{}
    requires p' == Flushed(s.procs[me]).(pc := p'.pc)
    requires s.procs[me].list == [] ==> s.procs[me].dirty == iset{}
    ensures forall b: nat :: ByteOk(c, Put(s, me, p'), b)
  {
    var s' := Put(s, me, p');
    forall b: nat ensures ByteOk(c, s', b) {
      assert ByteOk(c, s, b) && CopyOk(c, s, me, b);
      OwnByte(c, s, s', me, b);
    }
  }

  lemma FlushKeeps(c: Config, s: State, me: nat, k: nat, next: Then)
    requires c.Valid() && Inv(c, s) && me < |s.procs| && s.procs[me].pc == Begin(k, next) && k < |s.procs[me].list|
    requires s.procs[me].unlanded == iset{}
    ensures Inv(c, Put(s, me, Flushed(s.procs[me])))
  {
    assert ProcOk(c, s, me);
    FlushedBytes(c, s, me, Flushed(s.procs[me]));
    OwnStep(c, s, Put(s, me, Flushed(s.procs[me])), me);
  }

  lemma CompleteKeeps(c: Config, s: State, me: nat, next: Then)
    requires c.Valid() && Inv(c, s) && me < |s.procs| && s.procs[me].pc == Complete(next) && s.procs[me].unlanded == iset{}
    ensures Inv(c, Put(s, me, Proceed(Flushed(s.procs[me]), next)))
  {
    var p := s.procs[me];
    var p' := Proceed(Flushed(p), next);
    assert ProcOk(c, s, me);
    assert p.list == [] ==> p.dirty == iset{};
    FlushedBytes(c, s, me, p');
    OwnStep(c, s, Put(s, me, p'), me);
  }

  lemma BeginEndKeeps(c: Config, s: State, me: nat, k: nat, next: Then)
    requires c.Valid() && Inv(c, s) && me < |s.procs| && s.procs[me].pc == Begin(k, next) && k >= |s.procs[me].list|
    ensures Inv(c, Put(s, me, BeginStep(c, s.procs[me], k, next)))
  {
    var p := s.procs[me];
    var s' := Put(s, me, BeginStep(c, p, k, next));
    assert ProcOk(c, s, me);
    assert p.dirty == iset{} by {
      forall m, b: nat | 0 <= m < |p.list| ensures !(b in p.dirty && b / c.block == p.list[m]) {
        assert b in OfBlock(c, p.dirty, p.list[m]) <==> b in p.dirty && b / c.block == p.list[m];
      }
    }
    forall b: nat ensures ByteOk(c, s', b) {
      assert ByteOk(c, s, b);
      ByteSame(c, s, s', b);
    }
    OwnStep(c, s, s', me);
  }

  lemma LandKeeps(c: Config, s: State, me: nat, x: nat, now: bool)
    requires c.Valid() && Inv(c, s) && me < |s.procs| && x in s.procs[me].unlanded
    ensures Inv(c, Land(s, me, x, now))
  {
    var s' := Land(s, me, x, now);
    assert ProcOk(c, s, me);
    forall b: nat ensures ByteOk(c, s', b) {
      assert ByteOk(c, s, b);
      if b == x { LandByte(c, s, s', me, b); } else { ByteSame(c, s, s', b); }
    }
    OwnStep(c, s, s', me);
  }

  lemma LandByte(c: Config, s: State, s': State, me: nat, b: nat)
    requires c.Valid() && ByteOk(c, s, b) && me < |s.procs| && b in s.procs[me].unlanded
    requires exists now :: s' == Land(s, me, b, now)
    ensures ByteOk(c, s', b)
  {
    assert CopyOk(c, s, me, b);
    forall i | 0 <= i < |s'.procs| ensures CopyOk(c, s', i, b) {
      assert CopyOk(c, s, i, b) && OwnerOk(s, me, i, b);
    }
    forall i, j | 0 <= i < |s'.procs| && 0 <= j < |s'.procs| ensures OwnerOk(s', i, j, b) {
      assert OwnerOk(s, i, j, b);
    }
    forall k, i | 0 <= k < |s'.handlers| && 0 <= i < |s'.procs| ensures SnapOk(s', s'.handlers[k], i, b) {
      assert SnapOk(s, s.handlers[k], i, b);
    }
    assert Owns(s'.procs[me], b);
  }

  /* ---------------------------------------------------------------- checkout and checkin */

  lemma CheckinKeeps(c: Config, s: State, me: nat, id: nat)
    requires c.Valid() && Inv(c, s) && me < |s.procs| && s.procs[me].pc == Idle && id in s.procs[me].outs
    ensures Inv(c, Put(s, me, DoCheckin(c, s.procs[me], me, id)))
  {
    var p := s.procs[me];
    var out := p.outs[id];
    var p' := DoCheckin(c, p, me, id);
    var s' := Put(s, me, p');
    assert ProcOk(c, s, me);
    forall b: nat ensures ByteOk(c, s', b) {
      assert ByteOk(c, s, b);
      CheckedIn(c, s, me, id, b);
    }
    CheckinList(c, p, me, id);
    OwnStep(c, s, s', me);
  }

  lemma CheckedIn(c: Config, s: State, me: nat, id: nat, b: nat)
    requires c.Valid() && ByteOk(c, s, b) && me < |s.procs| && id in s.procs[me].outs
    requires var out := s.procs[me].outs[id]; InBlock(c, out.lo, out.hi)
    ensures ByteOk(c, Put(s, me, DoCheckin(c, s.procs[me], me, id)), b)
  {
    var p := s.procs[me];
    var out := p.outs[id];
    assert CopyOk(c, s, me, b);
    if out.Has(b) { SameBlock(c, out.lo, out.hi, b); }
    CheckinByte(c, p, me, id, b);
    OwnByte(c, s, Put(s, me, DoCheckin(c, p, me, id)), me, b);
  }

  /** What a checkin does to the ownership of b. */
  lemma CheckinByte(c: Config, p: Proc, me: nat, id: nat, b: nat)
    requires c.Valid() && id in p.outs
    ensures var p' := DoCheckin(c, p, me, id);
            && (Reading(p', b) ==> Reading(p, b)) && (Writing(p', b) ==> Writing(p, b))
            && (Writing(p, b) ==> Writing(p', b) || p.outs[id].Writes(b))
  {
    var p' := DoCheckin(c, p, me, id);
    if Writing(p, b) && !p.outs[id].Writes(b) {
      var k :| k in p.outs && p.outs[k].Writes(b);
      assert k in p'.outs && p'.outs[k].Writes(b);
    }
  }

  lemma CheckinList(c: Config, p: Proc, me: nat, id: nat)
    requires c.Valid() && id in p.outs && InBlock(c, p.outs[id].lo, p.outs[id].hi)
    requires forall b: nat :: b in p.dirty ==> b / c.block in p.list
    ensures var p' := DoCheckin(c, p, me, id); forall b: nat :: b in p'.dirty ==> b / c.block in p'.list
  {
    var out, p' := p.outs[id], DoCheckin(c, p, me, id);
    forall b: nat | b in p'.dirty ensures b / c.block in p'.list {
      if out.Has(b) {
        SameBlock(c, out.lo, out.hi, b);
        assert forall x: nat :: x in OfBlock(c, p.dirty, b / c.block) ==> b / c.block in p.list;
      }
    }
  }

  lemma CheckoutOuts(p: Proc, p': Proc, id: nat, out: Out, b: nat)
    requires id !in p.outs && p'.outs == p.outs[id := out]
    ensures Reading(p', b) <==> Reading(p, b) || out.Has(b)
    ensures Writing(p', b) <==> Writing(p, b) || out.Writes(b)
  {
    assert id in p'.outs && p'.outs[id] == out;
    forall k | k in p.outs ensures k in p'.outs && p'.outs[k] == p.outs[k] { }
  }

  /** What a fetch brings is the latest version, unless the process does not know of it. */
  lemma FetchByte(c: Config, s: State, me: nat, lo: nat, hi: nat, b: nat)
    requires c.Valid() && ByteOk(c, s, b) && me < |s.procs| && InBlock(c, lo, hi) && !c.local(me, lo / c.block)
    ensures var p' := Fetch(c, s.procs[me], s.home, lo, hi);
            && (Local(c, me, b) ==> b !in p'.valid)
            && (b in p'.valid && s.procs[me].known(b) == s.latest(b) && b !in s.undef ==> p'.cache(b) == s.latest(b))
            && (b in p'.readonly && b in p'.valid && b !in s.undef ==> p'.cache(b) == s.latest(b))
            && (b in s.procs[me].valid ==> b in p'.valid && p'.cache(b) == s.procs[me].cache(b))
            && (lo <= b < hi ==> b in p'.valid)
  {
    var p := s.procs[me];
    assert CopyOk(c, s, me, b);
    if lo <= b < hi { PadCovers(c, lo, hi, b); assert b in Range(lo, hi); }
    if b in Pad(c, lo, hi) {
      PadInBlock(c, lo, hi, b);
      if b !in p.valid && b !in s.undef && (p.known(b) == s.latest(b) || b in p.readonly) {
        forall i | 0 <= i < |s.procs| ensures !Owns(s.procs[i], b) {
          assert OwnerOk(s, i, me, b) && CopyOk(c, s, i, b);
        }
      }
    }
  }

  lemma WroteCopy(c: Config, s: State, me: nat, id: nat, out: Out, b: nat)
    requires c.Valid() && ByteOk(c, s, b) && me < |s.procs| && id !in s.procs[me].outs && InBlock(c, out.lo, out.hi)
    requires out.Writes(b) && RaceFreeByte(s, me, out.mode, b)
    ensures CopyOk(c, DoCheckout(c, s, me, id, out), me, b)
  {
    var s' := DoCheckout(c, s, me, id, out);
    var p, p' := s.procs[me], s'.procs[me];
    SameBlock(c, out.lo, out.hi, b);
    CheckoutOuts(p, p', id, out, b);
    assert CopyOk(c, s, me, b);
    assert b in Range(out.lo, out.hi);
    if !Local(c, me, b) && out.mode == ReadWrite { FetchByte(c, s, me, out.lo, out.hi, b); }
    assert p'.dirty == p.dirty && p'.inflight == p.inflight && p'.readonly == p.readonly && p'.unlanded == p.unlanded;
  }

  /** A byte that is being written: a new version, known to its writer alone. */
  lemma WroteByte(c: Config, s: State, me: nat, id: nat, out: Out, b: nat)
    requires c.Valid() && ByteOk(c, s, b) && me < |s.procs| && id !in s.procs[me].outs && InBlock(c, out.lo, out.hi)
    requires out.Writes(b) && RaceFreeByte(s, me, out.mode, b)
    ensures ByteOk(c, DoCheckout(c, s, me, id, out), b)
  {
    var s' := DoCheckout(c, s, me, id, out);
    var p, p' := s.procs[me], s'.procs[me];
    SameBlock(c, out.lo, out.hi, b);
    CheckoutOuts(p, p', id, out, b);
    assert CopyOk(c, s, me, b);
    forall i | 0 <= i < |s'.procs| ensures i != me ==> !Owns(s.procs[i], b) && s'.procs[i] == s.procs[i] {
      assert OwnerOk(s, i, me, b);
    }
    assert b in Range(out.lo, out.hi);
    WroteCopy(c, s, me, id, out, b);
    forall i | 0 <= i < |s'.procs| ensures CopyOk(c, s', i, b) {
      if i != me { assert CopyOk(c, s, i, b); }
    }
    forall i, j | 0 <= i < |s'.procs| && 0 <= j < |s'.procs| ensures OwnerOk(s', i, j, b) {
      assert CopyOk(c, s, j, b);
    }
    forall k, i | 0 <= k < |s'.handlers| && 0 <= i < |s'.procs| ensures SnapOk(s', s'.handlers[k], i, b) {
      assert SnapOk(s, s.handlers[k], i, b);
    }
    assert Owns(p', b);
  }

  /** A byte that is fetched, marked valid or read. */
  lemma ReadCopy(c: Config, s: State, me: nat, id: nat, out: Out, b: nat)
    requires c.Valid() && ByteOk(c, s, b) && me < |s.procs| && id !in s.procs[me].outs && InBlock(c, out.lo, out.hi)
    requires out.Has(b) ==> out.mode == Read && RaceFreeByte(s, me, Read, b)
    ensures var s' := DoCheckout(c, s, me, id, out); CopyOk(c, s.(procs := s'.procs), me, b)
  {
    if c.local(me, out.lo / c.block) || out.mode == Write {
      UnfetchedCopy(c, s, me, id, out, b);
    } else {
      FetchedCopy(c, s, me, id, out, b);
    }
  }

  lemma UnfetchedCopy(c: Config, s: State, me: nat, id: nat, out: Out, b: nat)
    requires c.Valid() && ByteOk(c, s, b) && me < |s.procs| && id !in s.procs[me].outs && InBlock(c, out.lo, out.hi)
    requires out.Has(b) ==> out.mode == Read && RaceFreeByte(s, me, Read, b)
    requires c.local(me, out.lo / c.block) || out.mode == Write
    ensures var s' := DoCheckout(c, s, me, id, out); CopyOk(c, s.(procs := s'.procs), me, b)
  {
    var s' := DoCheckout(c, s, me, id, out);
    CheckoutOuts(s.procs[me], s'.procs[me], id, out, b);
    assert CopyOk(c, s, me, b);
    if out.Has(b) { SameBlock(c, out.lo, out.hi, b); }
    assert b in Range(out.lo, out.hi) <==> out.Has(b);
  }

  lemma FetchedCopy(c: Config, s: State, me: nat, id: nat, out: Out, b: nat)
    requires c.Valid() && ByteOk(c, s, b) && me < |s.procs| && id !in s.procs[me].outs && InBlock(c, out.lo, out.hi)
    requires out.Has(b) ==> out.mode == Read && RaceFreeByte(s, me, Read, b)
    requires !c.local(me, out.lo / c.block) && out.mode != Write
    ensures var s' := DoCheckout(c, s, me, id, out); CopyOk(c, s.(procs := s'.procs), me, b)
  {
    var s' := DoCheckout(c, s, me, id, out);
    CheckoutOuts(s.procs[me], s'.procs[me], id, out, b);
    assert CopyOk(c, s, me, b);
    FetchByte(c, s, me, out.lo, out.hi, b);
  }

  lemma ReadByte(c: Config, s: State, me: nat, id: nat, out: Out, b: nat)
    requires c.Valid() && ByteOk(c, s, b) && me < |s.procs| && id !in s.procs[me].outs && InBlock(c, out.lo, out.hi)
    requires out.Has(b) ==> out.mode == Read && RaceFreeByte(s, me, Read, b)
    ensures ByteOk(c, DoCheckout(c, s, me, id, out), b)
  {
    var s' := DoCheckout(c, s, me, id, out);
    var s1 := s.(procs := s'.procs);
    CheckoutOuts(s.procs[me], s'.procs[me], id, out, b);
    ReadCopy(c, s, me, id, out, b);
    assert b in Range(out.lo, out.hi) <==> out.Has(b);
    OwnByte(c, s, s1, me, b);
    ByteSame(c, s1, s', b);
  }

  lemma CheckoutKeeps(c: Config, s: State, me: nat, id: nat, out: Out)
    requires c.Valid() && Inv(c, s) && me < |s.procs| && s.procs[me].pc == Idle
    requires id !in s.procs[me].outs && InBlock(c, out.lo, out.hi) && RaceFree(s, me, out)
    ensures Inv(c, DoCheckout(c, s, me, id, out))
  {
    var s' := DoCheckout(c, s, me, id, out);
    assert ProcOk(c, s, me);
    forall b: nat ensures ByteOk(c, s', b) {
      assert ByteOk(c, s, b);
      assert out.Has(b) ==> RaceFreeByte(s, me, out.mode, b);
      if out.Writes(b) { WroteByte(c, s, me, id, out, b); } else { ReadByte(c, s, me, id, out, b); }
    }
    OwnStep(c, s, s', me);
  }

  /* ---------------------------------------------------------------- release and acquire */

  /** A handler whose snapshot holds a pending version names its writer and an epoch that the writer has yet to reach. */
  lemma NewSnap(c: Config, s: State, me: nat, i: nat, b: nat)
    requires c.Valid() && ByteOk(c, s, b) && me < |s.procs| && ProcOk(c, s, me) && i < |s.procs|
    ensures SnapOk(s, HandlerOf(s.procs[me], me, Released(s.procs[me])), i, b)
  {
    var p := s.procs[me];
    assert CopyOk(c, s, me, b) && CopyOk(c, s, i, b) && OwnerOk(s, i, me, b);
    assert b in p.dirty ==> p.list != [];
  }

  lemma ReleasedByte(c: Config, s: State, me: nat, b: nat)
    requires c.Valid() && ByteOk(c, s, b) && me < |s.procs| && ProcOk(c, s, me)
    ensures ByteOk(c, IdleStep(c, s, me, ReleaseLazy), b)
  {
    var p := s.procs[me];
    var s' := IdleStep(c, s, me, ReleaseLazy);
    var h := HandlerOf(p, me, Released(p));
    assert s'.handlers[|s.handlers|] == h;
    forall i | 0 <= i < |s'.procs| ensures CopyOk(c, s', i, b) {
      assert CopyOk(c, s, i, b);
    }
    forall i, j | 0 <= i < |s'.procs| && 0 <= j < |s'.procs| ensures OwnerOk(s', i, j, b) {
      assert OwnerOk(s, i, j, b);
    }
    forall k, i | 0 <= k < |s'.handlers| && 0 <= i < |s'.procs| ensures SnapOk(s', s'.handlers[k], i, b) {
      if k < |s.handlers| {
        assert SnapOk(s, s.handlers[k], i, b);
      } else {
        NewSnap(c, s, me, i, b);
      }
    }
    assert Pending(s, b) ==> Pending(s', b);
  }

  lemma ReleaseLazyKeeps(c: Config, s: State, me: nat)
    requires c.Valid() && Inv(c, s) && me < |s.procs| && s.procs[me].pc == Idle
    ensures Inv(c, IdleStep(c, s, me, ReleaseLazy))
  {
    var s' := IdleStep(c, s, me, ReleaseLazy);
    forall b: nat ensures ByteOk(c, s', b) {
      assert ByteOk(c, s, b) && ProcOk(c, s, me);
      ReleasedByte(c, s, me, b);
    }
    forall i | 0 <= i < |s'.procs| ensures ProcOk(c, s', i) {
      assert ProcOk(c, s, i);
    }
    forall k | 0 <= k < |s'.handlers| ensures HandlerOk(s'.procs, s'.handlers[k]) {
      if k < |s.handlers| { assert HandlerOk(s.procs, s.handlers[k]); }
    }
  }

  lemma AcquiredSnap(c: Config, s: State, me: nat, h: Handler, b: nat)
    requires c.Valid() && ByteOk(c, s, b) && me < |s.procs| && s.procs[me].pc == Invalidate(h) && ProcOk(c, s, me)
    ensures h.snap(b) <= s.latest(b) && !Owns(s.procs[me], b)
    ensures forall i :: 0 <= i < |s.procs| && Owns(s.procs[i], b) ==> h.snap(b) < s.latest(b)
  {
    var k :| 0 <= k < |s.handlers| && s.handlers[k] == h;
    forall i | 0 <= i < |s.procs| ensures h.snap(b) <= s.latest(b) && (Owns(s.procs[i], b) ==> i != me && h.snap(b) < s.latest(b)) {
      assert SnapOk(s, s.handlers[k], i, b);
    }
  }

  lemma AcquiredCopy(c: Config, s: State, me: nat, h: Handler, b: nat)
    requires c.Valid() && ByteOk(c, s, b) && me < |s.procs| && s.procs[me].pc == Invalidate(h) && ProcOk(c, s, me)
    requires h.snap(b) <= s.latest(b) && !Owns(s.procs[me], b)
    ensures CopyOk(c, BusyStep(c, s, me), me, b) && !Owns(BusyStep(c, s, me).procs[me], b)
  {
    assert CopyOk(c, s, me, b);
  }

  /** The heart of acquire: whatever version the handler makes known has reached its home. */
  lemma AcquiredByte(c: Config, s: State, me: nat, h: Handler, b: nat)
    requires c.Valid() && ByteOk(c, s, b) && me < |s.procs| && s.procs[me].pc == Invalidate(h) && ProcOk(c, s, me)
    ensures h.snap(b) == s.latest(b) ==> !Pending(s, b)
    ensures ByteOk(c, BusyStep(c, s, me), b)
  {
    AcquiredSnap(c, s, me, h, b);
    AcquiredCopy(c, s, me, h, b);
    AcquiredRest(c, s, BusyStep(c, s, me), me, h, b);
  }

  lemma AcquiredRest(c: Config, s: State, s': State, me: nat, h: Handler, b: nat)
    requires c.Valid() && ByteOk(c, s, b) && me < |s.procs| == |s'.procs| && CopyOk(c, s', me, b)
    requires var p := s.procs[me]; s' == Put(s, me, s'.procs[me].(known := Join(p.known, h.snap), readonly := p.readonly))
    requires !Owns(s.procs[me], b) && !Owns(s'.procs[me], b)
    requires forall i :: 0 <= i < |s.procs| && Owns(s.procs[i], b) ==> h.snap(b) < s.latest(b)
    ensures ByteOk(c, s', b)
  {
    forall i | 0 <= i < |s'.procs| ensures CopyOk(c, s', i, b) && (Owns(s'.procs[i], b) <==> Owns(s.procs[i], b)) {
      assert CopyOk(c, s, i, b);
    }
    forall i, j | 0 <= i < |s'.procs| && 0 <= j < |s'.procs| ensures OwnerOk(s', i, j, b) {
      assert OwnerOk(s, i, j, b);
    }
    forall l, i | 0 <= l < |s'.handlers| && 0 <= i < |s'.procs| ensures SnapOk(s', s'.handlers[l], i, b) {
      assert SnapOk(s, s.handlers[l], i, b);
    }
  }

  lemma InvalidateKeeps(c: Config, s: State, me: nat, h: Handler)
    requires c.Valid() && Inv(c, s) && me < |s.procs| && s.procs[me].pc == Invalidate(h)
    ensures Inv(c, BusyStep(c, s, me))
  {
    assert ProcOk(c, s, me);
    forall b: nat ensures ByteOk(c, BusyStep(c, s, me), b) {
      assert ByteOk(c, s, b);
      AcquiredByte(c, s, me, h, b);
    }
    OwnStep(c, s, BusyStep(c, s, me), me);
  }

  lemma DiscardedByte(c: Config, s: State, me: nat, lo: nat, hi: nat, b: nat)
    requires c.Valid() && ByteOk(c, s, b) && me < |s.procs| && InBlock(c, lo, hi) && lo <= b < hi
    requires RaceFreeByte(s, me, Write, b) && lo / c.block !in s.procs[me].writing && ProcOk(c, s, me)
    ensures ByteOk(c, Put(s, me, s.procs[me].(dirty := s.procs[me].dirty - Range(lo, hi))).(undef := s.undef + Range(lo, hi)), b)
  {
    var p := s.procs[me];
    var s' := Put(s, me, p.(dirty := p.dirty - Range(lo, hi))).(undef := s.undef + Range(lo, hi));
    SameBlock(c, lo, hi, b);
    assert CopyOk(c, s, me, b) && b in Range(lo, hi);
    forall i | 0 <= i < |s'.procs| ensures !Owns(s'.procs[i], b) {
      assert OwnerOk(s, i, me, b);
    }
    forall i | 0 <= i < |s'.procs| ensures CopyOk(c, s', i, b) {
      assert CopyOk(c, s, i, b);
    }
    forall k, i | 0 <= k < |s'.handlers| && 0 <= i < |s'.procs| ensures SnapOk(s', s'.handlers[k], i, b) {
      assert SnapOk(s, s.handlers[k], i, b);
    }
  }

  lemma DiscardKeeps(c: Config, s: State, me: nat, lo: nat, hi: nat)
    requires c.Valid() && Inv(c, s) && me < |s.procs| && s.procs[me].pc == Idle
    ensures Inv(c, IdleStep(c, s, me, Discard(lo, hi)))
  {
    var s' := IdleStep(c, s, me, Discard(lo, hi));
    var out := Out(Write, lo, hi);
    if InBlock(c, lo, hi) && RaceFree(s, me, out) && lo / c.block !in s.procs[me].writing {
      assert ProcOk(c, s, me);
      forall b: nat ensures ByteOk(c, s', b) {
        assert ByteOk(c, s, b);
        if out.Has(b) {
          assert RaceFreeByte(s, me, Write, b);
          DiscardedByte(c, s, me, lo, hi, b);
        } else {
          ByteSame(c, s, s', b);
        }
      }
      OwnStep(c, s, s', me);
    }
  }

  lemma SetKeeps(c: Config, s: State, me: nat, lo: nat, hi: nat)
    requires c.Valid() && Inv(c, s) && me < |s.procs| && s.procs[me].pc == Idle && Fresh(s, me, lo, hi)
    ensures Inv(c, IdleStep(c, s, me, SetReadonly(lo, hi)))
  {
    var s' := IdleStep(c, s, me, SetReadonly(lo, hi));
    assert ProcOk(c, s, me);
    forall b: nat ensures ByteOk(c, s', b) {
      assert ByteOk(c, s, b);
      SetByte(c, s, me, lo, hi, b);
    }
    OwnStep(c, s, s', me);
  }

  lemma SetByte(c: Config, s: State, me: nat, lo: nat, hi: nat, b: nat)
    requires c.Valid() && ByteOk(c, s, b) && me < |s.procs| && Fresh(s, me, lo, hi)
    ensures ByteOk(c, IdleStep(c, s, me, SetReadonly(lo, hi)), b)
  {
    var s' := IdleStep(c, s, me, SetReadonly(lo, hi));
    assert b in Range(lo, hi) ==> FreshByte(s, me, b) by { assert b in Range(lo, hi) ==> Within(lo, b, hi); }
    forall i | 0 <= i < |s'.procs| ensures CopyOk(c, s', i, b) {
      assert CopyOk(c, s, i, b);
    }
    forall i, j | 0 <= i < |s'.procs| && 0 <= j < |s'.procs| ensures OwnerOk(s', i, j, b) {
      assert OwnerOk(s, i, j, b);
    }
    forall k, i | 0 <= k < |s'.handlers| && 0 <= i < |s'.procs| ensures SnapOk(s', s'.handlers[k], i, b) {
      assert SnapOk(s, s.handlers[k], i, b);
    }
    if Pending(s, b) {
      var i :| 0 <= i < |s.procs| && Owns(s.procs[i], b);
      assert Owns(s'.procs[i], b);
    }
  }

  /* ---------------------------------------------------------------- every step keeps the invariant */

  lemma IdleKeeps(c: Config, s: State, me: nat, call: Call)
    requires c.Valid() && Inv(c, s) && me < |s.procs| && s.procs[me].pc == Idle
    ensures Inv(c, IdleStep(c, s, me, call))
  {
    match call {
      case Checkout(id, out) =>
        if id !in s.procs[me].outs && InBlock(c, out.lo, out.hi) && RaceFree(s, me, out) { CheckoutKeeps(c, s, me, id, out); }
      case Checkin(id) => if id in s.procs[me].outs { CheckinKeeps(c, s, me, id); }
      case Evict(blk) => if Evictable(c, s.procs[me], blk) { EvictKeeps(c, s, me, blk); }
      case StartWriteback => StartKeeps(c, s, me, call);
      case FinishWriteback => StartKeeps(c, s, me, call);
      case Release => StartKeeps(c, s, me, call);
      case Poll => StartKeeps(c, s, me, call);
      case Acquire(_) => StartKeeps(c, s, me, call);
      case ReleaseLazy => ReleaseLazyKeeps(c, s, me);
      case Discard(lo, hi) => DiscardKeeps(c, s, me, lo, hi);
      case SetReadonly(lo, hi) => if Fresh(s, me, lo, hi) { SetKeeps(c, s, me, lo, hi); }
      case UnsetReadonly(lo, hi) => UnsetKeeps(c, s, me, lo, hi);
    }
  }

  lemma BeginKeeps(c: Config, s: State, me: nat, k: nat, next: Then)
    requires c.Valid() && Inv(c, s) && me < |s.procs| && s.procs[me].pc == Begin(k, next)
    ensures Inv(c, BusyStep(c, s, me))
  {
    var p := s.procs[me];
    if k >= |p.list| {
      BeginEndKeeps(c, s, me, k, next);
    } else if OfBlock(c, p.dirty, p.list[k]) == iset{} {
      assert ProcOk(c, s, me);
      ControlStep(c, s, BusyStep(c, s, me), me);
    } else if p.list[k] in p.writing {
      if p.unlanded == iset{} { FlushKeeps(c, s, me, k, next); } else { assert s.procs[me := p] == s.procs; }
    } else {
      PutKeeps(c, s, me, k, next);
    }
  }

  lemma StepKeeps(c: Config, s: State, me: nat, l: Label)
    requires c.Valid() && Inv(c, s) && me < |s.procs|
    ensures Inv(c, Step(c, s, me, l))
  {
    match l {
      case Does(call) => if s.procs[me].pc == Idle { IdleKeeps(c, s, me, call); }
      case Lands(b, now) => if b in s.procs[me].unlanded { LandKeeps(c, s, me, b, now); }
      case Goes =>
        match s.procs[me].pc {
          case Idle =>
          case Begin(k, next) => BeginKeeps(c, s, me, k, next);
          case Complete(next) => if s.procs[me].unlanded == iset{} { CompleteKeeps(c, s, me, next); }
          case Check(_, _) => CheckKeeps(c, s, me);
          case Request(h, guess) => RequestKeeps(c, s, me, h, guess);
          case Refresh(_) => CheckKeeps(c, s, me);
          case Invalidate(h) => InvalidateKeeps(c, s, me, h);
        }
    }
  }

  /* ---------------------------------------------------------------- whole runs */

  lemma InitInv(c: Config, s: State)
    requires c.Valid() && Init(c, s)
    ensures Inv(c, s)
  {
    forall b: nat ensures ByteOk(c, s, b) {
    }
  }

  lemma {:induction false} RunsKeepInv(c: Config, ss: seq<State>, k: nat)
    requires c.Valid() && IsRun(c, ss) && k < |ss|
    ensures Inv(c, ss[k])
  {
    if k == 0 {
      InitInv(c, ss[0]);
    } else {
      RunsKeepInv(c, ss, k - 1);
      assert Next(c, ss[k - 1], ss[k - 1 + 1]);
      var me, l :| 0 <= me < |ss[k - 1].procs| && ss[k] == Step(c, ss[k - 1], me, l);
      StepKeeps(c, ss[k - 1], me, l);
    }
  }
}

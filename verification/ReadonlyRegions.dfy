/** Setting a region read-only: what the code guarantees, the run that breaks coherence, and the condition under which
    the call is safe. */
module ReadonlyRegions {
  import opened Arithmetic
  import opened Coherence
  import opened CoherenceSteps
  import opened CachePromises

  /** set_readonly_coll as the code has it: nothing is invalidated. */
  ghost function SetUnchecked(s: State, me: nat, lo: nat, hi: nat): State
    requires me < |s.procs|
  {
    Put(s, me, s.procs[me].(readonly := s.procs[me].readonly + Range(lo, hi)))
  }

  /** The end of a later acquire. */
  ghost function Acquired(s: State, me: nat, h: Handler): State
    requires me < |s.procs|
  {
    var p := s.procs[me];
    Put(s, me, p.(valid := p.valid * p.readonly, known := Join(p.known, h.snap)))
  }

  /** After the collective release a later acquire makes a race-free read of a byte of the region return the last write
      exactly when no stale copy of the byte was in the cache when the region was set read-only. */
  lemma ReadonlyExact(c: Config, s: State, me: nat, lo: nat, hi: nat, h: Handler, id: nat, out: Out, b: nat)
    requires c.Valid() && Inv(c, s) && me < |s.procs| && !Pending(s, b) && b !in s.undef && !Local(c, me, b)
    requires lo <= b < hi && h.snap(b) == s.latest(b) && InBlock(c, out.lo, out.hi) && out.mode == Read && out.Has(b)
    ensures var s' := DoCheckout(c, Acquired(SetUnchecked(s, me, lo, hi), me, h), me, id, out);
            View(c, s', me, b) == s'.latest(b) <==> (b in s.procs[me].valid ==> s.procs[me].cache(b) == s.latest(b))
  {
    assert ByteOk(c, s, b);
    SameBlock(c, out.lo, out.hi, b);
    PadCovers(c, out.lo, out.hi, b);
    assert b in Range(lo, hi) && b in Range(out.lo, out.hi);
  }

  /** What a caller can check before the call: a process that has synchronised with the last write keeps no stale copy. */
  lemma SynchronisedIsFresh(c: Config, s: State, me: nat, b: nat)
    requires c.Valid() && Inv(c, s) && me < |s.procs| && !Pending(s, b) && b !in s.undef
    requires s.procs[me].known(b) == s.latest(b)
    ensures FreshByte(s, me, b)
  {
    assert CopyOk(c, s, me, b) by { assert ByteOk(c, s, b); }
  }

  /** An acquire before the call is enough: it synchronises with every release it names. */
  lemma AcquireMakesFresh(c: Config, s: State, me: nat, h: Handler, b: nat)
    requires c.Valid() && Inv(c, s) && me < |s.procs| && s.procs[me].pc == Invalidate(h)
    requires h.snap(b) == s.latest(b) && b !in s.undef
    ensures FreshByte(Step(c, s, me, Goes), me, b)
  {
    var s' := Step(c, s, me, Goes);
    AcquireCovers(c, s, me, h, b);
    StepKeeps(c, s, me, Goes);
    assert ByteOk(c, s, b) && ProcOk(c, s, me);
    AcquiredByte(c, s, me, h, b);
    forall i | 0 <= i < |s'.procs| ensures !Owns(s'.procs[i], b) {
      assert !Owns(s.procs[i], b);
    }
    SynchronisedIsFresh(c, s', me, b);
  }

  /** s' may differ from s in the copy of b that process me keeps, and in nothing else. */
  ghost predicate OtherCopy(s: State, s': State, me: nat, b: nat)
    requires me < |s.procs|
  {
    && |s'.procs| == |s.procs| && s' == s.(procs := s'.procs)
    && (forall i :: 0 <= i < |s.procs| && i != me ==> s'.procs[i] == s.procs[i])
    && (var p, p' := s.procs[me], s'.procs[me];
        && p' == p.(valid := p'.valid, cache := p'.cache)
        && forall x: nat :: x != b ==> (x in p'.valid <==> x in p.valid) && p'.cache(x) == p.cache(x))
  }

  /** The process keeps version 0 of b. */
  ghost function Stale(s: State, me: nat, b: nat): State
    requires me < |s.procs|
  {
    var p := s.procs[me];
    var cache := p.cache;
    Put(s, me, p.(valid := p.valid + iset{b}, cache := x => if x == b then 0 else cache(x)))
  }

  lemma StaleKeeps(c: Config, s: State, me: nat, b: nat)
    requires c.Valid() && Inv(c, s) && me < |s.procs| && !Pending(s, b) && b !in s.undef
    requires s.procs[me].known(b) < s.latest(b) && !Local(c, me, b) && b !in s.procs[me].readonly
    ensures Inv(c, Stale(s, me, b))
  {
    var s' := Stale(s, me, b);
    assert ProcOk(c, s, me);
    forall x: nat ensures ByteOk(c, s', x) {
      assert ByteOk(c, s, x);
      assert CopyOk(c, s, me, x) && (x == b ==> !Owns(s.procs[me], x));
      if x == b { OwnByte(c, s, s', me, x); } else { ByteSame(c, s, s', x); }
    }
    OwnStep(c, s, s', me);
  }

  /** The condition is exact as far as the invariant tells (the states compared satisfy the invariant; whether each of them
      is reached by a run is not decided): knowing the last write, or that the byte is at home here or
      read-only already, is the same as being safe whatever copy of the byte the cache has kept. */
  lemma SynchronisedIsExact(c: Config, s: State, me: nat, b: nat)
    requires c.Valid() && Inv(c, s) && me < |s.procs| && !Pending(s, b) && b !in s.undef
    ensures s.procs[me].known(b) == s.latest(b) || Local(c, me, b) || b in s.procs[me].readonly
            <==> forall s' :: OtherCopy(s, s', me, b) && Inv(c, s') ==> FreshByte(s', me, b)
  {
    assert CopyOk(c, s, me, b) by { assert ByteOk(c, s, b); }
    if s.procs[me].known(b) == s.latest(b) || Local(c, me, b) || b in s.procs[me].readonly {
      forall s' | OtherCopy(s, s', me, b) && Inv(c, s') ensures FreshByte(s', me, b) {
        assert CopyOk(c, s', me, b) by { assert ByteOk(c, s', b); }
        forall q | 0 <= q < |s'.procs| ensures !Owns(s'.procs[q], b) {
          assert Owns(s'.procs[q], b) <==> Owns(s.procs[q], b);
        }
      }
    } else {
      StaleKeeps(c, s, me, b);
      assert OtherCopy(s, Stale(s, me, b), me, b);
      assert b in Stale(s, me, b).procs[me].valid;
    }
  }

  ghost function At(s: State, me: nat, pc: Pc): State
    requires me < |s.procs|
  {
    Put(s, me, s.procs[me].(pc := pc))
  }

  lemma AcquireStarts(c: Config, s: State, me: nat, k: nat)
    requires c.Valid() && me < |s.procs| && k < |s.handlers| && s.procs[me].pc == Idle && s.procs[me].outs == map[]
    ensures Next(c, s, At(s, me, Begin(0, ToCheck(s.handlers[k]))))
  {
    assert At(s, me, Begin(0, ToCheck(s.handlers[k]))) == Step(c, s, me, Does(Acquire(k)));
  }

  lemma NothingToPut(c: Config, s: State, me: nat, h: Handler)
    requires c.Valid() && me < |s.procs| && s.procs[me].list == []
    ensures Next(c, At(s, me, Begin(0, ToCheck(h))), At(s, me, Complete(ToCheck(h))))
  {
    assert At(s, me, Complete(ToCheck(h))) == Step(c, At(s, me, Begin(0, ToCheck(h))), me, Goes);
  }

  lemma NothingToFlush(c: Config, s: State, me: nat, h: Handler)
    requires c.Valid() && me < |s.procs|
    requires var p := s.procs[me]; Clean(p) && p.unlanded == p.writing == iset{}
    ensures Next(c, At(s, me, Complete(ToCheck(h))), At(s, me, Check(h, false)))
  {
    assert At(s, me, Check(h, false)) == Step(c, At(s, me, Complete(ToCheck(h))), me, Goes);
  }

  lemma NothingToWaitFor(c: Config, s: State, me: nat, h: Handler)
    requires c.Valid() && me < |s.procs| && h.required == 0
    ensures Next(c, At(s, me, Check(h, false)), At(s, me, Invalidate(h)))
  {
    assert At(s, me, Invalidate(h)) == Step(c, At(s, me, Check(h, false)), me, Goes);
  }

  lemma AcquireEnds(c: Config, s: State, me: nat, h: Handler)
    requires c.Valid() && me < |s.procs| && s.procs[me].pc == Idle
    ensures Next(c, At(s, me, Invalidate(h)), Acquired(s, me, h))
  {
    assert Acquired(s, me, h) == Step(c, At(s, me, Invalidate(h)), me, Goes);
  }

  /** The acquire of a process with nothing to write back, for a handler that asks for no release, step by step. */
  lemma AcquireIsSteps(c: Config, s: State, me: nat, k: nat) returns (ss: seq<State>)
    requires c.Valid() && me < |s.procs| && k < |s.handlers| && s.handlers[k].required == 0
    requires var p := s.procs[me]; p.pc == Idle && p.outs == map[] && Clean(p) && p.unlanded == p.writing == iset{}
    ensures |ss| > 0 && ss[0] == s && forall j :: 0 <= j < |ss| - 1 ==> Next(c, ss[j], ss[j + 1])
    ensures ss[|ss| - 1] == Acquired(s, me, s.handlers[k])
  {
    hide Next, At, Acquired;
    var h := s.handlers[k];
    AcquireStarts(c, s, me, k);
    NothingToPut(c, s, me, h);
    NothingToFlush(c, s, me, h);
    NothingToWaitFor(c, s, me, h);
    AcquireEnds(c, s, me, h);
    ss := [s, At(s, me, Begin(0, ToCheck(h))), At(s, me, Complete(ToCheck(h))), At(s, me, Check(h, false)),
           At(s, me, Invalidate(h)), Acquired(s, me, h)];
  }

  ghost const ONE_BYTE := Config(1, 1, (i, k) => false)

  ghost function Blank(): Proc {
    Proc(iset{}, iset{}, iset{}, iset{}, iset{}, (b: nat) => 0, (b: nat) => 0, [], false, 1, 1, (q: nat) => 1,
         map[], iset{}, (b: nat) => 0, Idle)
  }

  lemma CheckoutNext(c: Config, s: State, me: nat, id: nat, out: Out)
    requires c.Valid() && me < |s.procs| && s.procs[me].pc == Idle
    requires id !in s.procs[me].outs && InBlock(c, out.lo, out.hi) && RaceFree(s, me, out)
    ensures Next(c, s, DoCheckout(c, s, me, id, out))
  {
    assert DoCheckout(c, s, me, id, out) == Step(c, s, me, Does(Checkout(id, out)));
  }

  lemma CheckinNext(c: Config, s: State, me: nat, id: nat)
    requires c.Valid() && me < |s.procs| && s.procs[me].pc == Idle && id in s.procs[me].outs
    ensures Next(c, s, Put(s, me, DoCheckin(c, s.procs[me], me, id)))
  {
    assert Put(s, me, DoCheckin(c, s.procs[me], me, id)) == Step(c, s, me, Does(Checkin(id)));
  }

  /** Process 0 reads version 0 of byte 0 and checks it in. */
  lemma ReaderRuns() returns (ss: seq<State>)
    ensures IsRun(ONE_BYTE, ss)
    ensures var s := ss[|ss| - 1];
            && |s.procs| == 2 && s.procs[1] == Blank() && s.latest(0) == 0 && s.undef == iset{} && s.handlers == []
            && s.procs[0].valid == iset{0} && s.procs[0].cache(0) == 0 && s.procs[0].known(0) == 0
            && s.procs[0].outs == map[] && s.procs[0].readonly == iset{} && s.procs[0].pc == Idle && Clean(s.procs[0])
            && s.procs[0].unlanded == s.procs[0].writing == iset{}
  {
    var zero: Versions := (b: nat) => 0;
    var s0 := State([Blank(), Blank()], zero, zero, iset{}, []);
    var out := Out(Read, 0, 1);
    assert Init(ONE_BYTE, s0);
    assert Range(0, 1) == iset{0} == Pad(ONE_BYTE, 0, 1);
    assert RaceFree(s0, 0, out);
    var s1 := DoCheckout(ONE_BYTE, s0, 0, 0, out);
    CheckoutNext(ONE_BYTE, s0, 0, 0, out);
    assert s1.procs[0] == Blank().(valid := iset{0}, outs := map[0 := out], cache := s1.procs[0].cache);
    var s2 := Put(s1, 0, DoCheckin(ONE_BYTE, s1.procs[0], 0, 0));
    CheckinNext(ONE_BYTE, s1, 0, 0);
    assert s2.procs[0].outs == map[];
    ss := [s0, s1, s2];
  }

  /** Process 1 then writes version 1 of byte 0 ... */
  lemma WriterRuns(s: State) returns (ss: seq<State>)
    requires |s.procs| == 2 && s.procs[1] == Blank() && s.latest(0) == 0 && s.undef == iset{} && s.handlers == []
    requires s.procs[0].outs == map[] && s.procs[0].readonly == iset{}
    ensures |ss| > 0 && ss[0] == s && forall k :: 0 <= k < |ss| - 1 ==> Next(ONE_BYTE, ss[k], ss[k + 1])
    ensures var t := ss[|ss| - 1];
            && |t.procs| == 2 && t.procs[0] == s.procs[0] && t.latest(0) == 1 && t.undef == iset{} && t.handlers == []
            && t.procs[1] == Blank().(valid := iset{0}, dirty := iset{0}, list := [0], hasDirty := true,
                                       known := t.procs[1].known, cache := t.procs[1].cache)
            && t.procs[1].known(0) == 1 && t.procs[1].cache(0) == 1
  {
    var out := Out(Write, 0, 1);
    assert Range(0, 1) == iset{0};
    assert RaceFree(s, 1, out);
    var s1 := DoCheckout(ONE_BYTE, s, 1, 0, out);
    CheckoutNext(ONE_BYTE, s, 1, 0, out);
    assert s1.procs[1].outs == map[0 := out];
    var s2 := Put(s1, 1, DoCheckin(ONE_BYTE, s1.procs[1], 1, 0));
    CheckinNext(ONE_BYTE, s1, 1, 0);
    assert s2.procs[1].outs == map[];
    assert OfBlock(ONE_BYTE, iset{}, 0) == iset{};
    ss := [s, s1, s2];
  }

  /** ... starts to put it ... */
  lemma PutRuns(s: State) returns (ss: seq<State>)
    requires |s.procs| == 2 && s.latest(0) == 1 && s.undef == iset{} && s.handlers == []
    requires s.procs[1] == Blank().(valid := iset{0}, dirty := iset{0}, list := [0], hasDirty := true,
                                     known := s.procs[1].known, cache := s.procs[1].cache)
    ensures |ss| > 0 && ss[0] == s && forall k :: 0 <= k < |ss| - 1 ==> Next(ONE_BYTE, ss[k], ss[k + 1])
    ensures var t := ss[|ss| - 1];
            && |t.procs| == 2 && t.procs[0] == s.procs[0] && t.latest(0) == 1 && t.undef == iset{} && t.handlers == []
            && t.procs[1].dirty == iset{} && t.procs[1].unlanded == iset{0} && t.procs[1].list == [] && t.procs[1].hasDirty
            && t.procs[1].outs == map[] && t.procs[1].known == s.procs[1].known && t.procs[1].pc == Complete(ToIdle)
  {
    var c := ONE_BYTE;
    var s1 := Step(c, s, 1, Does(Release));
    assert OfBlock(c, iset{0}, 0) == iset{0} && 0 in iset{0};
    var s2 := Step(c, s1, 1, Goes);
    assert s2.procs[1].dirty == iset{} && s2.procs[1].unlanded == iset{0} && s2.procs[1].pc == Begin(1, ToIdle);
    var s3 := Step(c, s2, 1, Goes);
    ss := [s, s1, s2, s3];
    assert Next(c, s, s1) && Next(c, s1, s2) && Next(c, s2, s3);
  }

  /** ... and releases it. */
  lemma FlushRuns(s: State) returns (ss: seq<State>)
    requires |s.procs| == 2 && s.latest(0) == 1 && s.undef == iset{} && s.handlers == []
    requires var p := s.procs[1];
             && p.dirty == iset{} && p.unlanded == iset{0} && p.list == [] && p.hasDirty
             && p.outs == map[] && p.known(0) == 1 && p.pc == Complete(ToIdle)
    ensures |ss| > 0 && ss[0] == s && forall k :: 0 <= k < |ss| - 1 ==> Next(ONE_BYTE, ss[k], ss[k + 1])
    ensures var t := ss[|ss| - 1];
            && |t.procs| == 2 && t.procs[0] == s.procs[0] && t.latest(0) == 1 && t.undef == iset{}
            && t.procs[1].outs == map[] && Clean(t.procs[1]) && t.procs[1].pc == Idle
            && |t.handlers| == 1 && t.handlers[0].snap(0) == 1 && t.handlers[0].required == 0
  {
    var c := ONE_BYTE;
    var s1 := Step(c, s, 1, Lands(0, false));
    assert s1.procs[1].unlanded == iset{};
    var s2 := Step(c, s1, 1, Goes);
    var s3 := Step(c, s2, 1, Does(ReleaseLazy));
    ss := [s, s1, s2, s3];
    assert Next(c, s, s1) && Next(c, s1, s2) && Next(c, s2, s3);
  }

  lemma {:induction false} RunsCompose(c: Config, ss: seq<State>, tt: seq<State>)
    requires c.Valid() && IsRun(c, ss) && |tt| > 0 && tt[0] == ss[|ss| - 1]
    requires forall k :: 0 <= k < |tt| - 1 ==> Next(c, tt[k], tt[k + 1])
    ensures IsRun(c, ss + tt[1..]) && (ss + tt[1..])[|ss| + |tt| - 2] == tt[|tt| - 1]
  {
    var uu := ss + tt[1..];
    forall k | 0 <= k < |uu| - 1 ensures Next(c, uu[k], uu[k + 1]) {
      if k < |ss| - 1 { assert Next(c, ss[k], ss[k + 1]); }
      else { assert Next(c, tt[k - (|ss| - 1)], tt[k - (|ss| - 1) + 1]); }
    }
  }

  /** The collective call as it stands breaks coherence: after a run ss in which every process has released, process 0,
      which does not know of the last write, sets byte 0 read-only; the steps tt of the machine then let it acquire and
      check the byte out without a race, and it sees version 0 although it knows of version 1. */
  lemma ReadonlyIsStale() returns (ss: seq<State>, tt: seq<State>)
    ensures IsRun(ONE_BYTE, ss)
    ensures var s := ss[|ss| - 1];
            && |s.procs| == 2 && (forall i :: 0 <= i < 2 ==> Clean(s.procs[i]) && s.procs[i].pc == Idle)
            && s.procs[0].known(0) < s.latest(0)
            && |tt| > 0 && tt[0] == SetUnchecked(s, 0, 0, 1)
    ensures forall k :: 0 <= k < |tt| - 1 ==> Next(ONE_BYTE, tt[k], tt[k + 1])
    ensures var t := tt[|tt| - 1];
            && |t.procs| == 2 && Reading(t.procs[0], 0)
            && t.latest(0) == t.procs[0].known(0) == 1 && View(ONE_BYTE, t, 0, 0) == 0
  {
    var c := ONE_BYTE;
    ss := ReaderRuns();
    var uu := WriterRuns(ss[|ss| - 1]);
    RunsCompose(c, ss, uu);
    ss := ss + uu[1..];
    uu := PutRuns(ss[|ss| - 1]);
    RunsCompose(c, ss, uu);
    ss := ss + uu[1..];
    uu := FlushRuns(ss[|ss| - 1]);
    RunsCompose(c, ss, uu);
    ss := ss + uu[1..];
    tt := StaleReadRuns(SetUnchecked(ss[|ss| - 1], 0, 0, 1));
  }

  lemma StaleReadRuns(s: State) returns (tt: seq<State>)
    requires |s.procs| == 2 && |s.handlers| == 1 && s.handlers[0].snap(0) == 1 && s.handlers[0].required == 0
    requires s.latest(0) == 1 && s.undef == iset{} && s.procs[1].outs == map[]
    requires var p := s.procs[0];
             && p.pc == Idle && p.outs == map[] && Clean(p) && p.unlanded == p.writing == iset{}
             && p.valid == p.readonly == Range(0, 1) && p.cache(0) == 0 && p.known(0) == 0
    ensures |tt| > 0 && tt[0] == s && forall k :: 0 <= k < |tt| - 1 ==> Next(ONE_BYTE, tt[k], tt[k + 1])
    ensures var t := tt[|tt| - 1];
            && |t.procs| == 2 && Reading(t.procs[0], 0)
            && t.latest(0) == t.procs[0].known(0) == 1 && View(ONE_BYTE, t, 0, 0) == 0
  {
    var c := ONE_BYTE;
    tt := AcquireIsSteps(c, s, 0, 0);
    var s1 := Acquired(s, 0, s.handlers[0]);
    var out := Out(Read, 0, 1);
    assert s1.procs[1] == s.procs[1];
    assert RaceFree(s1, 0, out);
    var s2 := DoCheckout(c, s1, 0, 0, out);
    CheckoutNext(c, s1, 0, 0, out);
    assert 0 in s2.procs[0].outs && s2.procs[0].outs[0].Has(0);
    ghost var uu := tt + [s2];
    forall k | 0 <= k < |uu| - 1 ensures Next(c, uu[k], uu[k + 1]) {
      if k < |tt| - 1 { assert Next(c, tt[k], tt[k + 1]); }
    }
    tt := uu;
  }
}

/** What home memory holds while the last write of a byte is still on its way: versions arrive in their order, and an
    acquire finds at home at least the version that its handler makes known, also when the writer has since written the
    byte again. The statements are about bytes that have never been discarded, since a discard drops the versions that
    are still dirty. */
module HomeVersions {
  import opened Arithmetic
  import opened Coherence
  import opened CoherenceSteps

  /** Process p has yet to deliver version v of b, or a later one. */
  ghost predicate Arrives(p: Proc, b: nat, v: nat) {
    b in p.dirty || (b in p.unlanded && v <= p.sent(b))
  }

  /** A put never takes home memory back, and what process i knows is there, being written or on its way from i. */
  ghost predicate CopyHome(s: State, i: nat, b: nat)
    requires i < |s.procs|
  {
    var p := s.procs[i];
    && (b in p.unlanded ==> s.home(b) <= p.sent(b) <= s.latest(b))
    && (s.home(b) < p.known(b) ==> Writing(p, b) || Arrives(p, b, p.known(b)))
  }

  /** What a handler makes known is there or on its way from the process that the handler names. */
  ghost predicate SnapHome(s: State, h: Handler, b: nat) {
    s.home(b) < h.snap(b) ==>
      h.target < |s.procs| && s.procs[h.target].epoch < h.required && Arrives(s.procs[h.target], b, h.snap(b))
  }

  ghost predicate HomeOk(s: State, b: nat) {
    && s.home(b) <= s.latest(b)
    && (forall i :: 0 <= i < |s.procs| ==> CopyHome(s, i, b))
    && (forall k :: 0 <= k < |s.handlers| ==> SnapHome(s, s.handlers[k], b))
  }

  /* ---------------------------------------------------------------- frames */

  /** What a step leaves for process i to deliver. */
  ghost predicate Delivers(s: State, s': State, i: nat, b: nat)
    requires i < |s.procs| == |s'.procs|
  {
    forall v: nat :: s'.home(b) < v <= s.latest(b) && Arrives(s.procs[i], b, v) ==>
      Arrives(s'.procs[i], b, v) && s'.procs[i].epoch == s.procs[i].epoch
  }

  lemma HomeFrame(c: Config, s: State, s': State, b: nat)
    requires c.Valid() && ByteOk(c, s, b) && HomeOk(s, b) && |s'.procs| == |s.procs| && s'.handlers == s.handlers
    requires s.home(b) <= s'.home(b) <= s'.latest(b) && s.latest(b) <= s'.latest(b)
    requires forall i :: 0 <= i < |s.procs| ==> CopyHome(s', i, b) && Delivers(s, s', i, b)
    ensures HomeOk(s', b)
  {
    forall k | 0 <= k < |s'.handlers| ensures SnapHome(s', s'.handlers[k], b) {
      var h := s.handlers[k];
      assert SnapHome(s, h, b);
      if s'.home(b) < h.snap(b) { assert SnapOk(s, h, h.target, b) && Delivers(s, s', h.target, b); }
    }
  }

  /** p' is p as far as the deliveries of b are concerned. */
  ghost predicate SameFor(p: Proc, p': Proc, b: nat) {
    && (b in p'.dirty <==> b in p.dirty) && (b in p'.unlanded <==> b in p.unlanded)
    && p'.sent(b) == p.sent(b) && p'.known(b) == p.known(b) && (Writing(p', b) <==> Writing(p, b))
    && (b in p.dirty || b in p.unlanded ==> p'.epoch == p.epoch)
  }

  /** Only process me does something about b, while a version that is under way from elsewhere finds home as it was. */
  lemma OwnHome(c: Config, s: State, s': State, me: nat, b: nat)
    requires c.Valid() && ByteOk(c, s, b) && HomeOk(s, b) && me < |s.procs| == |s'.procs| && s'.handlers == s.handlers
    requires s.home(b) <= s'.home(b) <= s'.latest(b) && s.latest(b) <= s'.latest(b)
    requires forall i :: 0 <= i < |s.procs| && i != me ==>
               SameFor(s.procs[i], s'.procs[i], b) && (s'.home(b) == s.home(b) || b !in s.procs[i].unlanded)
    requires CopyHome(s', me, b) && Delivers(s, s', me, b)
    ensures HomeOk(s', b)
  {
    forall i | 0 <= i < |s.procs| ensures CopyHome(s', i, b) && Delivers(s, s', i, b) {
      assert CopyHome(s, i, b);
      if i != me { assert SameFor(s.procs[i], s'.procs[i], b); }
    }
    HomeFrame(c, s, s', b);
  }

  /** Nobody does anything about b. */
  lemma SameHome(c: Config, s: State, s': State, b: nat)
    requires c.Valid() && ByteOk(c, s, b) && HomeOk(s, b) && |s'.procs| == |s.procs| && s'.handlers == s.handlers
    requires s'.home(b) == s.home(b) <= s'.latest(b) && s.latest(b) <= s'.latest(b)
    requires forall i :: 0 <= i < |s.procs| ==> SameFor(s.procs[i], s'.procs[i], b)
    ensures HomeOk(s', b)
  {
    forall i | 0 <= i < |s.procs| ensures CopyHome(s', i, b) && Delivers(s, s', i, b) {
      assert CopyHome(s, i, b) && SameFor(s.procs[i], s'.procs[i], b);
    }
    HomeFrame(c, s, s', b);
  }

  /* ---------------------------------------------------------------- steps about b */

  /** A byte that is being written is under way from nobody else. */
  lemma WriterAlone(c: Config, s: State, me: nat, i: nat, b: nat)
    requires c.Valid() && ByteOk(c, s, b) && me < |s.procs| && i < |s.procs| && i != me
    requires s.procs[me].known(b) == s.latest(b)
    ensures !Owns(s.procs[i], b) && b !in s.procs[i].unlanded
  {
    assert OwnerOk(s, i, me, b) && CopyOk(c, s, i, b);
  }

  lemma WriteHome(c: Config, s: State, me: nat, id: nat, out: Out, b: nat)
    requires c.Valid() && ByteOk(c, s, b) && HomeOk(s, b) && me < |s.procs|
    requires id !in s.procs[me].outs && InBlock(c, out.lo, out.hi) && out.Writes(b) && RaceFreeByte(s, me, out.mode, b)
    ensures HomeOk(DoCheckout(c, s, me, id, out), b)
  {
    var s' := DoCheckout(c, s, me, id, out);
    SameBlock(c, out.lo, out.hi, b);
    CheckoutOuts(s.procs[me], s'.procs[me], id, out, b);
    assert CopyOk(c, s, me, b) && CopyHome(s, me, b);
    forall i | 0 <= i < |s.procs| && i != me ensures SameFor(s.procs[i], s'.procs[i], b) && b !in s.procs[i].unlanded {
      WriterAlone(c, s, me, i, b);
    }
    assert CopyHome(s', me, b) && Delivers(s, s', me, b);
    OwnHome(c, s, s', me, b);
  }

  lemma CheckoutHome(c: Config, s: State, me: nat, id: nat, out: Out, b: nat)
    requires c.Valid() && ByteOk(c, s, b) && HomeOk(s, b) && me < |s.procs|
    requires id !in s.procs[me].outs && InBlock(c, out.lo, out.hi) && (out.Has(b) ==> RaceFreeByte(s, me, out.mode, b))
    ensures HomeOk(DoCheckout(c, s, me, id, out), b)
  {
    if out.Writes(b) {
      WriteHome(c, s, me, id, out, b);
    } else {
      var s' := DoCheckout(c, s, me, id, out);
      CheckoutOuts(s.procs[me], s'.procs[me], id, out, b);
      SameHome(c, s, s', b);
    }
  }

  lemma CheckinHome(c: Config, s: State, me: nat, id: nat, b: nat)
    requires c.Valid() && ByteOk(c, s, b) && HomeOk(s, b) && me < |s.procs| && id in s.procs[me].outs
    requires var out := s.procs[me].outs[id]; InBlock(c, out.lo, out.hi)
    ensures HomeOk(Put(s, me, DoCheckin(c, s.procs[me], me, id)), b)
  {
    var p := s.procs[me];
    var out := p.outs[id];
    var s' := Put(s, me, DoCheckin(c, p, me, id));
    assert CopyOk(c, s, me, b) && CopyHome(s, me, b);
    if out.Has(b) { SameBlock(c, out.lo, out.hi, b); }
    CheckinByte(c, p, me, id, b);
    assert CopyHome(s', me, b) && Delivers(s, s', me, b);
    OwnHome(c, s, s', me, b);
  }

  lemma PutHome(c: Config, s: State, me: nat, k: nat, next: Then, b: nat)
    requires c.Valid() && ByteOk(c, s, b) && HomeOk(s, b) && me < |s.procs| && s.procs[me].pc == Begin(k, next)
    requires var p := s.procs[me]; k < |p.list| && p.list[k] !in p.writing && (b in p.inflight ==> b / c.block in p.writing)
    ensures var p := s.procs[me]; HomeOk(Put(s, me, PutBlock(c, p, p.list[k]).(pc := Begin(k + 1, next))), b)
  {
    var p := s.procs[me];
    var s' := Put(s, me, PutBlock(c, p, p.list[k]).(pc := Begin(k + 1, next)));
    assert CopyOk(c, s, me, b) && CopyHome(s, me, b);
    assert CopyHome(s', me, b) && Delivers(s, s', me, b);
    OwnHome(c, s, s', me, b);
  }

  /** Whatever a put takes along, home gains: the bytes as sent are no older than home, and those of now are the latest. */
  lemma LandHome(c: Config, s: State, me: nat, b: nat, now: bool)
    requires c.Valid() && ByteOk(c, s, b) && HomeOk(s, b) && me < |s.procs| && b in s.procs[me].unlanded
    ensures HomeOk(Land(s, me, b, now), b) && s.home(b) <= Land(s, me, b, now).home(b)
  {
    var s' := Land(s, me, b, now);
    assert CopyOk(c, s, me, b) && CopyHome(s, me, b);
    forall i | 0 <= i < |s.procs| && i != me ensures b !in s.procs[i].unlanded {
      WriterAlone(c, s, me, i, b);
    }
    assert CopyHome(s', me, b) && Delivers(s, s', me, b);
    OwnHome(c, s, s', me, b);
  }

  /* ---------------------------------------------------------------- release and acquire */

  lemma ReleaseHome(c: Config, s: State, me: nat, b: nat)
    requires c.Valid() && ByteOk(c, s, b) && HomeOk(s, b) && me < |s.procs| && ProcOk(c, s, me)
    ensures HomeOk(IdleStep(c, s, me, ReleaseLazy), b)
  {
    var p := s.procs[me];
    var s' := IdleStep(c, s, me, ReleaseLazy);
    assert CopyOk(c, s, me, b) && CopyHome(s, me, b);
    assert b in p.dirty ==> p.list != [];
    forall i | 0 <= i < |s'.procs| ensures CopyHome(s', i, b) {
      assert CopyHome(s, i, b);
    }
    forall k | 0 <= k < |s'.handlers| ensures SnapHome(s', s'.handlers[k], b) {
      if k < |s.handlers| { assert SnapHome(s, s.handlers[k], b); }
    }
  }

  /** When an acquire returns, home memory holds the version that the handler makes known, or a later one. */
  lemma AcquiredHome(c: Config, s: State, me: nat, h: Handler, b: nat)
    requires c.Valid() && ByteOk(c, s, b) && HomeOk(s, b) && me < |s.procs| && s.procs[me].pc == Invalidate(h) && ProcOk(c, s, me)
    ensures h.snap(b) <= s.home(b)
  {
    var k :| 0 <= k < |s.handlers| && s.handlers[k] == h;
    assert SnapHome(s, s.handlers[k], b) && CopyOk(c, s, me, b);
  }

  lemma InvalidateHome(c: Config, s: State, me: nat, h: Handler, b: nat)
    requires c.Valid() && ByteOk(c, s, b) && HomeOk(s, b) && me < |s.procs| && s.procs[me].pc == Invalidate(h) && ProcOk(c, s, me)
    ensures HomeOk(BusyStep(c, s, me), b)
  {
    var s' := BusyStep(c, s, me);
    AcquiredHome(c, s, me, h, b);
    assert CopyHome(s, me, b);
    assert CopyHome(s', me, b) && Delivers(s, s', me, b);
    OwnHome(c, s, s', me, b);
  }

  /* ---------------------------------------------------------------- every step */

  lemma StartHome(c: Config, s: State, me: nat, call: Call, b: nat)
    requires c.Valid() && ByteOk(c, s, b) && HomeOk(s, b) && me < |s.procs|
    requires call.StartWriteback? || call.FinishWriteback? || call.Release? || call.Poll? || call.Acquire?
    ensures HomeOk(IdleStep(c, s, me, call), b) && s.home(b) == IdleStep(c, s, me, call).home(b)
  {
    SameHome(c, s, IdleStep(c, s, me, call), b);
  }

  lemma SetsHome(c: Config, s: State, me: nat, call: Call, b: nat)
    requires c.Valid() && ByteOk(c, s, b) && HomeOk(s, b) && me < |s.procs|
    requires call.Evict? || call.Discard? || call.SetReadonly? || call.UnsetReadonly?
    requires b !in IdleStep(c, s, me, call).undef
    ensures HomeOk(IdleStep(c, s, me, call), b) && s.home(b) == IdleStep(c, s, me, call).home(b)
  {
    SameHome(c, s, IdleStep(c, s, me, call), b);
  }

  lemma IdleHome(c: Config, s: State, me: nat, call: Call, b: nat)
    requires c.Valid() && ByteOk(c, s, b) && HomeOk(s, b) && me < |s.procs| && ProcOk(c, s, me)
    requires b !in IdleStep(c, s, me, call).undef
    ensures HomeOk(IdleStep(c, s, me, call), b) && s.home(b) <= IdleStep(c, s, me, call).home(b)
  {
    match call {
      case Checkout(id, out) =>
        if id !in s.procs[me].outs && InBlock(c, out.lo, out.hi) && RaceFree(s, me, out) {
          assert out.Has(b) ==> RaceFreeByte(s, me, out.mode, b);
          CheckoutHome(c, s, me, id, out, b);
        }
      case Checkin(id) => if id in s.procs[me].outs { CheckinHome(c, s, me, id, b); }
      case ReleaseLazy => ReleaseHome(c, s, me, b);
      case Evict(_) => SetsHome(c, s, me, call, b);
      case Discard(_, _) => SetsHome(c, s, me, call, b);
      case SetReadonly(_, _) => SetsHome(c, s, me, call, b);
      case UnsetReadonly(_, _) => SetsHome(c, s, me, call, b);
      case _ => StartHome(c, s, me, call, b);
    }
  }

  lemma FlushHome(c: Config, s: State, me: nat, p': Proc, b: nat)
    requires c.Valid() && ByteOk(c, s, b) && HomeOk(s, b) && me < |s.procs| && ProcOk(c, s, me) && s.procs[me].unlanded == iset{}
    requires p' == Flushed(s.procs[me]).(pc := p'.pc)
    ensures HomeOk(Put(s, me, p'), b)
  {
    SameHome(c, s, Put(s, me, p'), b);
  }

  lemma BeginHome(c: Config, s: State, me: nat, k: nat, next: Then, b: nat)
    requires c.Valid() && ByteOk(c, s, b) && HomeOk(s, b) && me < |s.procs| && ProcOk(c, s, me) && s.procs[me].pc == Begin(k, next)
    ensures HomeOk(BusyStep(c, s, me), b)
  {
    var p := s.procs[me];
    if k >= |p.list| || OfBlock(c, p.dirty, p.list[k]) == iset{} || (p.list[k] in p.writing && p.unlanded != iset{}) {
      SameHome(c, s, BusyStep(c, s, me), b);
    } else if p.list[k] in p.writing {
      FlushHome(c, s, me, Flushed(p), b);
    } else {
      PutHome(c, s, me, k, next, b);
    }
  }

  lemma WaitHome(c: Config, s: State, me: nat, b: nat)
    requires c.Valid() && ByteOk(c, s, b) && HomeOk(s, b) && me < |s.procs|
    requires var pc := s.procs[me].pc; pc.Check? || pc.Request? || pc.Refresh?
    ensures HomeOk(BusyStep(c, s, me), b) && s.home(b) == BusyStep(c, s, me).home(b)
  {
    SameHome(c, s, BusyStep(c, s, me), b);
  }

  lemma BusyHome(c: Config, s: State, me: nat, b: nat)
    requires c.Valid() && ByteOk(c, s, b) && HomeOk(s, b) && me < |s.procs| && ProcOk(c, s, me)
    ensures HomeOk(BusyStep(c, s, me), b) && s.home(b) == BusyStep(c, s, me).home(b)
  {
    var p := s.procs[me];
    match p.pc {
      case Idle =>
      case Begin(k, next) => BeginHome(c, s, me, k, next, b);
      case Complete(next) => if p.unlanded == iset{} { FlushHome(c, s, me, Proceed(Flushed(p), next), b); }
      case Invalidate(h) => InvalidateHome(c, s, me, h, b);
      case _ => WaitHome(c, s, me, b);
    }
  }

  /** A step keeps all this as long as it does not discard the byte, and never takes home memory back. */
  lemma StepHome(c: Config, s: State, me: nat, l: Label, b: nat)
    requires c.Valid() && Inv(c, s) && HomeOk(s, b) && me < |s.procs| && b !in Step(c, s, me, l).undef
    ensures HomeOk(Step(c, s, me, l), b) && s.home(b) <= Step(c, s, me, l).home(b)
  {
    assert ByteOk(c, s, b) && ProcOk(c, s, me);
    match l {
      case Does(call) => if s.procs[me].pc == Idle { IdleHome(c, s, me, call, b); }
      case Goes => BusyHome(c, s, me, b);
      case Lands(x, now) =>
        if x in s.procs[me].unlanded {
          if x == b { LandHome(c, s, me, b, now); } else { SameHome(c, s, Land(s, me, x, now), b); }
        }
    }
  }

  /* ---------------------------------------------------------------- whole runs */

  lemma NextHome(c: Config, s: State, s': State, b: nat)
    requires c.Valid() && Inv(c, s) && HomeOk(s, b) && Next(c, s, s') && b !in s'.undef
    ensures HomeOk(s', b) && s.home(b) <= s'.home(b)
  {
    var me, l :| 0 <= me < |s.procs| && s' == Step(c, s, me, l);
    StepHome(c, s, me, l, b);
  }

  lemma {:induction false} RunsKeepHome(c: Config, ss: seq<State>, k: nat, b: nat)
    requires c.Valid() && IsRun(c, ss) && k < |ss| && forall j :: 0 <= j <= k ==> b !in ss[j].undef
    ensures Inv(c, ss[k]) && HomeOk(ss[k], b)
  {
    RunsKeepInv(c, ss, k);
    if k > 0 {
      RunsKeepHome(c, ss, k - 1, b);
      assert Next(c, ss[k - 1], ss[k - 1 + 1]);
      NextHome(c, ss[k - 1], ss[k], b);
    }
  }

  lemma HomeAdvances(c: Config, ss: seq<State>, k: nat, b: nat)
    requires c.Valid() && IsRun(c, ss) && k < |ss| - 1 && forall j :: 0 <= j <= k + 1 ==> b !in ss[j].undef
    ensures ss[k].home(b) <= ss[k + 1].home(b)
  {
    RunsKeepHome(c, ss, k, b);
    NextHome(c, ss[k], ss[k + 1], b);
  }

  /** Home memory never goes back to an older version. */
  lemma {:induction false} HomeOnlyAdvances(c: Config, ss: seq<State>, j: nat, k: nat, b: nat)
    requires c.Valid() && IsRun(c, ss) && j <= k < |ss| && forall m :: 0 <= m <= k ==> b !in ss[m].undef
    ensures ss[j].home(b) <= ss[k].home(b)
  {
    hide IsRun;
    if j < k {
      HomeOnlyAdvances(c, ss, j, k - 1, b);
      HomeAdvances(c, ss, k - 1, b);
    }
  }

  /** Release and acquire over whole runs: from the end of an acquire of h on, home memory holds what the releasing
      process knew or something later, whatever its writer has done to the byte since the release. */
  lemma ReleasedIsHome(c: Config, ss: seq<State>, j: nat, k: nat, me: nat, h: Handler, b: nat)
    requires c.Valid() && IsRun(c, ss) && j <= k < |ss| && forall m :: 0 <= m <= k ==> b !in ss[m].undef
    requires me < |ss[j].procs| && ss[j].procs[me].pc == Invalidate(h)
    ensures h.snap(b) <= ss[k].home(b) <= ss[k].latest(b)
  {
    RunsKeepHome(c, ss, j, b);
    RunsKeepHome(c, ss, k, b);
    assert ByteOk(c, ss[j], b) && ProcOk(c, ss[j], me);
    AcquiredHome(c, ss[j], me, h, b);
    HomeOnlyAdvances(c, ss, j, k, b);
  }
}

/** What the caches of module Coherence promise to programs: coherence, release and acquire, epochs and requests. */
module CachePromises {
  import opened Arithmetic
  import opened Coherence
  import opened CoherenceSteps

  /** The version that process i sees when it accesses byte b. */
  ghost function View(c: Config, s: State, i: nat, b: nat): nat
    requires c.Valid() && i < |s.procs|
  {
    if Local(c, i, b) then s.home(b) else s.procs[i].cache(b)
  }

  /** Coherence: at every point of every run, whatever a process has checked out without a data race shows the last
      write. */
  lemma ReadsSeeLastWrite(c: Config, ss: seq<State>, k: nat, i: nat, b: nat)
    requires c.Valid() && IsRun(c, ss) && k < |ss| && i < |ss[k].procs| && Reading(ss[k].procs[i], b)
    ensures View(c, ss[k], i, b) == ss[k].latest(b)
  {
    RunsKeepInv(c, ss, k);
    ReadingSeesLatest(c, ss[k], i, b);
  }

  lemma ReadingSeesLatest(c: Config, s: State, i: nat, b: nat)
    requires c.Valid() && ByteOk(c, s, b) && i < |s.procs| && Reading(s.procs[i], b)
    ensures View(c, s, i, b) == s.latest(b)
  {
    assert CopyOk(c, s, i, b);
    forall j | 0 <= j < |s.procs| ensures Owns(s.procs[j], b) ==> j == i {
      assert OwnerOk(s, j, i, b);
    }
  }

  /** Release and acquire: when the acquire of h returns, every version that h makes known and nobody overwrote is at
      home, and the acquirer knows it and keeps no copy outside its read-only regions. */
  lemma AcquireCovers(c: Config, s: State, me: nat, h: Handler, b: nat)
    requires c.Valid() && Inv(c, s) && me < |s.procs| && s.procs[me].pc == Invalidate(h)
    ensures var s' := Step(c, s, me, Goes);
            && s'.procs[me].pc == Idle && s'.procs[me].known(b) >= h.snap(b)
            && (b in s'.procs[me].valid ==> b in s'.procs[me].readonly)
            && (h.snap(b) == s.latest(b) && b !in s.undef ==> s'.home(b) == s'.latest(b) == s'.procs[me].known(b))
  {
    assert ProcOk(c, s, me) && ByteOk(c, s, b);
    assert CopyOk(c, s, me, b);
    AcquiredByte(c, s, me, h, b);
  }

  /** False sharing is harmless: once nothing is pending, home holds the last write of every byte, whoever wrote the
      other bytes of its block. */
  lemma DisjointWritesSurvive(c: Config, s: State, b: nat)
    requires c.Valid() && Inv(c, s) && b !in s.undef
    requires forall i :: 0 <= i < |s.procs| ==> !s.procs[i].hasDirty && s.procs[i].outs == map[]
    ensures s.home(b) == s.latest(b)
  {
    assert ByteOk(c, s, b);
    forall i | 0 <= i < |s.procs| ensures !Owns(s.procs[i], b) {
      assert ProcOk(c, s, i);
    }
  }

  /** A put only ever changes bytes whose latest version its process has written. */
  lemma PutsAreOwn(c: Config, s: State, me: nat, b: nat, x: nat, now: bool)
    requires c.Valid() && Inv(c, s) && me < |s.procs| && s.home(b) != Land(s, me, x, now).home(b)
    ensures b == x && b in s.procs[me].inflight && s.procs[me].known(b) == s.latest(b)
    ensures forall j :: 0 <= j < |s.procs| && j != me ==> !Owns(s.procs[j], b)
  {
    assert ByteOk(c, s, x);
    assert CopyOk(c, s, me, x);
    forall j | 0 <= j < |s.procs| && j != me ensures !Owns(s.procs[j], b) {
      assert OwnerOk(s, me, j, x) && CopyOk(c, s, j, x);
    }
  }

  /** Dirty bytes are valid and their blocks are listed; a padded fetch stays inside its block and never overwrites a
      valid byte, hence no dirty one. */
  lemma FetchIsSafe(c: Config, s: State, me: nat, lo: nat, hi: nat, b: nat)
    requires c.Valid() && Inv(c, s) && me < |s.procs| && InBlock(c, lo, hi)
    ensures var p := s.procs[me]; b in p.dirty ==> b in p.valid && b / c.block in p.list
    ensures var p := s.procs[me];
            var p' := Fetch(c, p, s.home, lo, hi);
            && (b in p.valid ==> b in p'.valid && p'.cache(b) == p.cache(b))
            && (lo <= b < hi ==> b in p'.valid)
            && (b in p'.valid && b !in p.valid ==> b / c.block == lo / c.block && p'.cache(b) == s.home(b))
  {
    assert ProcOk(c, s, me);
    assert CopyOk(c, s, me, b) by { assert ByteOk(c, s, b); }
    if b in Pad(c, lo, hi) { PadInBlock(c, lo, hi, b); }
    if lo <= b < hi { PadCovers(c, lo, hi, b); assert b in Range(lo, hi); }
  }

  /** An eviction loses nothing that is checked out, dirty or in flight, and happens only while the process is idle. */
  lemma EvictIsSafe(c: Config, s: State, me: nat, blk: nat, b: nat)
    requires c.Valid() && Inv(c, s) && me < |s.procs| && b in s.procs[me].valid
    requires b !in Step(c, s, me, Does(Evict(blk))).procs[me].valid
    ensures !Owns(s.procs[me], b) && !Reading(s.procs[me], b) && s.procs[me].pc == Idle && b / c.block == blk
  {
    assert ProcOk(c, s, me);
    EvictedUnused(c, s.procs[me], blk, b);
  }

  /** The epoch of a process advances by one, and only when nothing of it is dirty or in flight. */
  lemma EpochAdvancesClean(c: Config, s: State, me: nat, l: Label, i: nat)
    requires c.Valid() && Inv(c, s) && me < |s.procs| && i < |s.procs|
    ensures var p, p' := s.procs[i], Step(c, s, me, l).procs[i];
            && (p'.epoch == p.epoch || p'.epoch == p.epoch + 1)
            && (p'.epoch != p.epoch ==> Clean(p'))
  {
    if l.Goes? { BusyEpoch(c, s, me, i); }
  }

  lemma BusyEpoch(c: Config, s: State, me: nat, i: nat)
    requires c.Valid() && Inv(c, s) && me < |s.procs| && i < |s.procs|
    ensures var p, p' := s.procs[i], BusyStep(c, s, me).procs[i];
            && (p'.epoch == p.epoch || p'.epoch == p.epoch + 1)
            && (p'.epoch != p.epoch ==> Clean(p'))
  {
    assert ProcOk(c, s, me);
    if s.procs[me].pc.Complete? {
      assert forall b: nat :: b in s.procs[me].dirty ==> b / c.block in s.procs[me].list;
    }
  }

  /** Requests only grow and are never more than one epoch ahead, whatever the compare-and-swap guessed. */
  lemma RequestsMonotone(c: Config, s: State, me: nat, l: Label, i: nat)
    requires c.Valid() && Inv(c, s) && me < |s.procs| && i < |s.procs|
    ensures var p, p' := s.procs[i], Step(c, s, me, l).procs[i]; p.requested <= p'.requested <= p'.epoch + 1
  {
    assert ProcOk(c, Step(c, s, me, l), i) by { StepKeeps(c, s, me, l); }
    RequestsGrow(c, s, me, l, i);
  }

  lemma RequestsGrow(c: Config, s: State, me: nat, l: Label, i: nat)
    requires c.Valid() && me < |s.procs| && i < |s.procs|
    ensures s.procs[i].requested <= Step(c, s, me, l).procs[i].requested
  {
    if l.Goes? { BusyRequestsGrow(c, s, me, i); }
  }

  lemma BusyRequestsGrow(c: Config, s: State, me: nat, i: nat)
    requires c.Valid() && me < |s.procs| && i < |s.procs|
    ensures s.procs[i].requested <= BusyStep(c, s, me).procs[i].requested
  {
  }

  /** One poll satisfies every outstanding request. */
  lemma PollSatisfies(c: Config, s: State, me: nat)
    requires c.Valid() && Inv(c, s) && me < |s.procs| && s.procs[me].pc == Complete(ToIdle) && s.procs[me].unlanded == iset{}
    ensures var p' := Step(c, s, me, Goes).procs[me]; p'.pc == Idle && p'.requested <= p'.epoch && Clean(p')
  {
    assert ProcOk(c, s, me);
  }

  /** No deadlock by mutual waiting: whoever waits has already released everything a handler can ask of it. */
  lemma NobodyWaitsForWaiting(c: Config, s: State, i: nat, h: Handler)
    requires c.Valid() && Inv(c, s) && h in s.handlers && h.target < |s.procs| && Waiting(s.procs[h.target].pc)
    ensures h.required <= s.procs[h.target].epoch
  {
    assert ProcOk(c, s, h.target);
    var k :| 0 <= k < |s.handlers| && s.handlers[k] == h;
    assert HandlerOk(s.procs, s.handlers[k]);
  }
}

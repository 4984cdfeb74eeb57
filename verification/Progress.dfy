/** No acquire of module Coherence can get stuck: from every reachable state it can be finished, by steps of the acquiring
    process, the write-back of the process that its handler names, and a poll of that process. */
module Progress {
  import opened Arithmetic
  import opened Coherence
  import opened CoherenceSteps
  import opened CachePromises

  /* ---------------------------------------------------------------- two more invariants */

  /** A process that waits for a release has asked for it; a guess that needs no request is one that was read. */
  ghost predicate Asked(s: State, i: nat)
    requires i < |s.procs|
  {
    match s.procs[i].pc
    case Check(h, asked) => asked ==> HasAsked(s, i, h)
    case Refresh(h) => HasAsked(s, i, h)
    case Request(h, guess) => guess >= h.required ==> HasAsked(s, i, h)
    case _ => true
  }

  ghost predicate HasAsked(s: State, i: nat, h: Handler) {
    h.target < |s.procs| && h.target != i ==> s.procs[h.target].requested >= h.required
  }

  /** Finitely many puts are under way. */
  ghost predicate Bounded(p: Proc) {
    exists n: nat :: Below(p.unlanded, n)
  }

  ghost predicate Below(bs: iset<nat>, n: nat) {
    forall b: nat :: b in bs ==> b < n
  }

  ghost predicate Good(c: Config, s: State)
    requires c.Valid()
  {
    Inv(c, s) && forall i :: 0 <= i < |s.procs| ==> Asked(s, i) && Bounded(s.procs[i])
  }

  lemma StepAsked(c: Config, s: State, me: nat, l: Label, i: nat)
    requires c.Valid() && Good(c, s) && me < |s.procs| && i < |s.procs|
    ensures Asked(Step(c, s, me, l), i)
  {
    assert Asked(s, i);
    var s' := Step(c, s, me, l);
    forall q | 0 <= q < |s.procs| ensures s.procs[q].requested <= s'.procs[q].requested {
      RequestsGrow(c, s, me, l, q);
    }
    if i == me { OwnAsked(c, s, me, l); } else { OtherPc(c, s, me, l, i); }
  }

  lemma OtherPc(c: Config, s: State, me: nat, l: Label, i: nat)
    requires c.Valid() && me < |s.procs| && i < |s.procs| && i != me
    ensures Step(c, s, me, l).procs[i].pc == s.procs[i].pc
  {
  }

  lemma OwnAsked(c: Config, s: State, me: nat, l: Label)
    requires c.Valid() && me < |s.procs| && Asked(s, me)
    ensures Asked(Step(c, s, me, l), me)
  {
    match l {
      case Does(call) => OwnCallAsked(c, s, me, call);
      case Goes => OwnBusyAsked(c, s, me);
      case Lands(_, _) =>
    }
  }

  lemma OwnCallAsked(c: Config, s: State, me: nat, call: Call)
    requires c.Valid() && me < |s.procs| && Asked(s, me)
    ensures Asked(Step(c, s, me, Does(call)), me)
  {
  }

  lemma OwnBusyAsked(c: Config, s: State, me: nat)
    requires c.Valid() && me < |s.procs| && Asked(s, me)
    ensures Asked(BusyStep(c, s, me), me)
  {
  }

  /** Only a put adds to what is under way: bytes of one block. */
  lemma StepBounded(c: Config, s: State, me: nat, l: Label, i: nat)
    requires c.Valid() && me < |s.procs| && i < |s.procs| && Bounded(s.procs[i])
    ensures Bounded(Step(c, s, me, l).procs[i])
  {
    var p, p' := s.procs[i], Step(c, s, me, l).procs[i];
    var n: nat :| Below(p.unlanded, n);
    if l.Goes? && i == me && p.pc.Begin? {
      BeginBounded(c, p, p.pc.k, p.pc.next, n);
    } else {
      NothingPut(c, s, me, l, i);
      assert Below(p'.unlanded, n);
    }
  }

  lemma NothingPut(c: Config, s: State, me: nat, l: Label, i: nat)
    requires c.Valid() && me < |s.procs| && i < |s.procs| && !(l.Goes? && i == me && s.procs[i].pc.Begin?)
    ensures Step(c, s, me, l).procs[i].unlanded <= s.procs[i].unlanded
  {
  }

  lemma BeginBounded(c: Config, p: Proc, k: nat, next: Then, n: nat)
    requires c.Valid() && Below(p.unlanded, n)
    ensures Bounded(BeginStep(c, p, k, next))
  {
    var p' := BeginStep(c, p, k, next);
    if k < |p.list| {
      var n' := Max(n, p.list[k] * c.block + c.block);
      forall b: nat | b in p'.unlanded ensures b < n' {
        if b !in p.unlanded { Remainder(b, c.block); }
      }
      assert Below(p'.unlanded, n');
    } else {
      assert Below(p'.unlanded, n);
    }
  }

  lemma StepGood(c: Config, s: State, me: nat, l: Label)
    requires c.Valid() && Good(c, s) && me < |s.procs|
    ensures Good(c, Step(c, s, me, l))
  {
    StepKeeps(c, s, me, l);
    SameProcs(c, s, me, l);
    forall i | 0 <= i < |s.procs| ensures Asked(Step(c, s, me, l), i) && Bounded(Step(c, s, me, l).procs[i]) {
      StepAsked(c, s, me, l, i);
      StepBounded(c, s, me, l, i);
    }
  }

  lemma SameProcs(c: Config, s: State, me: nat, l: Label)
    requires c.Valid() && me < |s.procs|
    ensures |Step(c, s, me, l).procs| == |s.procs|
  {
  }

  lemma {:induction false} RunsAreGood(c: Config, ss: seq<State>, k: nat)
    requires c.Valid() && IsRun(c, ss) && k < |ss|
    ensures Good(c, ss[k])
  {
    if k == 0 {
      InitGood(c, ss[0]);
    } else {
      RunsAreGood(c, ss, k - 1);
      assert Next(c, ss[k - 1], ss[k - 1 + 1]);
      var me, l :| 0 <= me < |ss[k - 1].procs| && ss[k] == Step(c, ss[k - 1], me, l);
      StepGood(c, ss[k - 1], me, l);
    }
  }

  lemma InitGood(c: Config, s: State)
    requires c.Valid() && Init(c, s)
    ensures Good(c, s)
  {
    InitInv(c, s);
    forall i | 0 <= i < |s.procs| ensures Bounded(s.procs[i]) {
      assert Below(s.procs[i].unlanded, 0);
    }
  }

  /* ---------------------------------------------------------------- paths */

  /** A step of i or q that carries on with what is under way, or a poll. */
  ghost predicate Helps(c: Config, s: State, s': State, i: nat, q: nat)
    requires c.Valid()
  {
    exists me: nat, l: Label :: me < |s.procs| && (me == i || me == q) && (l.Goes? || l.Lands? || l == Does(Poll)) && s' == Step(c, s, me, l)
  }

  /** t is reached from s in n such steps. */
  ghost predicate Reaches(c: Config, s: State, t: State, i: nat, q: nat, n: nat)
    requires c.Valid()
    decreases n
  {
    if n == 0 then s == t else exists m :: Helps(c, s, m, i, q) && Reaches(c, m, t, i, q, n - 1)
  }

  lemma ReachesSelf(c: Config, s: State, i: nat, q: nat)
    requires c.Valid()
    ensures Reaches(c, s, s, i, q, 0)
  {
  }

  lemma {:induction false} ReachesOn(c: Config, s: State, m: State, t: State, i: nat, q: nat, n1: nat, n2: nat)
    requires c.Valid() && Reaches(c, s, m, i, q, n1) && Reaches(c, m, t, i, q, n2)
    ensures Reaches(c, s, t, i, q, n1 + n2)
    decreases n1
  {
    hide Helps;
    if n1 > 0 {
      var m1 :| Helps(c, s, m1, i, q) && Reaches(c, m1, m, i, q, n1 - 1);
      ReachesOn(c, m1, m, t, i, q, n1 - 1, n2);
    }
  }

  lemma {:induction false} ReachesSwapped(c: Config, s: State, t: State, i: nat, q: nat, i': nat, q': nat, n: nat)
    requires c.Valid() && Reaches(c, s, t, i, q, n) && {i, q} <= {i', q'}
    ensures Reaches(c, s, t, i', q', n)
    decreases n
  {
    hide Helps;
    if n > 0 {
      var m :| Helps(c, s, m, i, q) && Reaches(c, m, t, i, q, n - 1);
      ReachesSwapped(c, m, t, i, q, i', q', n - 1);
      HelpsSwapped(c, s, m, i, q, i', q');
    }
  }

  lemma HelpsSwapped(c: Config, s: State, m: State, i: nat, q: nat, i': nat, q': nat)
    requires c.Valid() && Helps(c, s, m, i, q) && {i, q} <= {i', q'}
    ensures Helps(c, s, m, i', q')
  {
    hide Step;
    var me: nat, l: Label :| me < |s.procs| && (me == i || me == q) && (l.Goes? || l.Lands? || l == Does(Poll)) && m == Step(c, s, me, l);
    assert me in {i', q'};
  }

  /** One step of me. */
  lemma OneStep(c: Config, s: State, me: nat, l: Label) returns (t: State)
    requires c.Valid() && Good(c, s) && me < |s.procs| && (l.Goes? || l.Lands? || l == Does(Poll))
    ensures t == Step(c, s, me, l) && Good(c, t) && Reaches(c, s, t, me, me, 1)
  {
    t := Step(c, s, me, l);
    StepGood(c, s, me, l);
    assert Helps(c, s, t, me, me) && Reaches(c, t, t, me, me, 0);
  }

  /** Only me has changed, apart from home memory, and it has lost neither requests nor epochs. */
  ghost predicate OnlyMe(s: State, t: State, me: nat) {
    && me < |s.procs| == |t.procs| && t.handlers == s.handlers
    && (forall j :: 0 <= j < |s.procs| && j != me ==> t.procs[j] == s.procs[j])
    && t.procs[me].requested == s.procs[me].requested && t.procs[me].epoch >= s.procs[me].epoch
  }

  lemma OnlyMeOn(s: State, m: State, t: State, me: nat)
    requires OnlyMe(s, m, me) && OnlyMe(m, t, me)
    ensures OnlyMe(s, t, me)
  {
  }

  /* ---------------------------------------------------------------- a write-back can be finished */

  /** All puts under way land. */
  lemma {:induction false} LandAll(c: Config, s: State, me: nat, bound: nat) returns (t: State, n: nat)
    requires c.Valid() && Good(c, s) && me < |s.procs| && Below(s.procs[me].unlanded, bound)
    ensures Good(c, t) && Reaches(c, s, t, me, me, n)
    ensures t.procs == s.procs[me := s.procs[me].(unlanded := iset{})] && t.handlers == s.handlers
    decreases bound
  {
    hide Reaches;
    var p := s.procs[me];
    if bound == 0 {
      assert p.unlanded == iset{};
      ReachesSelf(c, s, me, me);
      t, n := s, 0;
    } else if bound - 1 in p.unlanded {
      var m := OneStep(c, s, me, Lands(bound - 1, false));
      t, n := LandAll(c, m, me, bound - 1);
      ReachesOn(c, s, m, t, me, me, 1, n);
      n := 1 + n;
    } else {
      t, n := LandAll(c, s, me, bound - 1);
    }
  }

  lemma LandRest(c: Config, s: State, me: nat) returns (t: State, n: nat)
    requires c.Valid() && Good(c, s) && me < |s.procs|
    ensures Good(c, t) && Reaches(c, s, t, me, me, n)
    ensures t.procs == s.procs[me := s.procs[me].(unlanded := iset{})] && t.handlers == s.handlers
  {
    var bound: nat :| Below(s.procs[me].unlanded, bound);
    t, n := LandAll(c, s, me, bound);
  }

  /** A step of the write-back of me. */
  lemma Go(c: Config, s: State, me: nat, p': Proc) returns (t: State)
    requires c.Valid() && Good(c, s) && me < |s.procs| && BusyStep(c, s, me) == Put(s, me, p')
    requires p'.requested == s.procs[me].requested && p'.epoch >= s.procs[me].epoch
    ensures t == Put(s, me, p') && Good(c, t) && Reaches(c, s, t, me, me, 1) && OnlyMe(s, t, me)
  {
    t := OneStep(c, s, me, Goes);
  }

  /** One round of the loop over the dirty blocks. */
  lemma Round(c: Config, s: State, me: nat, k: nat, next: Then) returns (t: State, n: nat)
    requires c.Valid() && Good(c, s) && me < |s.procs| && s.procs[me].pc == Begin(k, next) && k < |s.procs[me].list|
    ensures Good(c, t) && Reaches(c, s, t, me, me, n) && OnlyMe(s, t, me)
    ensures t.procs[me].pc == Begin(k + 1, next) && t.procs[me].list == s.procs[me].list
  {
    hide Reaches;
    var p := s.procs[me];
    if OfBlock(c, p.dirty, p.list[k]) != iset{} && p.list[k] in p.writing {
      var m1, n1 := LandRest(c, s, me);
      var m2 := Go(c, m1, me, Flushed(m1.procs[me]));
      ReachesOn(c, s, m1, m2, me, me, n1, 1);
      t := Go(c, m2, me, BeginStep(c, m2.procs[me], k, next));
      ReachesOn(c, s, m2, t, me, me, n1 + 1, 1);
      n := n1 + 2;
    } else {
      t := Go(c, s, me, BeginStep(c, p, k, next));
      n := 1;
    }
  }

  lemma {:induction false} FinishBegin(c: Config, s: State, me: nat, k: nat, next: Then) returns (t: State, n: nat)
    requires c.Valid() && Good(c, s) && me < |s.procs| && s.procs[me].pc == Begin(k, next)
    ensures Good(c, t) && Reaches(c, s, t, me, me, n) && OnlyMe(s, t, me)
    ensures t.procs[me].pc == if next.Back? then Idle else Complete(next)
    decreases |s.procs[me].list| - k
  {
    hide Reaches;
    if k < |s.procs[me].list| {
      var m, n1 := Round(c, s, me, k, next);
      var n2;
      t, n2 := FinishBegin(c, m, me, k + 1, next);
      ReachesOn(c, s, m, t, me, me, n1, n2);
      OnlyMeOn(s, m, t, me);
      n := n1 + n2;
    } else {
      t := Go(c, s, me, BeginStep(c, s.procs[me], k, next));
      n := 1;
    }
  }

  /** The flush; after a release nothing that was requested is left. */
  lemma FinishComplete(c: Config, s: State, me: nat, next: Then) returns (t: State, n: nat)
    requires c.Valid() && Good(c, s) && me < |s.procs| && s.procs[me].pc == Complete(next)
    ensures Good(c, t) && Reaches(c, s, t, me, me, n) && OnlyMe(s, t, me)
    ensures t.procs[me].pc == if next.ToCheck? then Check(next.h, false) else Idle
    ensures next.ToIdle? ==> t.procs[me].requested <= t.procs[me].epoch
  {
    hide Reaches;
    var m, n1 := LandRest(c, s, me);
    t := Go(c, m, me, Proceed(Flushed(m.procs[me]), next));
    ReachesOn(c, s, m, t, me, me, n1, 1);
    n := n1 + 1;
    assert ProcOk(c, m, me) && ProcOk(c, t, me);
  }

  /* ---------------------------------------------------------------- a request can be met */

  ghost predicate Met(s: State, q: nat, required: nat) {
    q < |s.procs| && required <= s.procs[q].epoch
  }

  /** A free process meets the request with one poll. */
  lemma PollMeets(c: Config, s: State, q: nat, required: nat) returns (t: State, n: nat)
    requires c.Valid() && Good(c, s) && q < |s.procs| && s.procs[q].pc == Idle && required <= s.procs[q].requested
    ensures Good(c, t) && Reaches(c, s, t, q, q, n) && OnlyMe(s, t, q) && Met(t, q, required)
  {
    hide Reaches;
    if s.procs[q].requested <= s.procs[q].epoch {
      ReachesSelf(c, s, q, q);
      t, n := s, 0;
    } else {
      var m1 := OneStep(c, s, q, Does(Poll));
      var m2, n2 := FinishBegin(c, m1, q, 0, ToIdle);
      ReachesOn(c, s, m1, m2, q, q, 1, n2);
      var n3;
      t, n3 := FinishComplete(c, m2, q, ToIdle);
      ReachesOn(c, s, m2, t, q, q, 1 + n2, n3);
      OnlyMeOn(m1, m2, t, q);
      n := 1 + n2 + n3;
    }
  }

  /** A process that has written back either is free or waits itself, and then owes nothing. */
  lemma FlushMeets(c: Config, s: State, h: Handler, next: Then) returns (t: State, n: nat)
    requires c.Valid() && Good(c, s) && h in s.handlers && h.target < |s.procs| && s.procs[h.target].pc == Complete(next)
    requires h.required <= s.procs[h.target].requested
    ensures Good(c, t) && Reaches(c, s, t, h.target, h.target, n) && OnlyMe(s, t, h.target) && Met(t, h.target, h.required)
  {
    hide Reaches;
    var q := h.target;
    var m, n1 := FinishComplete(c, s, q, next);
    if next.ToCheck? {
      NobodyWaitsForWaiting(c, m, q, h);
      t, n := m, n1;
    } else {
      var n2;
      t, n2 := PollMeets(c, m, q, h.required);
      ReachesOn(c, s, m, t, q, q, n1, n2);
      OnlyMeOn(s, m, t, q);
      n := n1 + n2;
    }
  }

  lemma LoopMeets(c: Config, s: State, h: Handler, k: nat, next: Then) returns (t: State, n: nat)
    requires c.Valid() && Good(c, s) && h in s.handlers && h.target < |s.procs| && s.procs[h.target].pc == Begin(k, next)
    requires h.required <= s.procs[h.target].requested
    ensures Good(c, t) && Reaches(c, s, t, h.target, h.target, n) && OnlyMe(s, t, h.target) && Met(t, h.target, h.required)
  {
    hide Reaches;
    var q := h.target;
    var m, n1 := FinishBegin(c, s, q, k, next);
    var n2;
    if next.Back? { t, n2 := PollMeets(c, m, q, h.required); } else { t, n2 := FlushMeets(c, m, h, next); }
    ReachesOn(c, s, m, t, q, q, n1, n2);
    OnlyMeOn(s, m, t, q);
    n := n1 + n2;
  }

  /** Whatever the process that a handler names is doing, it can come to meet a request that it has been sent. */
  lemma RequestCanBeMet(c: Config, s: State, h: Handler) returns (t: State, n: nat)
    requires c.Valid() && Good(c, s) && h in s.handlers && h.target < |s.procs|
    requires h.required <= s.procs[h.target].requested
    ensures Good(c, t) && Reaches(c, s, t, h.target, h.target, n) && OnlyMe(s, t, h.target) && Met(t, h.target, h.required)
  {
    hide Reaches;
    match s.procs[h.target].pc {
      case Idle => t, n := PollMeets(c, s, h.target, h.required);
      case Begin(k, next) => t, n := LoopMeets(c, s, h, k, next);
      case Complete(next) => t, n := FlushMeets(c, s, h, next);
      case _ =>
        NobodyWaitsForWaiting(c, s, h.target, h);
        ReachesSelf(c, s, h.target, h.target);
        t, n := s, 0;
    }
  }

  /* ---------------------------------------------------------------- an acquire can return */

  /** The acquire of h has returned. */
  ghost predicate Returned(t: State, i: nat, h: Handler) {
    i < |t.procs| && t.procs[i].pc == Idle && forall b: nat :: h.snap(b) <= t.procs[i].known(b)
  }

  lemma CheckReturns(c: Config, s: State, i: nat, h: Handler, asked: bool) returns (t: State, n: nat)
    requires c.Valid() && Good(c, s) && i < |s.procs| && s.procs[i].pc == Check(h, asked) && !NeedsWait(s.procs[i], i, h)
    ensures Good(c, t) && Reaches(c, s, t, i, i, n) && Returned(t, i, h)
  {
    hide Reaches;
    var m := OneStep(c, s, i, Goes);
    t := OneStep(c, m, i, Goes);
    ReachesOn(c, s, m, t, i, i, 1, 1);
    n := 2;
  }

  /** A process that has asked waits no longer than until the request is met. */
  lemma RefreshReturns(c: Config, s: State, i: nat, h: Handler) returns (t: State, n: nat)
    requires c.Valid() && Good(c, s) && i < |s.procs| && s.procs[i].pc == Refresh(h)
    ensures Good(c, t) && Reaches(c, s, t, i, h.target, n) && Returned(t, i, h)
  {
    hide Reaches;
    TargetExists(c, s, i, h);
    var m1, n1 := s, 0;
    ReachesSelf(c, s, i, h.target);
    if h.target != i {
      assert Asked(s, i);
      m1, n1 := RequestCanBeMet(c, s, h);
      ReachesSwapped(c, s, m1, h.target, h.target, i, h.target, n1);
    }
    var m2 := OneStep(c, m1, i, Goes);
    ReachesSwapped(c, m1, m2, i, i, i, h.target, 1);
    ReachesOn(c, s, m1, m2, i, h.target, n1, 1);
    var n2;
    t, n2 := CheckReturns(c, m2, i, h, true);
    ReachesSwapped(c, m2, t, i, i, i, h.target, n2);
    ReachesOn(c, s, m2, t, i, h.target, n1 + 1, n2);
    n := n1 + 1 + n2;
  }

  lemma TargetExists(c: Config, s: State, i: nat, h: Handler)
    requires c.Valid() && Good(c, s) && i < |s.procs| && s.procs[i].pc == Refresh(h)
    ensures h in s.handlers && h.target < |s.procs|
  {
    assert ProcOk(c, s, i);
    var k :| 0 <= k < |s.handlers| && s.handlers[k] == h;
    assert HandlerOk(s.procs, s.handlers[k]);
  }

  /** With a guess that is up to date, one compare-and-swap is enough; otherwise it brings the guess up to date. */
  lemma RequestReturns(c: Config, s: State, i: nat, h: Handler, guess: nat) returns (t: State, n: nat)
    requires c.Valid() && Good(c, s) && i < |s.procs| && s.procs[i].pc == Request(h, guess)
    ensures Good(c, t) && Reaches(c, s, t, i, h.target, n) && Returned(t, i, h)
    decreases h.target < |s.procs| && s.procs[h.target].requested != guess
  {
    hide Reaches;
    var m := OneStep(c, s, i, Goes);
    ReachesSwapped(c, s, m, i, i, i, h.target, 1);
    var n2;
    if m.procs[i].pc.Refresh? {
      t, n2 := RefreshReturns(c, m, i, h);
    } else {
      t, n2 := RequestReturns(c, m, i, h, s.procs[h.target].requested);
    }
    ReachesOn(c, s, m, t, i, h.target, 1, n2);
    n := 1 + n2;
  }

  lemma WaitReturns(c: Config, s: State, i: nat, h: Handler, asked: bool) returns (t: State, n: nat)
    requires c.Valid() && Good(c, s) && i < |s.procs| && s.procs[i].pc == Check(h, asked)
    ensures Good(c, t) && Reaches(c, s, t, i, h.target, n) && Returned(t, i, h)
  {
    hide Reaches;
    if NeedsWait(s.procs[i], i, h) {
      var m := OneStep(c, s, i, Goes);
      ReachesSwapped(c, s, m, i, i, i, h.target, 1);
      var n2;
      if asked {
        t, n2 := RefreshReturns(c, m, i, h);
      } else {
        t, n2 := RequestReturns(c, m, i, h, s.procs[i].remote(h.target));
      }
      ReachesOn(c, s, m, t, i, h.target, 1, n2);
      n := 1 + n2;
    } else {
      t, n := CheckReturns(c, s, i, h, asked);
      ReachesSwapped(c, s, t, i, i, i, h.target, n);
    }
  }

  lemma CompleteReturns(c: Config, s: State, i: nat, h: Handler) returns (t: State, n: nat)
    requires c.Valid() && Good(c, s) && i < |s.procs| && s.procs[i].pc == Complete(ToCheck(h))
    ensures Good(c, t) && Reaches(c, s, t, i, h.target, n) && Returned(t, i, h)
  {
    hide Reaches;
    var m, n1 := FinishComplete(c, s, i, ToCheck(h));
    ReachesSwapped(c, s, m, i, i, i, h.target, n1);
    var n2;
    t, n2 := WaitReturns(c, m, i, h, false);
    ReachesOn(c, s, m, t, i, h.target, n1, n2);
    n := n1 + n2;
  }

  lemma BeginReturns(c: Config, s: State, i: nat, k: nat, h: Handler) returns (t: State, n: nat)
    requires c.Valid() && Good(c, s) && i < |s.procs| && s.procs[i].pc == Begin(k, ToCheck(h))
    ensures Good(c, t) && Reaches(c, s, t, i, h.target, n) && Returned(t, i, h)
  {
    hide Reaches;
    var m, n1 := FinishBegin(c, s, i, k, ToCheck(h));
    ReachesSwapped(c, s, m, i, i, i, h.target, n1);
    var n2;
    t, n2 := CompleteReturns(c, m, i, h);
    ReachesOn(c, s, m, t, i, h.target, n1, n2);
    n := n1 + n2;
  }

  /** Process i is somewhere inside the acquire of h. */
  ghost predicate Acquires(pc: Pc, h: Handler) {
    match pc
    case Idle => false
    case Begin(_, next) => next == ToCheck(h)
    case Complete(next) => next == ToCheck(h)
    case _ => pc.h == h
  }

  /** No acquire ever deadlocks: in every state of every run, wherever the acquire and the process it waits for are, a
      number of steps of these two processes, which begin nothing but polls, makes it return. */
  lemma AcquireCanReturn(c: Config, ss: seq<State>, k: nat, i: nat, h: Handler) returns (t: State, n: nat)
    requires c.Valid() && IsRun(c, ss) && k < |ss| && i < |ss[k].procs| && Acquires(ss[k].procs[i].pc, h)
    ensures Reaches(c, ss[k], t, i, h.target, n) && Returned(t, i, h)
  {
    RunsAreGood(c, ss, k);
    var s := ss[k];
    match s.procs[i].pc {
      case Begin(l, _) => t, n := BeginReturns(c, s, i, l, h);
      case Complete(_) => t, n := CompleteReturns(c, s, i, h);
      case Check(_, asked) => t, n := WaitReturns(c, s, i, h, asked);
      case Request(_, guess) => t, n := RequestReturns(c, s, i, h, guess);
      case Refresh(_) => t, n := RefreshReturns(c, s, i, h);
      case Invalidate(_) =>
        t := OneStep(c, s, i, Goes);
      n := 1;
        ReachesSwapped(c, s, t, i, i, i, h.target, 1);
    }
  }
}

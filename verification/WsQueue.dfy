/** The work-stealing queue of one worker as a state machine.

    One owner (push, pop, for_each_entry) and any number of other processes (thieves that may abort, passers)
    run interleaved; every load, store, fetch-and-add and compare-and-swap on shared memory is one step.
    The queue lock is the counter lock with the priority path that only the owner takes.
    A step yields an event; the machine is shown to refine an atomic double-ended queue.
 */
module WsQueue {

  /** Capacity and the template argument EnablePass. */
  datatype Config = Config(n: nat, enablePass: bool) {
    function InitialPos(): nat {
      if enablePass then n / 2 else 0
    }
  }

  /** What follows a shift of the entries: the rest of a push (with its local copy of top) or of a pop. */
  datatype Rest<E> = ThenPush(e: E, t: int) | ThenPop(ensureEmpty: bool)

  datatype OwnerPc<E> =
    | Idle
    // push
    | PushRead(e: E)
    | PushWrite(e: E, t: int)
    | PushPublish(e: E, t: int)
    // shifting under the lock, from push and from pop
    | ShiftLock(k: Rest<E>)
    | ShiftSpin(k: Rest<E>)
    | ShiftOffset(k: Rest<E>)
    | ShiftCopy(k: Rest<E>, offset: int)
    | ShiftTop(k: Rest<E>, newT: int, newB: int)
    | ShiftBase(k: Rest<E>, newB: int)
    | ShiftUnlock(k: Rest<E>)
    | Full(k: Rest<E>)
    // pop
    | PopBase(ensureEmpty: bool)
    | PopTop(ensureEmpty: bool)
    | PopGate(ensureEmpty: bool)
    | PopLoad
    | PopStore(t: int)
    | PopCompare(t: int)
    | PopTake(t: int)
    | PopRestore(t: int)
    | PopLock(t: int)
    | PopSpin(t: int)
    | PopLower(t: int)
    | PopDecide(t: int)
    | PopTakeLocked(t: int, last: bool)
    | PopResetTop
    | PopResetBase
    | PopUnlock
    // for_each_entry
    | VisitLock
    | VisitSpin
    | VisitRead
    | VisitUnlock

  datatype AgentPc<E> =
    | Away
    | StealFaa
    | StealRead(b: int)
    | StealGet(b: int)
    | StealHold(b: int, e: E)
    | StealUndo(b: int)
    | PassRead(e: E)
    | PassPut(e: E, b: int)
    | PassBase(e: E, b: int)
    | Leave

  datatype State<E> = State(
    top: int,
    base: int,
    entries: seq<E>,
    lock: int,
    localEmpty: bool,
    owner: OwnerPc<E>,
    agents: seq<AgentPc<E>>)

  datatype Event<E> =
    | Tau
    | Pushed(e: E)
    | Popped(e: E)
    | PopNone
    | PopHint
    | Visited(es: seq<E>)
    | Stole(e: E)
    | Aborted(e: E)
    | Kept(e: E)
    | Passed(e: E)
    | PassRefused
    | QueueFull

  /* ---------------------------------------------------------------- steps of the owner */

  datatype OwnerCall<E> = CallPush(e: E) | CallPop(ensureEmpty: bool) | CallVisit

  function Begin<E>(c: Config, s: State<E>, call: OwnerCall<E>): (State<E>, Event<E>) {
    match call
    case CallPush(e) => (s.(owner := PushRead(e)), Tau)
    case CallPop(ee) => (s.(owner := if c.enablePass then PopBase(ee) else PopGate(ee)), Tau)
    case CallVisit => if !c.enablePass && s.localEmpty then (s, Visited([])) else (s.(owner := VisitLock), Tau)
  }

  /** C++ division by two, truncating toward zero. */
  function Half(x: int): int {
    if x >= 0 then x / 2 else -((-x) / 2)
  }

  function MoveEntries<E>(entries: seq<E>, b: int, t: int, newB: int): (r: seq<E>)
    requires 0 <= b <= t <= |entries| && 0 <= newB && newB + (t - b) <= |entries|
    ensures |r| == |entries| && r[newB..newB + (t - b)] == entries[b..t]
  {
    entries[..newB] + entries[b..t] + entries[newB + (t - b)..]
  }

  /** The fetch-and-add or the spinning load with which the owner enters the lock. */
  function OwnerFaa<E>(s: State<E>, held: OwnerPc<E>, spin: OwnerPc<E>): (State<E>, Event<E>) {
    (s.(lock := s.lock + 1, owner := if s.lock == 0 then held else spin), Tau)
  }

  function OwnerSpin<E>(s: State<E>, held: OwnerPc<E>): (State<E>, Event<E>) {
    (if s.lock == 1 then s.(owner := held) else s, Tau)
  }

  function OwnerUnlock<E>(s: State<E>, next: OwnerPc<E>): (State<E>, Event<E>) {
    (s.(lock := s.lock - 1, owner := next), Tau)
  }

  ghost predicate InRange<E>(s: State<E>, t: int) {
    0 <= t < |s.entries|
  }

  /** The step the owner takes next; call says what a free owner begins. */
  ghost function OwnerStep<E>(c: Config, s: State<E>, call: OwnerCall<E>): (State<E>, Event<E>) {
    match s.owner
    case Idle => Begin(c, s, call)
    case PushRead(e) =>
      if s.top == c.n then (s.(owner := ShiftLock(ThenPush(e, s.top))), Tau)
      else (s.(owner := PushWrite(e, s.top)), Tau)
    case PushWrite(e, t) =>
      if InRange(s, t) then (s.(entries := s.entries[t := e], owner := PushPublish(e, t)), Tau) else (s, Tau)
    case PushPublish(e, t) =>
      (s.(top := t + 1, localEmpty := c.enablePass && s.localEmpty, owner := Idle), Pushed(e))
    case ShiftLock(k) => OwnerFaa(s, ShiftOffset(k), ShiftSpin(k))
    case ShiftSpin(k) => OwnerSpin(s, ShiftOffset(k))
    case ShiftOffset(k) =>
      (match k
       case ThenPush(e, t) =>
         var offset := Half(-(s.base + 1));
         (s.(owner := ShiftCopy(ThenPush(e, t + offset), offset)), Tau)
       case ThenPop(_) =>
         (s.(owner := ShiftCopy(k, Half(c.n - s.top + 1))), Tau))
    case ShiftCopy(k, offset) =>
      var newB, newT := s.base + offset, s.top + offset;
      if offset == 0 || newB < 0 || c.n < newT then (s.(owner := Full(k)), QueueFull)
      else if 0 <= s.base <= s.top <= |s.entries| && newT <= |s.entries| then
        (s.(entries := MoveEntries(s.entries, s.base, s.top, newB), owner := ShiftTop(k, newT, newB)), Tau)
      else (s, Tau)
    case ShiftTop(k, newT, newB) => (s.(top := newT, owner := ShiftBase(k, newB)), Tau)
    case ShiftBase(k, newB) => (s.(base := newB, owner := ShiftUnlock(k)), Tau)
    case ShiftUnlock(k) =>
      OwnerUnlock(s, match k case ThenPush(e, t) => PushWrite(e, t) case ThenPop(ee) => PopGate(ee))
    case Full(_) => (s, Tau)
    case PopBase(ee) => (s.(owner := if s.base < c.n / 10 then PopTop(ee) else PopGate(ee)), Tau)
    case PopTop(ee) =>
      (s.(owner := if c.n - s.top > c.n / 10 then ShiftLock(ThenPop(ee)) else PopGate(ee)), Tau)
    case PopGate(ee) =>
      if !c.enablePass && s.localEmpty then (s.(owner := Idle), PopNone)
      else if !ee && s.top <= s.base then (s.(owner := Idle), PopHint)
      else (s.(owner := PopLoad), Tau)
    case PopLoad => (s.(owner := PopStore(s.top - 1)), Tau)
    case PopStore(t) => (s.(top := t, owner := PopCompare(t)), Tau)
    case PopCompare(t) => (s.(owner := if s.base <= t then PopTake(t) else PopRestore(t)), Tau)
    case PopTake(t) =>
      if InRange(s, t) then (s.(owner := Idle), Popped(s.entries[t])) else (s, Tau)
    case PopRestore(t) => (s.(top := t + 1, owner := PopLock(t)), Tau)
    case PopLock(t) => OwnerFaa(s, PopLower(t), PopSpin(t))
    case PopSpin(t) => OwnerSpin(s, PopLower(t))
    case PopLower(t) => (s.(top := t, owner := PopDecide(t)), Tau)
    case PopDecide(t) =>
      if s.base < t then (s.(owner := PopTakeLocked(t, false)), Tau)
      else if s.base == t then (s.(owner := PopTakeLocked(t, true)), Tau)
      else (s.(owner := PopResetTop), PopNone)
    case PopTakeLocked(t, last) =>
      if InRange(s, t) then (s.(owner := if last then PopResetTop else PopUnlock), Popped(s.entries[t])) else (s, Tau)
    case PopResetTop => (s.(top := c.InitialPos(), owner := PopResetBase), Tau)
    case PopResetBase =>
      (s.(base := c.InitialPos(), localEmpty := !c.enablePass || s.localEmpty, owner := PopUnlock), Tau)
    case PopUnlock => OwnerUnlock(s, Idle)
    case VisitLock => OwnerFaa(s, VisitRead, VisitSpin)
    case VisitSpin => OwnerSpin(s, VisitRead)
    case VisitRead =>
      if 0 <= s.base <= s.top <= |s.entries| then
        (s.(localEmpty := s.localEmpty || (!c.enablePass && s.top <= s.base), owner := VisitUnlock),
         Visited(s.entries[s.base..s.top]))
      else (s, Tau)
    case VisitUnlock => OwnerUnlock(s, Idle)
  }

  /* ---------------------------------------------------------------- steps of the other processes */

  datatype AgentCall<E> = CallSteal | CallPass(e: E) | CallKeep | CallAbort

  /** The step process i takes next; call says what it begins, and whether a thief aborts. */
  ghost function AgentStep<E>(c: Config, s: State<E>, i: nat, call: AgentCall<E>): (State<E>, Event<E>)
    requires i < |s.agents|
  {
    match s.agents[i]
    case Away =>
      // trylock, alone or repeated by lock()
      if s.lock != 0 then (s, Tau)
      else if call.CallPass? && c.enablePass then (s.(lock := 1, agents := s.agents[i := PassRead(call.e)]), Tau)
      else (s.(lock := 1, agents := s.agents[i := StealFaa]), Tau)
    case StealFaa => (s.(base := s.base + 1, agents := s.agents[i := StealRead(s.base)]), Tau)
    case StealRead(b) =>
      if b < s.top && InRange(s, b) then (s.(agents := s.agents[i := StealGet(b)]), Stole(s.entries[b]))
      else (s.(agents := s.agents[i := StealUndo(b)]), Tau)
    case StealGet(b) =>
      if InRange(s, b) then (s.(agents := s.agents[i := StealHold(b, s.entries[b])]), Tau) else (s, Tau)
    case StealHold(b, e) =>
      if call.CallAbort? then (s.(base := s.base - 1, agents := s.agents[i := Leave]), Aborted(e))
      else (s.(agents := s.agents[i := Leave]), Kept(e))
    case StealUndo(b) => (s.(base := s.base - 1, agents := s.agents[i := Leave]), Tau)
    case PassRead(e) =>
      if s.base == 0 then (s.(agents := s.agents[i := Leave]), PassRefused)
      else (s.(agents := s.agents[i := PassPut(e, s.base)]), Tau)
    case PassPut(e, b) =>
      if InRange(s, b - 1) then
        (s.(entries := s.entries[b - 1 := e], agents := s.agents[i := PassBase(e, b)]), Tau)
      else (s, Tau)
    case PassBase(e, b) => (s.(base := b - 1, agents := s.agents[i := Leave]), Passed(e))
    case Leave => (s.(lock := s.lock - 1, agents := s.agents[i := Away]), Tau)
  }

  ghost predicate Init<E>(c: Config, s: State<E>) {
    && s.top == s.base == c.InitialPos() && |s.entries| == c.n
    && s.lock == 0 && !s.localEmpty && s.owner == Idle
    && forall i :: 0 <= i < |s.agents| ==> s.agents[i] == Away
  }

  ghost predicate Step<E(!new)>(c: Config, s: State<E>, ev: Event<E>, s': State<E>) {
    || (exists call :: OwnerStep(c, s, call) == (s', ev))
    || (exists i, call :: 0 <= i < |s.agents| && AgentStep(c, s, i, call) == (s', ev))
  }

  /* ---------------------------------------------------------------- the abstract queue of a state */

  ghost predicate OwnerHolds<E>(o: OwnerPc<E>) {
    o.ShiftOffset? || o.ShiftCopy? || o.ShiftTop? || o.ShiftBase? || o.ShiftUnlock? || o.Full? ||
    o.PopLower? || o.PopDecide? || o.PopTakeLocked? || o.PopResetTop? || o.PopResetBase? || o.PopUnlock? ||
    o.VisitRead? || o.VisitUnlock?
  }

  ghost predicate OwnerWaits<E>(o: OwnerPc<E>) {
    o.ShiftSpin? || o.PopSpin? || o.VisitSpin?
  }

  ghost predicate Busy<E>(agents: seq<AgentPc<E>>) {
    exists i :: 0 <= i < |agents| && agents[i] != Away
  }

  /** A thief has advanced base but not yet learnt that the entry is its own, or will take it back. */
  ghost predicate Undecided<E>(a: AgentPc<E>) {
    a.StealRead? || a.StealUndo?
  }

  /** A thief has an entry in flight. */
  ghost predicate Carrying<E>(a: AgentPc<E>) {
    a.StealGet? || a.StealHold?
  }

  ghost function Overshoot<E>(agents: seq<AgentPc<E>>): int {
    if exists i :: 0 <= i < |agents| && Undecided(agents[i]) then 1 else 0
  }

  ghost function Lo<E>(s: State<E>): int {
    if s.owner.ShiftTop? then s.owner.newB
    else if s.owner.ShiftBase? then s.owner.newB
    else if s.owner.PopResetTop? || s.owner.PopResetBase? then 0
    else s.base - Overshoot(s.agents)
  }

  /** The owner has lowered top without having taken the entry. */
  ghost predicate Lowered<E>(o: OwnerPc<E>) {
    o.PopCompare? || o.PopTake? || o.PopRestore? || o.PopDecide? || o.PopTakeLocked?
  }

  ghost function Hi<E>(s: State<E>): int {
    if s.owner.ShiftTop? then s.owner.newT
    else if s.owner.PopResetTop? || s.owner.PopResetBase? then 0
    else if Lowered(s.owner) then s.top + 1
    else s.top
  }

  /** The entries in the queue, oldest first. */
  ghost function Content<E>(s: State<E>): seq<E>
    requires 0 <= Lo(s) <= Hi(s) <= |s.entries|
  {
    s.entries[Lo(s)..Hi(s)]
  }

  /** The entry that thief a carries: its own copy, or still the array's. */
  ghost function Carried<E>(a: AgentPc<E>, entries: seq<E>): seq<E> {
    match a
    case StealHold(_, e) => [e]
    case StealGet(b) => if 0 <= b < |entries| then [entries[b]] else []
    case _ => []
  }

  /** The entries a thief holds but may still give back: none or one. */
  ghost function InFlight<E>(s: State<E>): seq<E> {
    if i :| 0 <= i < |s.agents| && Carrying(s.agents[i]) then Carried(s.agents[i], s.entries) else []
  }

  /** The atomic double-ended queue. */
  ghost predicate DequeStep<E>(q: seq<E>, fly: seq<E>, ev: Event<E>, q': seq<E>, fly': seq<E>) {
    match ev
    case Pushed(e) => q' == q + [e] && fly' == fly
    case Popped(e) => q == q' + [e] && fly' == fly
    case PopNone => q == [] && fly == [] && q' == q && fly' == fly
    case Visited(es) => es == q && q' == q && fly' == fly
    case Stole(e) => fly == [] && q == [e] + q' && fly' == [e]
    case Aborted(e) => fly == [e] && q' == [e] + q && fly' == []
    case Kept(e) => fly == [e] && q' == q && fly' == []
    case Passed(e) => q' == [e] + q && fly' == fly
    case _ => q' == q && fly' == fly
  }

  /* ---------------------------------------------------------------- the invariant */

  ghost predicate OwnerOk<E>(c: Config, s: State<E>) {
    match s.owner
    case PushWrite(e, t) => t == s.top < c.n
    case PushPublish(e, t) => t == s.top < c.n && InRange(s, t) && s.entries[t] == e
    case ShiftLock(k) => BeforeShift(c, s, k)
    case ShiftSpin(k) => BeforeShift(c, s, k)
    case ShiftOffset(k) => BeforeShift(c, s, k)
    case ShiftCopy(k, offset) =>
      (match k
       case ThenPush(e, t) => s.top == c.n && offset == Half(-(s.base + 1)) && t == c.n + offset
       case ThenPop(_) => s.top < c.n && offset == Half(c.n - s.top + 1))
    case ShiftTop(k, newT, newB) => AfterShift(c, newT, k)
    case ShiftBase(k, newB) => AfterShift(c, s.top, k)
    case ShiftUnlock(k) => AfterShift(c, s.top, k)
    case PopStore(t) => t == s.top - 1
    case PopCompare(t) => t == s.top
    case PopTake(t) => t == s.top && Lo(s) <= t
    case PopRestore(t) => t == s.top
    case PopLock(t) => t == s.top - 1
    case PopSpin(t) => t == s.top - 1
    case PopLower(t) => t == s.top - 1
    case PopDecide(t) => t == s.top
    case PopTakeLocked(t, last) => t == s.top && s.base <= t && (last <==> s.base == t)
    case PopResetBase => s.top == c.InitialPos()
    case _ => true
  }

  ghost predicate BeforeShift<E>(c: Config, s: State<E>, k: Rest<E>) {
    if k.ThenPush? then k.t == s.top == c.n else s.top < c.n
  }

  ghost predicate AfterShift<E>(c: Config, top: int, k: Rest<E>) {
    k.ThenPush? ==> k.t == top < c.n
  }

  ghost predicate AgentOk<E>(c: Config, s: State<E>, a: AgentPc<E>) {
    match a
    case StealRead(b) => s.base == b + 1
    case StealUndo(b) => s.base == b + 1
    case StealGet(b) => s.base == b + 1 && InRange(s, b)
    case StealHold(b, e) => s.base == b + 1 && InRange(s, b) && s.entries[b] == e
    case PassPut(e, b) => c.enablePass && s.base == b && InRange(s, b - 1)
    case PassBase(e, b) => c.enablePass && s.base == b && InRange(s, b - 1) && s.entries[b - 1] == e
    case PassRead(e) => c.enablePass
    case _ => true
  }

  ghost predicate Inv<E>(c: Config, s: State<E>) {
    && |s.entries| == c.n
    && LockInv(s)
    && 0 <= Lo(s) <= Hi(s) <= c.n
    && OwnerOk(c, s)
    && (forall i :: 0 <= i < |s.agents| ==> AgentOk(c, s, s.agents[i]))
    && (s.localEmpty ==> !c.enablePass && Lo(s) == Hi(s) && !PastGate(s.owner) && InFlight(s) == [])
  }

  /** A pop has found the queue possibly non-empty. */
  ghost predicate PastGate<E>(o: OwnerPc<E>) {
    o.PopLoad? || o.PopStore? || o.PopLock? || o.PopSpin? || o.PopLower? || Lowered(o)
  }

  /** The counter lock: at most one holder, and the counter counts the holder and the waiting owner. */
  ghost predicate LockInv<E>(s: State<E>) {
    && (forall i, j :: 0 <= i < j < |s.agents| ==> s.agents[i] == Away || s.agents[j] == Away)
    && (OwnerHolds(s.owner) ==> !Busy(s.agents))
    && s.lock == OwnerShare(s.owner) + (if Busy(s.agents) then 1 else 0)
  }

  /** What the owner contributes to the lock counter. */
  ghost function OwnerShare<E>(o: OwnerPc<E>): int {
    if OwnerHolds(o) || OwnerWaits(o) then 1 else 0
  }

  /* ---------------------------------------------------------------- every step keeps the invariant */

  /** The goal of each case: the invariant is kept and the step is one of the atomic queue. */
  ghost predicate Refines<E>(c: Config, s: State<E>, ev: Event<E>, s': State<E>)
    requires Inv(c, s)
  {
    Inv(c, s') && DequeStep(Content(s), InFlight(s), ev, Content(s'), InFlight(s'))
  }

  lemma OthersAway<E>(s: State<E>, i: nat)
    requires LockInv(s) && i < |s.agents| && s.agents[i] != Away
    ensures Busy(s.agents) && !OwnerHolds(s.owner)
    ensures forall j :: 0 <= j < |s.agents| && j != i ==> s.agents[j] == Away
    ensures Overshoot(s.agents) == if Undecided(s.agents[i]) then 1 else 0
    ensures InFlight(s) == Carried(s.agents[i], s.entries)
  {
  }

  lemma NoneBusy<E>(s: State<E>)
    requires !Busy(s.agents)
    ensures InFlight(s) == [] && Overshoot(s.agents) == 0
  {
  }

  lemma OvershootBound<E>(agents: seq<AgentPc<E>>)
    ensures 0 <= Overshoot(agents) <= 1
  {
  }

  /** An owner step that leaves base and the entries below the queue alone does not disturb the others. */
  lemma OwnerFrame<E>(c: Config, s: State<E>, s': State<E>)
    requires Inv(c, s) && s'.agents == s.agents && |s'.entries| == |s.entries|
    requires Busy(s.agents) ==> s'.base == s.base
    requires Busy(s.agents) ==> forall p :: 0 <= p < s.base - Overshoot(s.agents) && p < c.n ==> s'.entries[p] == s.entries[p]
    ensures forall i :: 0 <= i < |s.agents| ==> AgentOk(c, s', s'.agents[i])
    ensures InFlight(s') == InFlight(s)
  {
    if Busy(s.agents) {
      var i :| 0 <= i < |s.agents| && s.agents[i] != Away;
      OthersAway(s, i);
      assert AgentOk(c, s, s.agents[i]);
      assert InFlight(s') == Carried(s.agents[i], s'.entries) by {
        assert Carrying(s.agents[i]) || forall j :: 0 <= j < |s.agents| ==> !Carrying(s.agents[j]);
      }
    }
  }

  /** What is left to show for an owner step once the frame is known. */
  lemma OwnerConcludes<E>(c: Config, s: State<E>, s': State<E>, ev: Event<E>)
    requires Inv(c, s) && s'.agents == s.agents && |s'.entries| == |s.entries|
    requires Busy(s.agents) ==> s'.base == s.base
    requires Busy(s.agents) ==> forall p :: 0 <= p < s.base - Overshoot(s.agents) && p < c.n ==> s'.entries[p] == s.entries[p]
    requires OwnerHolds(s'.owner) ==> !Busy(s.agents)
    requires s'.lock - OwnerShare(s'.owner) == s.lock - OwnerShare(s.owner)
    requires 0 <= Lo(s') <= Hi(s') <= c.n && OwnerOk(c, s')
    requires s'.localEmpty ==> !c.enablePass && Lo(s') == Hi(s') && !PastGate(s'.owner) && InFlight(s) == []
    requires DequeStep(Content(s), InFlight(s), ev, Content(s'), InFlight(s))
    ensures Refines(c, s, ev, s')
  {
    OwnerFrame(c, s, s');
  }

  /** The same for a step of agent i, which holds the lock before or after it. */
  lemma AgentConcludes<E>(c: Config, s: State<E>, i: nat, s': State<E>, ev: Event<E>)
    requires Inv(c, s) && i < |s.agents|
    requires forall j :: 0 <= j < |s.agents| && j != i ==> s.agents[j] == Away
    requires |s'.agents| == |s.agents| && s'.agents == s.agents[i := s'.agents[i]] && s'.owner == s.owner && |s'.entries| == |s.entries|
    requires !OwnerHolds(s.owner)
    requires s'.lock == OwnerShare(s.owner) + (if s'.agents[i] == Away then 0 else 1)
    requires AgentOk(c, s', s'.agents[i]) && OwnerOk(c, s')
    requires Overshoot(s'.agents) == (if Undecided(s'.agents[i]) then 1 else 0)
    requires 0 <= Lo(s') <= Hi(s') <= c.n
    requires s'.localEmpty ==> !c.enablePass && Lo(s') == Hi(s') && !PastGate(s'.owner) && Carried(s'.agents[i], s'.entries) == []
    requires DequeStep(Content(s), InFlight(s), ev, Content(s'), Carried(s'.agents[i], s'.entries))
    ensures Refines(c, s, ev, s')
  {
    assert Busy(s'.agents) <==> s'.agents[i] != Away;
    assert InFlight(s') == Carried(s'.agents[i], s'.entries) by {
      assert Carrying(s'.agents[i]) || forall j :: 0 <= j < |s'.agents| ==> !Carrying(s'.agents[j]);
    }
  }

  lemma OvershootAfter<E>(agents: seq<AgentPc<E>>, i: nat, a: AgentPc<E>)
    requires i < |agents| && forall j :: 0 <= j < |agents| && j != i ==> agents[j] == Away
    ensures Overshoot(agents[i := a]) == if Undecided(a) then 1 else 0
  {
    assert agents[i := a][i] == a;
  }

  lemma BeginRefines<E>(c: Config, s: State<E>, call: OwnerCall<E>)
    requires Inv(c, s) && s.owner.Idle?
    ensures var (s', ev) := OwnerStep(c, s, call); Refines(c, s, ev, s')
  {
    OvershootBound(s.agents);
    hide InFlight, Overshoot, Busy, AgentOk;
    var (s', ev) := OwnerStep(c, s, call);
    OwnerConcludes(c, s, s', ev);
  }

  lemma PushReadRefines<E>(c: Config, s: State<E>, call: OwnerCall<E>)
    requires Inv(c, s) && s.owner.PushRead?
    ensures var (s', ev) := OwnerStep(c, s, call); Refines(c, s, ev, s')
  {
    OvershootBound(s.agents);
    hide InFlight, Overshoot, Busy, AgentOk;
    var (s', ev) := OwnerStep(c, s, call);
    OwnerConcludes(c, s, s', ev);
  }

  lemma PushWriteRefines<E>(c: Config, s: State<E>, call: OwnerCall<E>)
    requires Inv(c, s) && s.owner.PushWrite?
    ensures var (s', ev) := OwnerStep(c, s, call); Refines(c, s, ev, s')
  {
    OvershootBound(s.agents);
    hide InFlight, Overshoot, Busy, AgentOk;
    var (s', ev) := OwnerStep(c, s, call);
    OwnerConcludes(c, s, s', ev);
  }

  lemma PushPublishRefines<E>(c: Config, s: State<E>, call: OwnerCall<E>)
    requires Inv(c, s) && s.owner.PushPublish?
    ensures var (s', ev) := OwnerStep(c, s, call); Refines(c, s, ev, s')
  {
    var (s', ev) := OwnerStep(c, s, call);
    assert Content(s') == Content(s) + [s.owner.e];
    OwnerConcludes(c, s, s', ev);
  }

  lemma EnterRefines<E>(c: Config, s: State<E>, call: OwnerCall<E>)
    requires Inv(c, s) && (s.owner.ShiftLock? || s.owner.PopLock? || s.owner.VisitLock?)
    ensures var (s', ev) := OwnerStep(c, s, call); Refines(c, s, ev, s')
  {
    OvershootBound(s.agents);
    hide InFlight, Overshoot, Busy, AgentOk;
    var (s', ev) := OwnerStep(c, s, call);
    OwnerConcludes(c, s, s', ev);
  }

  lemma SpinRefines<E>(c: Config, s: State<E>, call: OwnerCall<E>)
    requires Inv(c, s) && (s.owner.ShiftSpin? || s.owner.PopSpin? || s.owner.VisitSpin?)
    ensures var (s', ev) := OwnerStep(c, s, call); Refines(c, s, ev, s')
  {
    OvershootBound(s.agents);
    hide InFlight, Overshoot, Busy, AgentOk;
    var (s', ev) := OwnerStep(c, s, call);
    OwnerConcludes(c, s, s', ev);
  }

  lemma ShiftOffsetRefines<E>(c: Config, s: State<E>, call: OwnerCall<E>)
    requires Inv(c, s) && (s.owner.ShiftOffset? || s.owner.Full?)
    ensures var (s', ev) := OwnerStep(c, s, call); Refines(c, s, ev, s')
  {
    var (s', ev) := OwnerStep(c, s, call);
    NoneBusy(s);
    OwnerConcludes(c, s, s', ev);
  }

  /** The shift of a push throws exactly when base is zero, the shift of a pop never. */
  lemma ShiftFits<E>(c: Config, s: State<E>)
    requires Inv(c, s) && s.owner.ShiftCopy?
    ensures var offset := s.owner.offset;
            var throws := offset == 0 || s.base + offset < 0 || c.n < s.top + offset;
            && (throws <==> s.owner.k.ThenPush? && s.base == 0)
            && 0 <= s.base <= s.top <= c.n
            && (!throws ==> AfterShift(c, s.top + offset, s.owner.k))
  {
    NoneBusy(s);
  }

  lemma ShiftCopyRefines<E>(c: Config, s: State<E>, call: OwnerCall<E>)
    requires Inv(c, s) && s.owner.ShiftCopy?
    ensures var (s', ev) := OwnerStep(c, s, call); Refines(c, s, ev, s')
  {
    ShiftFits(c, s);
    if ShiftThrows(c, s) { ShiftFullRefines(c, s, call); } else { ShiftMoveRefines(c, s, call); }
  }

  ghost predicate ShiftThrows<E>(c: Config, s: State<E>)
    requires s.owner.ShiftCopy?
  {
    var offset := s.owner.offset;
    offset == 0 || s.base + offset < 0 || c.n < s.top + offset
  }

  lemma ShiftFullRefines<E>(c: Config, s: State<E>, call: OwnerCall<E>)
    requires Inv(c, s) && s.owner.ShiftCopy? && ShiftThrows(c, s) && s.owner.k.ThenPush? && s.base == 0
    ensures var (s', ev) := OwnerStep(c, s, call); Refines(c, s, ev, s')
  {
    var (s', ev) := OwnerStep(c, s, call);
    NoneBusy(s);
    OwnerConcludes(c, s, s', ev);
  }

  /** The entries are moved, but the bounds are not yet. */
  lemma ShiftMoveRefines<E>(c: Config, s: State<E>, call: OwnerCall<E>)
    requires Inv(c, s) && s.owner.ShiftCopy? && !ShiftThrows(c, s)
    requires 0 <= s.base <= s.top <= c.n && AfterShift(c, s.top + s.owner.offset, s.owner.k)
    ensures var (s', ev) := OwnerStep(c, s, call); Refines(c, s, ev, s')
  {
    var (s', ev) := OwnerStep(c, s, call);
    NoneBusy(s);
    OwnerConcludes(c, s, s', ev);
  }

  lemma ShiftStoreRefines<E>(c: Config, s: State<E>, call: OwnerCall<E>)
    requires Inv(c, s) && (s.owner.ShiftTop? || s.owner.ShiftBase?)
    ensures var (s', ev) := OwnerStep(c, s, call); Refines(c, s, ev, s')
  {
    var (s', ev) := OwnerStep(c, s, call);
    NoneBusy(s);
    OwnerConcludes(c, s, s', ev);
  }

  lemma UnlockRefines<E>(c: Config, s: State<E>, call: OwnerCall<E>)
    requires Inv(c, s) && (s.owner.ShiftUnlock? || s.owner.PopUnlock? || s.owner.VisitUnlock?)
    ensures var (s', ev) := OwnerStep(c, s, call); Refines(c, s, ev, s')
  {
    var (s', ev) := OwnerStep(c, s, call);
    NoneBusy(s);
    OwnerConcludes(c, s, s', ev);
  }

  lemma PopLookRefines<E>(c: Config, s: State<E>, call: OwnerCall<E>)
    requires Inv(c, s) && (s.owner.PopBase? || s.owner.PopTop?)
    ensures var (s', ev) := OwnerStep(c, s, call); Refines(c, s, ev, s')
  {
    OvershootBound(s.agents);
    hide InFlight, Overshoot, Busy, AgentOk;
    var (s', ev) := OwnerStep(c, s, call);
    OwnerConcludes(c, s, s', ev);
  }

  lemma PopGateRefines<E>(c: Config, s: State<E>, call: OwnerCall<E>)
    requires Inv(c, s) && s.owner.PopGate?
    ensures var (s', ev) := OwnerStep(c, s, call); Refines(c, s, ev, s')
  {
    OvershootBound(s.agents);
    hide InFlight, Overshoot, Busy, AgentOk;
    var (s', ev) := OwnerStep(c, s, call);
    OwnerConcludes(c, s, s', ev);
  }

  lemma PopLowerRefines<E>(c: Config, s: State<E>, call: OwnerCall<E>)
    requires Inv(c, s) && (s.owner.PopLoad? || s.owner.PopStore?)
    ensures var (s', ev) := OwnerStep(c, s, call); Refines(c, s, ev, s')
  {
    OvershootBound(s.agents);
    hide InFlight, Overshoot, Busy, AgentOk;
    var (s', ev) := OwnerStep(c, s, call);
    OwnerConcludes(c, s, s', ev);
  }

  lemma PopCompareRefines<E>(c: Config, s: State<E>, call: OwnerCall<E>)
    requires Inv(c, s) && s.owner.PopCompare?
    ensures var (s', ev) := OwnerStep(c, s, call); Refines(c, s, ev, s')
  {
    OvershootBound(s.agents);
    hide InFlight, Overshoot, Busy, AgentOk;
    var (s', ev) := OwnerStep(c, s, call);
    OwnerConcludes(c, s, s', ev);
  }

  lemma PopTakeRefines<E>(c: Config, s: State<E>, call: OwnerCall<E>)
    requires Inv(c, s) && s.owner.PopTake?
    ensures var (s', ev) := OwnerStep(c, s, call); Refines(c, s, ev, s')
  {
    var (s', ev) := OwnerStep(c, s, call);
    SliceBack(s.entries, Lo(s), s.top);
    assert Content(s) == Content(s') + [ev.e];
    OwnerConcludes(c, s, s', ev);
  }

  lemma SliceBack<E>(s: seq<E>, lo: int, hi: int)
    requires 0 <= lo <= hi < |s|
    ensures s[lo..hi + 1] == s[lo..hi] + [s[hi]]
  {
  }

  lemma PopRestoreRefines<E>(c: Config, s: State<E>, call: OwnerCall<E>)
    requires Inv(c, s) && s.owner.PopRestore?
    ensures var (s', ev) := OwnerStep(c, s, call); Refines(c, s, ev, s')
  {
    OvershootBound(s.agents);
    hide InFlight, Overshoot, Busy, AgentOk;
    var (s', ev) := OwnerStep(c, s, call);
    OwnerConcludes(c, s, s', ev);
  }

  lemma PopDecideRefines<E>(c: Config, s: State<E>, call: OwnerCall<E>)
    requires Inv(c, s) && (s.owner.PopLower? || s.owner.PopDecide?)
    ensures var (s', ev) := OwnerStep(c, s, call); Refines(c, s, ev, s')
  {
    var (s', ev) := OwnerStep(c, s, call);
    NoneBusy(s);
    OwnerConcludes(c, s, s', ev);
  }

  lemma PopTakeLockedRefines<E>(c: Config, s: State<E>, call: OwnerCall<E>)
    requires Inv(c, s) && s.owner.PopTakeLocked?
    ensures var (s', ev) := OwnerStep(c, s, call); Refines(c, s, ev, s')
  {
    var (s', ev) := OwnerStep(c, s, call);
    NoneBusy(s);
    OwnerConcludes(c, s, s', ev);
  }

  lemma PopResetRefines<E>(c: Config, s: State<E>, call: OwnerCall<E>)
    requires Inv(c, s) && (s.owner.PopResetTop? || s.owner.PopResetBase?)
    ensures var (s', ev) := OwnerStep(c, s, call); Refines(c, s, ev, s')
  {
    var (s', ev) := OwnerStep(c, s, call);
    NoneBusy(s);
    OwnerConcludes(c, s, s', ev);
  }

  lemma VisitRefines<E>(c: Config, s: State<E>, call: OwnerCall<E>)
    requires Inv(c, s) && s.owner.VisitRead?
    ensures var (s', ev) := OwnerStep(c, s, call); Refines(c, s, ev, s')
  {
    var (s', ev) := OwnerStep(c, s, call);
    NoneBusy(s);
    OwnerConcludes(c, s, s', ev);
  }

  lemma StealFaaRefines<E>(c: Config, s: State<E>, i: nat, call: AgentCall<E>)
    requires Inv(c, s) && i < |s.agents| && s.agents[i].StealFaa?
    ensures var (s', ev) := AgentStep(c, s, i, call); Refines(c, s, ev, s')
  {
    hide InFlight, Overshoot, Busy;
    var (s', ev) := AgentStep(c, s, i, call);
    OthersAway(s, i);
    OvershootAfter(s.agents, i, s'.agents[i]);
    AgentConcludes(c, s, i, s', ev);
  }

  /** s' has one entry more than s, in front. */
  lemma FrontEntry<E>(s: State<E>, s': State<E>, e: E)
    requires s'.entries == s.entries && Hi(s') == Hi(s) && 0 <= Lo(s') == Lo(s) - 1 && Lo(s) <= Hi(s) <= |s.entries|
    requires s.entries[Lo(s')] == e
    ensures Content(s') == [e] + Content(s)
  {
    hide Lo, Hi;
  }

  lemma StealFoundBounds<E>(c: Config, s: State<E>, i: nat, call: AgentCall<E>)
    requires Inv(c, s) && i < |s.agents| && s.agents[i].StealRead? && s.agents[i].b < s.top
    ensures var (s', ev) := AgentStep(c, s, i, call);
            && ev.Stole? && s'.entries == s.entries && Hi(s') == Hi(s) && 0 <= Lo(s) == Lo(s') - 1 && Lo(s') <= Hi(s)
            && s.entries[Lo(s)] == ev.e
  {
    hide InFlight, Overshoot, Busy, OwnerOk;
    var (s', ev) := AgentStep(c, s, i, call);
    OthersAway(s, i);
    OvershootAfter(s.agents, i, s'.agents[i]);
  }

  lemma StealFoundRefines<E>(c: Config, s: State<E>, i: nat, call: AgentCall<E>)
    requires Inv(c, s) && i < |s.agents| && s.agents[i].StealRead? && s.agents[i].b < s.top
    ensures var (s', ev) := AgentStep(c, s, i, call); Refines(c, s, ev, s')
  {
    hide InFlight, Overshoot, Busy, Content;
    var (s', ev) := AgentStep(c, s, i, call);
    OthersAway(s, i);
    OvershootAfter(s.agents, i, s'.agents[i]);
    StealFoundBounds(c, s, i, call);
    FrontEntry(s', s, ev.e);
    AgentConcludes(c, s, i, s', ev);
  }

  lemma StealMissedRefines<E>(c: Config, s: State<E>, i: nat, call: AgentCall<E>)
    requires Inv(c, s) && i < |s.agents| && s.agents[i].StealRead? && s.agents[i].b >= s.top
    ensures var (s', ev) := AgentStep(c, s, i, call); Refines(c, s, ev, s')
  {
    hide InFlight, Overshoot, Busy;
    var (s', ev) := AgentStep(c, s, i, call);
    OthersAway(s, i);
    OvershootAfter(s.agents, i, s'.agents[i]);
    AgentConcludes(c, s, i, s', ev);
  }

  lemma StealGetRefines<E>(c: Config, s: State<E>, i: nat, call: AgentCall<E>)
    requires Inv(c, s) && i < |s.agents| && s.agents[i].StealGet?
    ensures var (s', ev) := AgentStep(c, s, i, call); Refines(c, s, ev, s')
  {
    hide InFlight, Overshoot, Busy;
    var (s', ev) := AgentStep(c, s, i, call);
    OthersAway(s, i);
    OvershootAfter(s.agents, i, s'.agents[i]);
    AgentConcludes(c, s, i, s', ev);
  }

  lemma StealHoldRefines<E>(c: Config, s: State<E>, i: nat, call: AgentCall<E>)
    requires Inv(c, s) && i < |s.agents| && s.agents[i].StealHold?
    ensures var (s', ev) := AgentStep(c, s, i, call); Refines(c, s, ev, s')
  {
    if call.CallAbort? { StealAbortRefines(c, s, i, call); } else { StealKeepRefines(c, s, i, call); }
  }

  lemma StealAbortBounds<E>(c: Config, s: State<E>, i: nat, call: AgentCall<E>)
    requires Inv(c, s) && i < |s.agents| && s.agents[i].StealHold? && call.CallAbort?
    ensures var (s', ev) := AgentStep(c, s, i, call);
            && ev.Aborted? && s'.entries == s.entries && Hi(s') == Hi(s) && 0 <= Lo(s') == Lo(s) - 1 && Lo(s) <= Hi(s)
            && s.entries[Lo(s')] == ev.e
  {
    hide InFlight, Overshoot, Busy, OwnerOk;
    var (s', ev) := AgentStep(c, s, i, call);
    OthersAway(s, i);
    OvershootAfter(s.agents, i, s'.agents[i]);
  }

  lemma StealAbortRefines<E>(c: Config, s: State<E>, i: nat, call: AgentCall<E>)
    requires Inv(c, s) && i < |s.agents| && s.agents[i].StealHold? && call.CallAbort?
    ensures var (s', ev) := AgentStep(c, s, i, call); Refines(c, s, ev, s')
  {
    hide InFlight, Overshoot, Busy, Content;
    var (s', ev) := AgentStep(c, s, i, call);
    OthersAway(s, i);
    OvershootAfter(s.agents, i, s'.agents[i]);
    StealAbortBounds(c, s, i, call);
    FrontEntry(s, s', ev.e);
    AgentConcludes(c, s, i, s', ev);
  }

  lemma StealKeepRefines<E>(c: Config, s: State<E>, i: nat, call: AgentCall<E>)
    requires Inv(c, s) && i < |s.agents| && s.agents[i].StealHold? && !call.CallAbort?
    ensures var (s', ev) := AgentStep(c, s, i, call); Refines(c, s, ev, s')
  {
    hide InFlight, Overshoot, Busy;
    var (s', ev) := AgentStep(c, s, i, call);
    OthersAway(s, i);
    OvershootAfter(s.agents, i, s'.agents[i]);
    AgentConcludes(c, s, i, s', ev);
  }

  lemma StealUndoRefines<E>(c: Config, s: State<E>, i: nat, call: AgentCall<E>)
    requires Inv(c, s) && i < |s.agents| && s.agents[i].StealUndo?
    ensures var (s', ev) := AgentStep(c, s, i, call); Refines(c, s, ev, s')
  {
    hide InFlight, Overshoot, Busy;
    var (s', ev) := AgentStep(c, s, i, call);
    OthersAway(s, i);
    OvershootAfter(s.agents, i, s'.agents[i]);
    AgentConcludes(c, s, i, s', ev);
  }

  lemma PassReadRefines<E>(c: Config, s: State<E>, i: nat, call: AgentCall<E>)
    requires Inv(c, s) && i < |s.agents| && s.agents[i].PassRead?
    ensures var (s', ev) := AgentStep(c, s, i, call); Refines(c, s, ev, s')
  {
    hide InFlight, Overshoot, Busy;
    var (s', ev) := AgentStep(c, s, i, call);
    OthersAway(s, i);
    OvershootAfter(s.agents, i, s'.agents[i]);
    AgentConcludes(c, s, i, s', ev);
  }

  lemma PassPutRefines<E>(c: Config, s: State<E>, i: nat, call: AgentCall<E>)
    requires Inv(c, s) && i < |s.agents| && s.agents[i].PassPut?
    ensures var (s', ev) := AgentStep(c, s, i, call); Refines(c, s, ev, s')
  {
    hide InFlight, Overshoot, Busy;
    var (s', ev) := AgentStep(c, s, i, call);
    OthersAway(s, i);
    OvershootAfter(s.agents, i, s'.agents[i]);
    AgentConcludes(c, s, i, s', ev);
  }

  lemma PassBaseBounds<E>(c: Config, s: State<E>, i: nat, call: AgentCall<E>)
    requires Inv(c, s) && i < |s.agents| && s.agents[i].PassBase?
    ensures var (s', ev) := AgentStep(c, s, i, call);
            && ev.Passed? && s'.entries == s.entries && Hi(s') == Hi(s) && 0 <= Lo(s') == Lo(s) - 1 && Lo(s) <= Hi(s)
            && s.entries[Lo(s')] == ev.e
  {
    hide InFlight, Overshoot, Busy, OwnerOk;
    var (s', ev) := AgentStep(c, s, i, call);
    OthersAway(s, i);
    OvershootAfter(s.agents, i, s'.agents[i]);
  }

  lemma PassBaseRefines<E>(c: Config, s: State<E>, i: nat, call: AgentCall<E>)
    requires Inv(c, s) && i < |s.agents| && s.agents[i].PassBase?
    ensures var (s', ev) := AgentStep(c, s, i, call); Refines(c, s, ev, s')
  {
    hide InFlight, Overshoot, Busy, Content;
    var (s', ev) := AgentStep(c, s, i, call);
    OthersAway(s, i);
    OvershootAfter(s.agents, i, s'.agents[i]);
    PassBaseBounds(c, s, i, call);
    FrontEntry(s, s', ev.e);
    AgentConcludes(c, s, i, s', ev);
  }

  lemma LeaveRefines<E>(c: Config, s: State<E>, i: nat, call: AgentCall<E>)
    requires Inv(c, s) && i < |s.agents| && s.agents[i].Leave?
    ensures var (s', ev) := AgentStep(c, s, i, call); Refines(c, s, ev, s')
  {
    hide InFlight, Overshoot, Busy;
    var (s', ev) := AgentStep(c, s, i, call);
    OthersAway(s, i);
    OvershootAfter(s.agents, i, s'.agents[i]);
    AgentConcludes(c, s, i, s', ev);
  }

  lemma TryLockRefines<E>(c: Config, s: State<E>, i: nat, call: AgentCall<E>)
    requires Inv(c, s) && i < |s.agents| && s.agents[i].Away?
    ensures var (s', ev) := AgentStep(c, s, i, call); Refines(c, s, ev, s')
  {
    var (s', ev) := AgentStep(c, s, i, call);
    if s.lock == 0 {
      NoneBusy(s);
      OvershootAfter(s.agents, i, s'.agents[i]);
      AgentConcludes(c, s, i, s', ev);
    }
  }

  lemma OwnerStepRefines<E>(c: Config, s: State<E>, call: OwnerCall<E>)
    requires Inv(c, s)
    ensures var (s', ev) := OwnerStep(c, s, call); Refines(c, s, ev, s')
  {
    match s.owner {
      case Idle => BeginRefines(c, s, call);
      case PushRead(_) => PushReadRefines(c, s, call);
      case PushWrite(_, _) => PushWriteRefines(c, s, call);
      case PushPublish(_, _) => PushPublishRefines(c, s, call);
      case ShiftLock(_) => EnterRefines(c, s, call);
      case PopLock(_) => EnterRefines(c, s, call);
      case VisitLock => EnterRefines(c, s, call);
      case ShiftSpin(_) => SpinRefines(c, s, call);
      case PopSpin(_) => SpinRefines(c, s, call);
      case VisitSpin => SpinRefines(c, s, call);
      case ShiftOffset(_) => ShiftOffsetRefines(c, s, call);
      case Full(_) => ShiftOffsetRefines(c, s, call);
      case ShiftCopy(_, _) => ShiftCopyRefines(c, s, call);
      case ShiftTop(_, _, _) => ShiftStoreRefines(c, s, call);
      case ShiftBase(_, _) => ShiftStoreRefines(c, s, call);
      case ShiftUnlock(_) => UnlockRefines(c, s, call);
      case PopBase(_) => PopLookRefines(c, s, call);
      case PopTop(_) => PopLookRefines(c, s, call);
      case PopGate(_) => PopGateRefines(c, s, call);
      case PopLoad => PopLowerRefines(c, s, call);
      case PopStore(_) => PopLowerRefines(c, s, call);
      case PopCompare(_) => PopCompareRefines(c, s, call);
      case PopTake(_) => PopTakeRefines(c, s, call);
      case PopRestore(_) => PopRestoreRefines(c, s, call);
      case PopLower(_) => PopDecideRefines(c, s, call);
      case PopDecide(_) => PopDecideRefines(c, s, call);
      case PopTakeLocked(_, _) => PopTakeLockedRefines(c, s, call);
      case PopResetTop => PopResetRefines(c, s, call);
      case PopResetBase => PopResetRefines(c, s, call);
      case PopUnlock => UnlockRefines(c, s, call);
      case VisitUnlock => UnlockRefines(c, s, call);
      case VisitRead => VisitRefines(c, s, call);
    }
  }

  lemma AgentStepRefines<E>(c: Config, s: State<E>, i: nat, call: AgentCall<E>)
    requires Inv(c, s) && i < |s.agents|
    ensures var (s', ev) := AgentStep(c, s, i, call); Refines(c, s, ev, s')
  {
    match s.agents[i] {
      case Away => TryLockRefines(c, s, i, call);
      case StealFaa => StealFaaRefines(c, s, i, call);
      case StealRead(b) =>
        if b < s.top { StealFoundRefines(c, s, i, call); } else { StealMissedRefines(c, s, i, call); }
      case StealGet(_) => StealGetRefines(c, s, i, call);
      case StealHold(_, _) => StealHoldRefines(c, s, i, call);
      case StealUndo(_) => StealUndoRefines(c, s, i, call);
      case PassRead(_) => PassReadRefines(c, s, i, call);
      case PassPut(_, _) => PassPutRefines(c, s, i, call);
      case PassBase(_, _) => PassBaseRefines(c, s, i, call);
      case Leave => LeaveRefines(c, s, i, call);
    }
  }

  lemma StepRefines<E(!new)>(c: Config, s: State<E>, ev: Event<E>, s': State<E>)
    requires Inv(c, s) && Step(c, s, ev, s')
    ensures Refines(c, s, ev, s')
  {
    if call :| OwnerStep(c, s, call) == (s', ev) {
      OwnerStepRefines(c, s, call);
    } else {
      var i, call :| 0 <= i < |s.agents| && AgentStep(c, s, i, call) == (s', ev);
      AgentStepRefines(c, s, i, call);
    }
  }

  /* ---------------------------------------------------------------- whole runs */

  ghost predicate IsRun<E(!new)>(c: Config, ss: seq<State<E>>, evs: seq<Event<E>>) {
    && |ss| == |evs| + 1 && Init(c, ss[0])
    && forall k :: 0 <= k < |evs| ==> Step(c, ss[k], evs[k], ss[k + 1])
  }

  /** The entries that came in by a push or a pass. */
  ghost function Added<E>(evs: seq<Event<E>>): multiset<E> {
    if evs == [] then multiset{}
    else Added(evs[..|evs| - 1]) +
         (match evs[|evs| - 1] case Pushed(e) => multiset{e} case Passed(e) => multiset{e} case _ => multiset{})
  }

  /** The entries that were delivered to the owner or to a thief that did not abort. */
  ghost function Delivered<E>(evs: seq<Event<E>>): multiset<E> {
    if evs == [] then multiset{}
    else Delivered(evs[..|evs| - 1]) +
         (match evs[|evs| - 1] case Popped(e) => multiset{e} case Kept(e) => multiset{e} case _ => multiset{})
  }

  /** Exactly-once delivery: at every moment, what came in is what was delivered, is in the queue or is in flight. */
  lemma {:induction false} ExactlyOnce<E(!new)>(c: Config, ss: seq<State<E>>, evs: seq<Event<E>>)
    requires IsRun(c, ss, evs)
    ensures Inv(c, ss[|evs|])
    ensures Added(evs) == Delivered(evs) + multiset(Content(ss[|evs|])) + multiset(InFlight(ss[|evs|]))
    decreases |evs|
  {
    var n := |evs|;
    if n == 0 {
      NoneBusy(ss[0]);
    } else {
      hide Inv, Content, InFlight, Added, Delivered;
      ExactlyOnce(c, ss[..n], evs[..n - 1]);
      assert Step(c, ss[n - 1], evs[n - 1], ss[n]);
      StepConserves(c, ss[n - 1], evs, ss[n]);
    }
  }

  lemma StepConserves<E(!new)>(c: Config, s: State<E>, evs: seq<Event<E>>, s': State<E>)
    requires Inv(c, s) && evs != [] && Step(c, s, evs[|evs| - 1], s')
    requires var was := evs[..|evs| - 1]; Added(was) == Delivered(was) + multiset(Content(s)) + multiset(InFlight(s))
    ensures Inv(c, s') && Added(evs) == Delivered(evs) + multiset(Content(s')) + multiset(InFlight(s'))
  {
    hide Step, Content, InFlight;
    StepRefines(c, s, evs[|evs| - 1], s');
    DequeStepConserves(Content(s), InFlight(s), evs, Content(s'), InFlight(s'));
  }

  lemma DequeStepConserves<E>(q: seq<E>, fly: seq<E>, evs: seq<Event<E>>, q': seq<E>, fly': seq<E>)
    requires evs != [] && DequeStep(q, fly, evs[|evs| - 1], q', fly')
    requires Added(evs[..|evs| - 1]) == Delivered(evs[..|evs| - 1]) + multiset(q) + multiset(fly)
    ensures Added(evs) == Delivered(evs) + multiset(q') + multiset(fly')
  {
  }

  /** An entry that came in once is delivered at most once, and never while it is still in the queue. */
  lemma NoDuplicate<E(!new)>(c: Config, ss: seq<State<E>>, evs: seq<Event<E>>, e: E)
    requires IsRun(c, ss, evs) && Added(evs)[e] == 1
    ensures Inv(c, ss[|evs|])
    ensures Delivered(evs)[e] + multiset(Content(ss[|evs|]))[e] + multiset(InFlight(ss[|evs|]))[e] == 1
  {
    ExactlyOnce(c, ss, evs);
  }

  /** A pop that insists on an answer comes back empty-handed only from an empty queue, and only when no thief
      still holds an entry of it, at any point of any run. */
  lemma EmptyPopIsExact<E(!new)>(c: Config, ss: seq<State<E>>, evs: seq<Event<E>>, k: nat)
    requires IsRun(c, ss, evs) && k < |evs| && evs[k] == PopNone
    ensures Inv(c, ss[k]) && Content(ss[k]) == [] && InFlight(ss[k]) == []
  {
    assert IsRun(c, ss[..k + 1], evs[..k]);
    ExactlyOnce(c, ss[..k + 1], evs[..k]);
    StepRefines(c, ss[k], evs[k], ss[k + 1]);
  }

  /** The queue is reported full only to a push, and exactly when the entries fill it from index zero. */
  lemma FullIsExact<E>(c: Config, s: State<E>, call: OwnerCall<E>)
    requires Inv(c, s)
    ensures OwnerStep(c, s, call).1 == QueueFull <==> s.owner.ShiftCopy? && s.owner.k.ThenPush? && s.base == 0 && s.top == c.n
  {
    if s.owner.ShiftCopy? { ShiftFits(c, s); }
  }

  /** At most one process holds the lock, the counter stays in 0..2, and from its announcement until it releases the lock
      the owner is overtaken by no other process. */
  lemma PriorityLock<E>(c: Config, s: State<E>, i: nat, call: AgentCall<E>)
    requires Inv(c, s) && i < |s.agents|
    ensures 0 <= s.lock <= 2
    ensures s.agents[i] != Away ==> !OwnerHolds(s.owner) && forall j :: 0 <= j < |s.agents| && j != i ==> s.agents[j] == Away
    ensures OwnerWaits(s.owner) || OwnerHolds(s.owner) ==>
              s.agents[i] == Away ==> AgentStep(c, s, i, call).0.agents[i] == Away
    ensures OwnerWaits(s.owner) && !Busy(s.agents) ==> s.lock == 1
  {
    if s.agents[i] != Away { OthersAway(s, i); }
  }

  /** No step of the machine touches an entry outside the array, however the indices overshoot. */
  lemma AccessesInRange<E>(c: Config, s: State<E>)
    requires Inv(c, s)
    ensures s.owner.PushWrite? ==> InRange(s, s.owner.t)
    ensures s.owner.PopTake? ==> InRange(s, s.owner.t)
    ensures s.owner.PopTakeLocked? ==> InRange(s, s.owner.t)
    ensures s.owner.ShiftCopy? || s.owner.VisitRead? ==> 0 <= s.base <= s.top <= |s.entries|
    ensures forall i :: 0 <= i < |s.agents| && s.agents[i].StealRead? && s.agents[i].b < s.top ==> InRange(s, s.agents[i].b)
    ensures forall i :: 0 <= i < |s.agents| && s.agents[i].StealGet? ==> InRange(s, s.agents[i].b)
    ensures forall i :: 0 <= i < |s.agents| && s.agents[i].PassPut? ==> InRange(s, s.agents[i].b - 1)
  {
    if OwnerHolds(s.owner) { NoneBusy(s); }
    forall i | 0 <= i < |s.agents| && s.agents[i].StealRead? && s.agents[i].b < s.top ensures InRange(s, s.agents[i].b) {
      OthersAway(s, i);
    }
  }
}

/** The child-first fork-join scheduler as a state machine over any number of workers and threads.

    A fork pushes the continuation of the parent and runs the child; a dying thread pops one entry and falls back
    on its parent, or, when the parent has been stolen, races with the parent's join through a fetch-and-add on the
    resume flag. Each queue is the atomic deque that module WsQueue establishes; a thief copies the stolen frame
    while it still holds the lock of the queue. Every remote access is one step.
 */
module Scheduler {
  import opened Options
  import WsQueue

  /** A continuation inside the join of thread t on its child c, as saved by a suspension. */
  datatype Frame = Frame(t: nat, c: nat)

  /** The parent's handle of a child. */
  datatype Handle<V> = Live | Serialized(v: V) | Joined

  /** Where the frame of a thread is: the auxiliary record of its only holder. */
  datatype Place = At(w: nat) | Leaving(w: nat) | InQueue(w: nat) | InFlight(w: nat) | Suspended(c: nat) | Dead

  /** A thread: its parent, the value its body returned, its thread state in remotable memory (alive until freed),
      its handle, and whether its frame is held in evacuation memory. The root has parent -1. */
  datatype Thread<V> = Thread(
    parent: int,
    result: Option<V>,
    alive: bool,
    flag: nat,
    retval: Option<V>,
    suspended: Option<Frame>,
    handle: Handle<V>,
    evacuated: bool,
    place: Place)

  datatype Pc<V> =
    | Loop
    | Copying(victim: nat)
    | Run(t: nat)
    // a thread dies
    | DiePop(t: nat, v: V)
    | DiePut(t: nat, v: V)
    | DieFaa(t: nat)
    | DieLost(t: nat)
    | DieResume(t: nat, f: Frame)
    | RootPut(t: nat, v: V)
    | RootFlag(t: nat)
    // a thread joins its child c
    | JoinCheck(t: nat, c: nat)
    | JoinPut(t: nat, c: nat)
    | JoinFaa(t: nat, c: nat)
    | JoinDrop(t: nat, c: nat)
    | JoinGet(t: nat, c: nat)
    | JoinFree(t: nat, c: nat, v: V)

  /** An entry that a thief has taken and whose frame it is copying. */
  datatype Flight = Flight(t: nat, thief: nat)

  datatype Worker<V> = Worker(pc: Pc<V>, queue: seq<nat>, fly: Option<Flight>)

  datatype State<V> = State(threads: seq<Thread<V>>, workers: seq<Worker<V>>)

  datatype Call<V> = CallFork | CallJoin(c: nat) | CallReturn(v: V) | CallSteal(victim: nat)

  datatype Event<V> =
    | Tau
    | Forked(t: nat, c: nat)
    | Fallback(t: nat, entry: nat, resumed: int)
    | Stole(t: nat)
    | Arrived(t: nat)
    | Suspends(t: nat, c: nat)
    | Resumes(t: nat, c: nat)
    | Returned(t: nat, c: nat, v: V, frees: bool)
    | RootDone

  /* ---------------------------------------------------------------- the steps */

  function Goto<V>(s: State<V>, w: nat, pc: Pc<V>): State<V>
    requires w < |s.workers|
  {
    s.(workers := s.workers[w := s.workers[w].(pc := pc)])
  }

  function SetThread<V>(s: State<V>, t: nat, th: Thread<V>): State<V>
    requires t < |s.threads|
  {
    s.(threads := s.threads[t := th])
  }

  function NewThread<V>(parent: nat, w: nat): Thread<V> {
    Thread(parent, None, true, 0, None, None, Live, false, At(w))
  }

  /** The continuation of t goes into the queue and its new child runs. */
  function Fork<V>(s: State<V>, w: nat, t: nat): State<V>
    requires w < |s.workers| && t < |s.threads|
  {
    State(s.threads[t := s.threads[t].(place := InQueue(w))] + [NewThread(t, w)],
          s.workers[w := s.workers[w].(pc := Run(|s.threads|), queue := s.workers[w].queue + [t])])
  }

  /** A join may only name a child of the caller that has not been joined yet. */
  predicate CanJoin<V>(s: State<V>, t: nat, c: nat) {
    c < |s.threads| && s.threads[c].parent == t && !s.threads[c].handle.Joined?
  }

  function BeginJoin<V>(s: State<V>, w: nat, t: nat, c: nat): (State<V>, Event<V>)
    requires w < |s.workers| && CanJoin(s, t, c)
  {
    if s.threads[c].handle.Serialized? then
      (SetThread(s, c, s.threads[c].(handle := Joined)), Returned(t, c, s.threads[c].handle.v, false))
    else (Goto(s, w, JoinCheck(t, c)), Tau)
  }

  function BeginDie<V>(s: State<V>, w: nat, t: nat, v: V): State<V>
    requires w < |s.workers| && t < |s.threads|
  {
    Goto(SetThread(s, t, s.threads[t].(result := Some(v))), w, if s.threads[t].parent < 0 then RootPut(t, v) else DiePop(t, v))
  }

  /** The pop succeeded: the child's state is freed, its value goes into the handle by value, and the caller of the
      fork, whatever entry was popped, continues on this stack. */
  function FallBack<V>(s: State<V>, w: nat, t: nat, v: V): (State<V>, Event<V>)
    requires w < |s.workers| && t < |s.threads| && s.workers[w].queue != []
  {
    var q, th := s.workers[w].queue, s.threads[t];
    var threads := s.threads[t := th.(alive := false, handle := Serialized(v), place := Dead)];
    if 0 <= th.parent < |s.threads| then
      (State(threads[th.parent := threads[th.parent].(place := At(w))],
             s.workers[w := s.workers[w].(pc := Run(th.parent), queue := q[..|q| - 1])]),
       Fallback(t, q[|q| - 1], th.parent))
    else (s, Tau)
  }

  predicate CanSteal<V>(s: State<V>, w: nat, victim: nat) {
    && victim < |s.workers| && victim != w
    && s.workers[victim].queue != [] && s.workers[victim].fly == None
    && s.workers[victim].queue[0] < |s.threads|
  }

  /** The oldest entry leaves the victim's queue; the queue stays locked. */
  function Steal<V>(s: State<V>, w: nat, victim: nat): (State<V>, Event<V>)
    requires w < |s.workers| && CanSteal(s, w, victim)
  {
    var q := s.workers[victim].queue;
    (State(s.threads[q[0] := s.threads[q[0]].(place := InFlight(victim))],
           s.workers[victim := s.workers[victim].(queue := q[1..], fly := Some(Flight(q[0], w)))]
                    [w := s.workers[w].(pc := Copying(victim))]),
     Stole(q[0]))
  }

  /** The frame has been copied: the thief unlocks the queue and resumes the continuation after the fork. */
  function Arrive<V>(s: State<V>, w: nat, victim: nat, t: nat): (State<V>, Event<V>)
    requires w < |s.workers| && victim < |s.workers| && t < |s.threads| && victim != w
  {
    (State(s.threads[t := s.threads[t].(place := At(w))],
           s.workers[victim := s.workers[victim].(fly := None)][w := s.workers[w].(pc := Run(t))]),
     Arrived(t))
  }

  function Resume<V>(s: State<V>, w: nat, t: nat, f: Frame): (State<V>, Event<V>)
    requires w < |s.workers| && t < |s.threads| && f.t < |s.threads|
  {
    var threads := s.threads[t := s.threads[t].(place := Dead)];
    (Goto(s.(threads := threads[f.t := threads[f.t].(evacuated := false, place := At(w))]), w, JoinGet(f.t, f.c)),
     Resumes(f.t, f.c))
  }

  /** The fetch-and-add of the dying child. */
  function DieRace<V>(s: State<V>, w: nat, t: nat): State<V>
    requires w < |s.workers| && t < |s.threads|
  {
    var th := s.threads[t];
    if th.flag == 0 then Goto(SetThread(s, t, th.(flag := 1, place := Dead)), w, Loop)
    else Goto(SetThread(s, t, th.(flag := th.flag + 1, place := Leaving(w))), w, DieLost(t))
  }

  /** The joiner looks at the flag once, and evacuates its frame when the child has not died. */
  function JoinLook<V>(s: State<V>, w: nat, t: nat, c: nat): State<V>
    requires w < |s.workers| && t < |s.threads| && c < |s.threads|
  {
    if s.threads[c].flag >= 1 then Goto(s, w, JoinGet(t, c))
    else Goto(SetThread(s, t, s.threads[t].(evacuated := true)), w, JoinPut(t, c))
  }

  /** The fetch-and-add of the joining parent. */
  function JoinRace<V>(s: State<V>, w: nat, t: nat, c: nat): (State<V>, Event<V>)
    requires w < |s.workers| && t < |s.threads| && c < |s.threads| && t != c
  {
    var th := s.threads[c];
    var threads := s.threads[c := th.(flag := th.flag + 1)];
    if th.flag == 0 then
      (Goto(s.(threads := threads[t := threads[t].(place := Suspended(c))]), w, Loop), Suspends(t, c))
    else (Goto(s.(threads := threads), w, JoinDrop(t, c)), Tau)
  }

  /** The step of worker w. The call is what the user code of a running thread, or the random choice of a victim, asks for.
      Names outside the tables, which no reachable state contains, stutter. */
  function Step<V>(s: State<V>, w: nat, call: Call<V>): (State<V>, Event<V>)
    requires w < |s.workers|
  {
    var n := |s.threads|;
    match s.workers[w].pc
    case Loop =>
      if call.CallSteal? && CanSteal(s, w, call.victim) then Steal(s, w, call.victim) else (s, Tau)
    case Copying(victim) =>
      if victim < |s.workers| && victim != w && s.workers[victim].fly.Some? && s.workers[victim].fly.value.t < n
      then Arrive(s, w, victim, s.workers[victim].fly.value.t) else (s, Tau)
    case Run(t) =>
      if t >= n then (s, Tau)
      else (match call
            case CallFork => (Fork(s, w, t), Forked(t, n))
            case CallJoin(c) => if CanJoin(s, t, c) then BeginJoin(s, w, t, c) else (s, Tau)
            case CallReturn(v) => (BeginDie(s, w, t, v), Tau)
            case CallSteal(_) => (s, Tau))
    case DiePop(t, v) =>
      // an empty answer needs the lock, which a copying thief holds
      if t >= n then (s, Tau)
      else if s.workers[w].queue != [] then FallBack(s, w, t, v)
      else if s.workers[w].fly.Some? then (s, Tau)
      else (Goto(s, w, DiePut(t, v)), Tau)
    case DiePut(t, v) =>
      if t < n then (Goto(SetThread(s, t, s.threads[t].(retval := Some(v))), w, DieFaa(t)), Tau) else (s, Tau)
    case DieFaa(t) => if t < n then (DieRace(s, w, t), Tau) else (s, Tau)
    case DieLost(t) =>
      if t < n && s.threads[t].suspended.Some? then (Goto(s, w, DieResume(t, s.threads[t].suspended.value)), Tau)
      else (s, Tau)
    case DieResume(t, f) => if t < n && f.t < n then Resume(s, w, t, f) else (s, Tau)
    case RootPut(t, v) =>
      if t < n then (Goto(SetThread(s, t, s.threads[t].(retval := Some(v))), w, RootFlag(t)), Tau) else (s, Tau)
    case RootFlag(t) =>
      if t < n then (Goto(SetThread(s, t, s.threads[t].(flag := 1, place := Dead)), w, Loop), RootDone) else (s, Tau)
    case JoinCheck(t, c) =>
      if t < n && c < n then (JoinLook(s, w, t, c), Tau) else (s, Tau)
    case JoinPut(t, c) =>
      if c < n then (Goto(SetThread(s, c, s.threads[c].(suspended := Some(Frame(t, c)))), w, JoinFaa(t, c)), Tau)
      else (s, Tau)
    case JoinFaa(t, c) => if t < n && c < n && t != c then JoinRace(s, w, t, c) else (s, Tau)
    case JoinDrop(t, c) =>
      if t < n then (Goto(SetThread(s, t, s.threads[t].(evacuated := false)), w, JoinGet(t, c)), Tau) else (s, Tau)
    case JoinGet(t, c) =>
      if c < n && s.threads[c].retval.Some? then (Goto(s, w, JoinFree(t, c, s.threads[c].retval.value)), Tau)
      else (s, Tau)
    case JoinFree(t, c, v) =>
      if c < n then
        (Goto(SetThread(s, c, s.threads[c].(alive := false, handle := Joined)), w, Run(t)), Returned(t, c, v, true))
      else (s, Tau)
  }

  /** One worker starts with the root thread, all others in the scheduling loop. */
  predicate Init<V(==)>(s: State<V>) {
    && |s.workers| >= 1
    && s.threads == [Thread(-1, None, true, 0, None, None, Live, false, At(0))]
    && s.workers[0] == Worker(Run(0), [], None)
    && forall w :: 1 <= w < |s.workers| ==> s.workers[w] == Worker(Loop, [], None)
  }

  /* ---------------------------------------------------------------- the invariant */

  /** The thread that a worker executes. */
  function Active<V>(pc: Pc<V>): Option<nat> {
    if pc.Loop? || pc.Copying? then None else Some(pc.t)
  }

  /** The frames on a worker's stack that are still to be continued, oldest first: the one a thief is copying, the
      queue, and the running thread. */
  function Line<V>(wk: Worker<V>): seq<nat> {
    (if wk.fly.Some? then [wk.fly.value.t] else []) + wk.queue + (if Active(wk.pc).Some? then [Active(wk.pc).value] else [])
  }

  ghost predicate IsLiveChild<V>(threads: seq<Thread<V>>, c: int, t: int) {
    0 <= c < |threads| && threads[c].parent == t && threads[c].handle.Live?
  }

  /** Each frame is the parent of the next, and above the oldest no other child waits to be joined. */
  ghost predicate LineOk<V>(threads: seq<Thread<V>>, line: seq<nat>) {
    && (forall i :: 0 <= i < |line| ==> line[i] < |threads|)
    && (forall i, j {:trigger line[i], line[j]} :: 0 <= i < |line| && j == i + 1 < |line| ==> threads[line[j]].parent == line[i])
    && (forall i, c {:trigger IsLiveChild(threads, c, line[i])} ::
          1 <= i < |line| && IsLiveChild(threads, c, line[i]) ==> i + 1 < |line| && line[i + 1] == c)
  }

  ghost predicate PcOk<V>(threads: seq<Thread<V>>, pc: Pc<V>) {
    match pc
    case Loop => true
    case Copying(_) => true
    case Run(t) => true
    case DiePop(t, v) => 0 < t < |threads| && threads[t].result == Some(v)
    case DiePut(t, v) => 0 < t < |threads| && threads[t].result == Some(v)
    case DieFaa(t) => 0 < t < |threads| && threads[t].result.Some? && threads[t].retval == threads[t].result
    case DieLost(t) => 0 < t < |threads|
    case DieResume(t, f) => 0 < t < |threads| && f.t == threads[t].parent && f.c == t
    case RootPut(t, v) => t == 0 < |threads| && threads[t].result == Some(v)
    case RootFlag(t) => t == 0 < |threads| && threads[t].result.Some? && threads[t].retval == threads[t].result
    case JoinCheck(t, c) => IsLiveChild(threads, c, t)
    case JoinPut(t, c) => IsLiveChild(threads, c, t)
    case JoinFaa(t, c) => IsLiveChild(threads, c, t) && threads[c].suspended == Some(Frame(t, c))
    case JoinDrop(t, c) => IsLiveChild(threads, c, t) && threads[c].place == Dead
    case JoinGet(t, c) => IsLiveChild(threads, c, t) && threads[c].place == Dead
    case JoinFree(t, c, v) => IsLiveChild(threads, c, t) && threads[c].place == Dead && threads[c].result == Some(v)
  }

  /** The pop of the dying thread has come back empty. */
  ghost predicate Popped<V>(pc: Pc<V>) {
    pc.DiePut? || pc.DieFaa? || pc.DieLost? || pc.DieResume?
  }

  ghost predicate Gone<V>(pc: Pc<V>) {
    pc.DieLost? || pc.DieResume?
  }

  ghost predicate Dying<V>(pc: Pc<V>) {
    pc.DiePop? || Popped(pc) || pc.RootPut? || pc.RootFlag?
  }

  ghost predicate Evacuating<V>(pc: Pc<V>) {
    pc.JoinPut? || pc.JoinFaa? || pc.JoinDrop?
  }

  ghost predicate WorkerOk<V>(s: State<V>, w: nat)
    requires w < |s.workers|
  {
    var wk := s.workers[w];
    && PcOk(s.threads, wk.pc)
    && LineOk(s.threads, Line(wk))
    && (Active(wk.pc).None? || Popped(wk.pc) ==> wk.queue == [] && wk.fly == None)
    && (Active(wk.pc).Some? ==> wk.pc.t < |s.threads| && s.threads[wk.pc.t].place == if Gone(wk.pc) then Leaving(w) else At(w))
    && (forall i :: 0 <= i < |wk.queue| ==> wk.queue[i] < |s.threads| && s.threads[wk.queue[i]].place == InQueue(w))
    && (wk.fly.Some? ==>
          && wk.fly.value.t < |s.threads| && s.threads[wk.fly.value.t].place == InFlight(w)
          && wk.fly.value.thief < |s.workers| && s.workers[wk.fly.value.thief].pc == Copying(w))
    && (wk.pc.Copying? ==>
          && wk.pc.victim < |s.workers| && wk.pc.victim != w
          && s.workers[wk.pc.victim].fly.Some? && s.workers[wk.pc.victim].fly.value.thief == w)
  }

  /** The holder of thread t has it. */
  ghost predicate PlaceOk<V>(s: State<V>, t: nat)
    requires t < |s.threads|
  {
    var th := s.threads[t];
    match th.place
    case At(w) =>
      w < |s.workers| && Active(s.workers[w].pc) == Some(t) && !Gone(s.workers[w].pc) &&
      th.evacuated == Evacuating(s.workers[w].pc) && th.result.Some? == Dying(s.workers[w].pc)
    case Leaving(w) => w < |s.workers| && Active(s.workers[w].pc) == Some(t) && Gone(s.workers[w].pc) && !th.evacuated
    case InQueue(w) => w < |s.workers| && t in s.workers[w].queue && !th.evacuated && th.result.None?
    case InFlight(w) => w < |s.workers| && s.workers[w].fly.Some? && s.workers[w].fly.value.t == t && !th.evacuated && th.result.None?
    case Suspended(c) =>
      IsLiveChild(s.threads, c, t) && s.threads[c].place != Dead && s.threads[c].suspended == Some(Frame(t, c)) &&
      th.evacuated && th.result.None?
    case Dead => !th.evacuated
  }

  /** The join protocol of thread c with its parent. */
  ghost predicate ThreadOk<V>(threads: seq<Thread<V>>, c: nat)
    requires c < |threads|
  {
    var th := threads[c];
    && (if c == 0 then th.parent == -1 && th.handle.Live? else 0 <= th.parent < c)
    && (c == 0 ==> (if th.place == Dead then th.flag == 1 && th.result.Some? && th.retval == th.result else th.flag == 0))
    && th.alive == th.handle.Live?
    && (!th.handle.Live? ==> th.place == Dead)
    && (th.handle.Serialized? ==> th.result == Some(th.handle.v))
    && (c > 0 && th.handle.Live? ==>
          var waits := threads[th.parent].place == Suspended(c);
          if th.place == Dead || th.place.Leaving? then
            && th.flag >= 1 && th.result.Some? && th.retval == th.result
            && (waits <==> th.place.Leaving?)
            && (th.place.Leaving? ==> th.flag == 2)
          else th.flag == if waits then 1 else 0)
  }

  ghost predicate Inv<V>(s: State<V>) {
    && |s.threads| >= 1
    && (forall c :: 0 <= c < |s.threads| ==> ThreadOk(s.threads, c))
    && (forall t :: 0 <= t < |s.threads| ==> PlaceOk(s, t))
    && (forall w :: 0 <= w < |s.workers| ==> WorkerOk(s, w))
  }


  predicate HeldBy(place: Place, x: nat) {
    !place.Suspended? && !place.Dead? && place.w == x
  }

  /** What worker x needs of a change of one thread: if x holds it, its place and values stay; if x runs its parent,
      the child stays joinable, and dead if it was. */
  ghost predicate Harmless<V>(threads: seq<Thread<V>>, th: Thread<V>, th': Thread<V>, x: nat) {
    && th'.parent == th.parent && (th'.handle.Live? ==> th.handle.Live?)
    && (HeldBy(th.place, x) ==> th'.place == th.place && th'.result == th.result && th'.retval == th.retval)
    && (0 <= th.parent < |threads| && threads[th.parent].place == At(x) ==>
          && th'.handle.Live? == th.handle.Live? && th'.suspended == th.suspended
          && (th.place == Dead ==> th'.place == Dead && th'.result == th.result))
  }

  ghost predicate Undisturbed<V>(s: State<V>, s': State<V>, x: nat)
    requires x < |s.workers| == |s'.workers|
  {
    && s'.workers[x] == s.workers[x]
    && |s.threads| <= |s'.threads|
    && (forall i {:trigger s'.threads[i]} :: 0 <= i < |s.threads| ==> Harmless(s.threads, s.threads[i], s'.threads[i], x))
    && (forall i {:trigger s'.threads[i]} :: |s.threads| <= i < |s'.threads| ==>
          0 <= s'.threads[i].parent < |s.threads| && !HeldBy(s.threads[s'.threads[i].parent].place, x))
    && (s.workers[x].fly.Some? && s.workers[x].fly.value.thief < |s.workers| ==>
          s'.workers[s.workers[x].fly.value.thief].pc == s.workers[s.workers[x].fly.value.thief].pc)
    && (s.workers[x].pc.Copying? && s.workers[x].pc.victim < |s.workers| ==>
          s'.workers[s.workers[x].pc.victim].fly == s.workers[s.workers[x].pc.victim].fly)
  }

  lemma WorkerFrame<V>(s: State<V>, s': State<V>, x: nat)
    requires Inv(s) && x < |s.workers| == |s'.workers| && Undisturbed(s, s', x)
    ensures WorkerOk(s', x)
  {
    var wk := s.workers[x];
    assert WorkerOk(s, x);
    var line := Line(wk);
    forall i | 0 <= i < |line| ensures HeldBy(s.threads[line[i]].place, x) {
    }
    forall i, c | 1 <= i < |line| && IsLiveChild(s'.threads, c, line[i]) ensures i + 1 < |line| && line[i + 1] == c {
      assert c < |s.threads|;
      assert IsLiveChild(s.threads, c, line[i]);
    }
  }

  /** A step of worker w, which runs thread a or b, that changes no more than these two threads and w itself. */
  ghost predicate IsLocal<V>(s: State<V>, s': State<V>, w: nat, a: nat, b: nat) {
    && w < |s.workers| == |s'.workers| && a < |s.threads| == |s'.threads| && b < |s.threads|
    && Active(s.workers[w].pc) in {Some(a), Some(b)}
    && (forall x :: 0 <= x < |s.workers| && x != w ==> s'.workers[x] == s.workers[x])
    && (forall i :: 0 <= i < |s.threads| && i != a && i != b ==> s'.threads[i] == s.threads[i])
    && s'.workers[w].fly == s.workers[w].fly && !s'.workers[w].pc.Copying?
    && (forall i :: i in s.workers[w].queue && i != a && i != b ==> i in s'.workers[w].queue)
  }

  lemma LocalWorkers<V>(s: State<V>, s': State<V>, w: nat, a: nat, b: nat)
    requires Inv(s) && IsLocal(s, s', w, a, b)
    requires forall x :: 0 <= x < |s.workers| && x != w ==> Harmless(s.threads, s.threads[a], s'.threads[a], x)
    requires forall x :: 0 <= x < |s.workers| && x != w ==> Harmless(s.threads, s.threads[b], s'.threads[b], x)
    ensures forall x :: 0 <= x < |s.workers| && x != w ==> WorkerOk(s', x)
  {
    forall x | 0 <= x < |s.workers| && x != w ensures WorkerOk(s', x) {
      assert WorkerOk(s, x);
      WorkerFrame(s, s', x);
    }
  }

  /** The waiting joiner of thread d is not left behind. */
  ghost predicate KeepsWaiter<V>(s: State<V>, s': State<V>, d: nat, a: nat, b: nat)
    requires d < |s.threads| == |s'.threads|
  {
    0 <= s.threads[d].parent < |s.threads| && s.threads[d].parent != a && s.threads[d].parent != b &&
    s.threads[s.threads[d].parent].place == Suspended(d) ==>
      s'.threads[d].handle.Live? && s'.threads[d].place != Dead && s'.threads[d].suspended == s.threads[d].suspended
  }

  lemma LocalPlaces<V>(s: State<V>, s': State<V>, w: nat, a: nat, b: nat)
    requires Inv(s) && IsLocal(s, s', w, a, b)
    requires s'.threads[a].parent == s.threads[a].parent && s'.threads[b].parent == s.threads[b].parent
    requires KeepsWaiter(s, s', a, a, b) && KeepsWaiter(s, s', b, a, b)
    requires PlaceOk(s', a) && PlaceOk(s', b)
    ensures forall t :: 0 <= t < |s'.threads| ==> PlaceOk(s', t)
  {
    forall t | 0 <= t < |s'.threads| && t != a && t != b ensures PlaceOk(s', t) {
      assert PlaceOk(s, t);
    }
  }

  lemma LocalThreads<V>(s: State<V>, s': State<V>, w: nat, a: nat, b: nat)
    requires Inv(s) && IsLocal(s, s', w, a, b)
    requires ThreadOk(s'.threads, a) && ThreadOk(s'.threads, b)
    requires s'.threads[a].place == s.threads[a].place || !s'.threads[a].place.Suspended? || s'.threads[a].place.c == b
    requires s'.threads[b].place == s.threads[b].place || !s'.threads[b].place.Suspended? || s'.threads[b].place.c == a
    requires s.threads[a].place == s'.threads[a].place || !s.threads[a].place.Suspended? || s.threads[a].place.c == b
    requires s.threads[b].place == s'.threads[b].place || !s.threads[b].place.Suspended? || s.threads[b].place.c == a
    ensures forall c :: 0 <= c < |s'.threads| ==> ThreadOk(s'.threads, c)
  {
    forall c | 0 <= c < |s'.threads| && c != a && c != b ensures ThreadOk(s'.threads, c) {
      assert ThreadOk(s.threads, c);
    }
  }

  /** What is left to show for a step that changes no more than the threads a and b and their worker w. */
  lemma LocalKeeps<V>(s: State<V>, s': State<V>, w: nat, a: nat, b: nat)
    requires Inv(s) && IsLocal(s, s', w, a, b)
    requires forall x :: 0 <= x < |s.workers| && x != w ==> Harmless(s.threads, s.threads[a], s'.threads[a], x)
    requires forall x :: 0 <= x < |s.workers| && x != w ==> Harmless(s.threads, s.threads[b], s'.threads[b], x)
    requires s'.threads[a].parent == s.threads[a].parent && s'.threads[b].parent == s.threads[b].parent
    requires KeepsWaiter(s, s', a, a, b) && KeepsWaiter(s, s', b, a, b)
    requires s'.threads[a].place == s.threads[a].place || !s'.threads[a].place.Suspended? || s'.threads[a].place.c == b
    requires s'.threads[b].place == s.threads[b].place || !s'.threads[b].place.Suspended? || s'.threads[b].place.c == a
    requires s.threads[a].place == s'.threads[a].place || !s.threads[a].place.Suspended? || s.threads[a].place.c == b
    requires s.threads[b].place == s'.threads[b].place || !s.threads[b].place.Suspended? || s.threads[b].place.c == a
    requires PlaceOk(s', a) && PlaceOk(s', b)
    requires ThreadOk(s'.threads, a) && ThreadOk(s'.threads, b)
    requires WorkerOk(s', w)
    ensures Inv(s')
  {
    LocalWorkers(s, s', w, a, b);
    LocalPlaces(s, s', w, a, b);
    LocalThreads(s, s', w, a, b);
  }

  /** A thread with a child that was neither joined nor serialized runs on an otherwise empty stack. */
  lemma WaitingParentIsAlone<V>(s: State<V>, w: nat, c: nat)
    requires Inv(s) && w < |s.workers| && Active(s.workers[w].pc).Some? && IsLiveChild(s.threads, c, s.workers[w].pc.t)
    ensures s.workers[w].queue == [] && s.workers[w].fly == None
  {
    var wk := s.workers[w];
    assert WorkerOk(s, w);
    var line := Line(wk);
    assert line[|line| - 1] == wk.pc.t;
    assert IsLiveChild(s.threads, c, line[|line| - 1]);
  }

  lemma JoinRaceKeeps<V>(s: State<V>, w: nat, t: nat, c: nat)
    requires Inv(s) && w < |s.workers| && s.workers[w].pc == JoinFaa(t, c)
    ensures t < |s.threads| && c < |s.threads| && t != c && Inv(JoinRace(s, w, t, c).0)
  {
    assert WorkerOk(s, w) && PlaceOk(s, t) && PlaceOk(s, c) && ThreadOk(s.threads, c) && ThreadOk(s.threads, t);
    WaitingParentIsAlone(s, w, c);
    LocalKeeps(s, JoinRace(s, w, t, c).0, w, t, c);
  }

  lemma DieRaceKeeps<V>(s: State<V>, w: nat, t: nat)
    requires Inv(s) && w < |s.workers| && s.workers[w].pc == DieFaa(t)
    ensures t < |s.threads| && Inv(DieRace(s, w, t))
  {
    assert WorkerOk(s, w) && PlaceOk(s, t) && ThreadOk(s.threads, t);
    LocalKeeps(s, DieRace(s, w, t), w, t, t);
  }

  lemma ResumeKeeps<V>(s: State<V>, w: nat, t: nat, f: Frame)
    requires Inv(s) && w < |s.workers| && s.workers[w].pc == DieResume(t, f)
    ensures t < |s.threads| && f.t < |s.threads| && Inv(Resume(s, w, t, f).0)
  {
    assert WorkerOk(s, w) && PlaceOk(s, t) && ThreadOk(s.threads, t);
    assert PlaceOk(s, f.t) && ThreadOk(s.threads, f.t);
    LocalKeeps(s, Resume(s, w, t, f).0, w, t, f.t);
  }

  /** The entry a dying thread pops is its parent. */
  lemma PoppedIsParent<V>(s: State<V>, w: nat)
    requires Inv(s) && w < |s.workers| && s.workers[w].pc.DiePop? && s.workers[w].queue != []
    ensures s.workers[w].pc.t < |s.threads|
    ensures s.threads[s.workers[w].pc.t].parent == s.workers[w].queue[|s.workers[w].queue| - 1]
  {
    var wk := s.workers[w];
    assert WorkerOk(s, w);
    var line := Line(wk);
    assert line[|line| - 1] == wk.pc.t && line[|line| - 2] == wk.queue[|wk.queue| - 1];
  }

  /** After the youngest frame of a line is serialized, the rest is a line again. */
  lemma LineShortened<V>(threads: seq<Thread<V>>, threads': seq<Thread<V>>, line: seq<nat>)
    requires line != [] && LineOk(threads, line) && |threads'| == |threads|
    requires forall i {:trigger threads'[i]} :: 0 <= i < |threads| ==>
               threads'[i].parent == threads[i].parent && (threads'[i].handle.Live? ==> threads[i].handle.Live?)
    requires !threads'[line[|line| - 1]].handle.Live?
    ensures LineOk(threads', line[..|line| - 1])
  {
    var rest := line[..|line| - 1];
    forall i, c | 1 <= i < |rest| && IsLiveChild(threads', c, rest[i]) ensures i + 1 < |rest| && rest[i + 1] == c {
      assert IsLiveChild(threads, c, line[i]);
    }
  }

  lemma FallBackLine<V>(s: State<V>, w: nat, t: nat, p: nat, s': State<V>)
    requires Inv(s) && w < |s.workers| == |s'.workers| && s.workers[w].pc.DiePop? && s.workers[w].pc.t == t
    requires var q := s.workers[w].queue;
             q != [] && p == q[|q| - 1] && s'.workers[w] == s.workers[w].(pc := Run(p), queue := q[..|q| - 1])
    requires |s'.threads| == |s.threads| && t < |s.threads| && p < |s.threads| && !s'.threads[t].handle.Live?
    requires forall i {:trigger s'.threads[i]} :: 0 <= i < |s.threads| ==>
               s'.threads[i].parent == s.threads[i].parent && (s'.threads[i].handle.Live? ==> s.threads[i].handle.Live?)
    ensures LineOk(s'.threads, Line(s'.workers[w]))
  {
    var line := Line(s.workers[w]);
    assert WorkerOk(s, w);
    assert line[|line| - 1] == t;
    LineShortened(s.threads, s'.threads, line);
    assert Line(s'.workers[w]) == line[..|line| - 1];
  }

  lemma FallBackWorker<V>(s: State<V>, w: nat, t: nat, p: nat, s': State<V>)
    requires Inv(s) && w < |s.workers| == |s'.workers| && s.workers[w].pc.DiePop? && s.workers[w].pc.t == t
    requires var q := s.workers[w].queue;
             q != [] && p == q[|q| - 1] && s'.workers[w] == s.workers[w].(pc := Run(p), queue := q[..|q| - 1])
    requires |s'.threads| == |s.threads| && t < |s.threads| && p < |s.threads| && !s'.threads[t].handle.Live?
    requires forall i {:trigger s'.threads[i]} :: 0 <= i < |s.threads| ==>
               s'.threads[i].parent == s.threads[i].parent && (s'.threads[i].handle.Live? ==> s.threads[i].handle.Live?)
    requires forall i {:trigger s'.threads[i]} :: 0 <= i < |s.threads| && i != t && i != p ==> s'.threads[i] == s.threads[i]
    requires s'.threads[p].place == At(w)
    requires forall x :: 0 <= x < |s.workers| && x != w ==> s'.workers[x] == s.workers[x]
    ensures WorkerOk(s', w)
  {
    FallBackLine(s, w, t, p, s');
    assert WorkerOk(s, w);
    QueueAscends(s, w);
    var q, q' := s.workers[w].queue, s'.workers[w].queue;
    forall i | 0 <= i < |q'| ensures s'.threads[q'[i]] == s.threads[q[i]] {
      assert q[i] < p;
    }
  }

  lemma FallBackKeeps<V>(s: State<V>, w: nat, t: nat, v: V)
    requires Inv(s) && w < |s.workers| && s.workers[w].pc == DiePop(t, v) && s.workers[w].queue != []
    ensures t < |s.threads| && Inv(FallBack(s, w, t, v).0)
  {
    var q := s.workers[w].queue;
    var p := q[|q| - 1];
    assert WorkerOk(s, w) && PlaceOk(s, t) && ThreadOk(s.threads, t) && PlaceOk(s, p) && ThreadOk(s.threads, p);
    PoppedIsParent(s, w);
    var s' := FallBack(s, w, t, v).0;
    FallBackWorker(s, w, t, p, s');
    LocalKeeps(s, s', w, t, p);
  }

  /** Older frames have smaller numbers, so no thread occurs twice. */
  lemma LineAscends<V>(s: State<V>, w: nat)
    requires Inv(s) && w < |s.workers|
    ensures var line := Line(s.workers[w]); forall i, j :: 0 <= i < j < |line| ==> line[i] < line[j]
  {
    assert WorkerOk(s, w);
    var line := Line(s.workers[w]);
    forall i | 0 <= i < |line| - 1 ensures line[i] < line[i + 1] {
      assert ThreadOk(s.threads, line[i + 1]);
    }
    Ascends(line);
  }

  lemma QueueAscends<V>(s: State<V>, w: nat)
    requires Inv(s) && w < |s.workers|
    ensures var q := s.workers[w].queue; forall i, j :: 0 <= i < j < |q| ==> q[i] < q[j]
  {
    LineAscends(s, w);
    var line, q := Line(s.workers[w]), s.workers[w].queue;
    var off := if s.workers[w].fly.Some? then 1 else 0;
    assert forall i :: 0 <= i < |q| ==> q[i] == line[off + i];
  }

  lemma {:induction false} Ascends(q: seq<nat>)
    requires forall i {:trigger q[i]} :: 0 <= i < |q| - 1 ==> q[i] < q[i + 1]
    ensures forall i, j :: 0 <= i < j < |q| ==> q[i] < q[j]
  {
    if |q| > 1 {
      var r := q[..|q| - 1];
      forall i | 0 <= i < |r| - 1 ensures r[i] < r[i + 1] { assert q[i] < q[i + 1]; }
      Ascends(r);
      var last := |q| - 1;
      assert q[last - 1] < q[last];
      forall i, j | 0 <= i < j < |q| ensures q[i] < q[j] {
        if j < last { assert r[i] < r[j]; } else if i < last - 1 { assert r[i] < r[last - 1]; }
      }
    }
  }

  /** A step that leaves the stack of its worker as it is. */
  lemma OwnWorker<V>(s: State<V>, s': State<V>, w: nat, a: nat, b: nat)
    requires Inv(s) && IsLocal(s, s', w, a, b)
    requires var wk, wk' := s.workers[w], s'.workers[w];
             && wk'.queue == wk.queue && Active(wk'.pc) == Active(wk.pc) == Some(a) && PcOk(s'.threads, wk'.pc)
             && s'.threads[a].place == (if Gone(wk'.pc) then Leaving(w) else At(w))
             && (a != b ==> s'.threads[b].place == s.threads[b].place)
             && (Popped(wk'.pc) ==> wk.queue == [] && wk.fly == None)
    requires s'.threads[a].parent == s.threads[a].parent && s'.threads[b].parent == s.threads[b].parent
    requires s'.threads[a].handle.Live? ==> s.threads[a].handle.Live?
    requires s'.threads[b].handle.Live? ==> s.threads[b].handle.Live?
    ensures WorkerOk(s', w)
  {
    assert WorkerOk(s, w);
    var line := Line(s.workers[w]);
    assert Line(s'.workers[w]) == line;
    forall i, c | 1 <= i < |line| && IsLiveChild(s'.threads, c, line[i]) ensures i + 1 < |line| && line[i + 1] == c {
      assert IsLiveChild(s.threads, c, line[i]);
    }
  }

  lemma DiePopKeeps<V>(s: State<V>, w: nat, call: Call<V>)
    requires Inv(s) && w < |s.workers| && s.workers[w].pc.DiePop? && s.workers[w].queue == []
    ensures Inv(Step(s, w, call).0)
  {
    var t := s.workers[w].pc.t;
    assert WorkerOk(s, w) && PlaceOk(s, t) && ThreadOk(s.threads, t);
    var s' := Step(s, w, call).0;
    OwnWorker(s, s', w, t, t);
    LocalKeeps(s, s', w, t, t);
  }

  lemma DiePutKeeps<V>(s: State<V>, w: nat, t: nat, v: V)
    requires Inv(s) && w < |s.workers| && (s.workers[w].pc == DiePut(t, v) || s.workers[w].pc == RootPut(t, v))
    ensures t < |s.threads|
    ensures Inv(Goto(SetThread(s, t, s.threads[t].(retval := Some(v))), w, if s.workers[w].pc.DiePut? then DieFaa(t) else RootFlag(t)))
  {
    assert WorkerOk(s, w) && PlaceOk(s, t) && ThreadOk(s.threads, t);
    var s' := Goto(SetThread(s, t, s.threads[t].(retval := Some(v))), w, if s.workers[w].pc.DiePut? then DieFaa(t) else RootFlag(t));
    OwnWorker(s, s', w, t, t);
    LocalKeeps(s, s', w, t, t);
  }

  lemma DieLostKeeps<V>(s: State<V>, w: nat, call: Call<V>)
    requires Inv(s) && w < |s.workers| && s.workers[w].pc.DieLost?
    ensures Inv(Step(s, w, call).0)
  {
    var t := s.workers[w].pc.t;
    assert WorkerOk(s, w) && PlaceOk(s, t) && ThreadOk(s.threads, t);
    assert PlaceOk(s, s.threads[t].parent);
    var s' := Step(s, w, call).0;
    OwnWorker(s, s', w, t, t);
    LocalKeeps(s, s', w, t, t);
  }

  lemma RootFlagKeeps<V>(s: State<V>, w: nat, call: Call<V>)
    requires Inv(s) && w < |s.workers| && s.workers[w].pc.RootFlag?
    ensures Inv(Step(s, w, call).0)
  {
    var t := s.workers[w].pc.t;
    assert WorkerOk(s, w) && PlaceOk(s, t) && ThreadOk(s.threads, t);
    RootIsAlone(s, w);
    LocalKeeps(s, Step(s, w, call).0, w, t, t);
  }

  lemma RootIsAlone<V>(s: State<V>, w: nat)
    requires Inv(s) && w < |s.workers| && Active(s.workers[w].pc) == Some(0)
    ensures s.workers[w].queue == [] && s.workers[w].fly == None
  {
    LineAscends(s, w);
    var line := Line(s.workers[w]);
    assert line[|line| - 1] == 0;
    assert line[0] <= line[|line| - 1];
  }

  lemma JoinLookKeeps<V>(s: State<V>, w: nat, t: nat, c: nat)
    requires Inv(s) && w < |s.workers| && s.workers[w].pc == JoinCheck(t, c)
    ensures t < |s.threads| && c < |s.threads| && Inv(JoinLook(s, w, t, c))
  {
    assert WorkerOk(s, w) && PlaceOk(s, t) && ThreadOk(s.threads, t) && PlaceOk(s, c) && ThreadOk(s.threads, c);
    var s' := JoinLook(s, w, t, c);
    OwnWorker(s, s', w, t, c);
    LocalKeeps(s, s', w, t, c);
  }

  lemma JoinPutKeeps<V>(s: State<V>, w: nat, t: nat, c: nat)
    requires Inv(s) && w < |s.workers| && s.workers[w].pc == JoinPut(t, c)
    ensures c < |s.threads|
    ensures Inv(Goto(SetThread(s, c, s.threads[c].(suspended := Some(Frame(t, c)))), w, JoinFaa(t, c)))
  {
    assert WorkerOk(s, w) && PlaceOk(s, t) && ThreadOk(s.threads, t) && PlaceOk(s, c) && ThreadOk(s.threads, c);
    var s' := Goto(SetThread(s, c, s.threads[c].(suspended := Some(Frame(t, c)))), w, JoinFaa(t, c));
    OwnWorker(s, s', w, t, c);
    LocalKeeps(s, s', w, t, c);
  }

  lemma JoinDropKeeps<V>(s: State<V>, w: nat, t: nat, c: nat)
    requires Inv(s) && w < |s.workers| && s.workers[w].pc == JoinDrop(t, c)
    ensures t < |s.threads| && Inv(Goto(SetThread(s, t, s.threads[t].(evacuated := false)), w, JoinGet(t, c)))
  {
    assert WorkerOk(s, w) && PlaceOk(s, t) && ThreadOk(s.threads, t) && PlaceOk(s, c) && ThreadOk(s.threads, c);
    var s' := Goto(SetThread(s, t, s.threads[t].(evacuated := false)), w, JoinGet(t, c));
    OwnWorker(s, s', w, t, c);
    LocalKeeps(s, s', w, t, c);
  }

  lemma JoinGetKeeps<V>(s: State<V>, w: nat, call: Call<V>)
    requires Inv(s) && w < |s.workers| && s.workers[w].pc.JoinGet?
    ensures Inv(Step(s, w, call).0)
  {
    var t, c := s.workers[w].pc.t, s.workers[w].pc.c;
    assert WorkerOk(s, w) && PlaceOk(s, t) && ThreadOk(s.threads, t) && PlaceOk(s, c) && ThreadOk(s.threads, c);
    var s' := Step(s, w, call).0;
    OwnWorker(s, s', w, t, c);
    LocalKeeps(s, s', w, t, c);
  }

  lemma JoinFreeKeeps<V>(s: State<V>, w: nat, t: nat, c: nat, v: V)
    requires Inv(s) && w < |s.workers| && s.workers[w].pc == JoinFree(t, c, v)
    ensures c < |s.threads| && Inv(Goto(SetThread(s, c, s.threads[c].(alive := false, handle := Joined)), w, Run(t)))
  {
    assert WorkerOk(s, w) && PlaceOk(s, t) && ThreadOk(s.threads, t) && PlaceOk(s, c) && ThreadOk(s.threads, c);
    var s' := Goto(SetThread(s, c, s.threads[c].(alive := false, handle := Joined)), w, Run(t));
    OwnWorker(s, s', w, t, c);
    LocalKeeps(s, s', w, t, c);
  }

  lemma BeginJoinKeeps<V>(s: State<V>, w: nat, t: nat, c: nat)
    requires Inv(s) && w < |s.workers| && s.workers[w].pc == Run(t) && CanJoin(s, t, c)
    ensures Inv(BeginJoin(s, w, t, c).0)
  {
    assert WorkerOk(s, w) && PlaceOk(s, t) && ThreadOk(s.threads, t) && PlaceOk(s, c) && ThreadOk(s.threads, c);
    var s' := BeginJoin(s, w, t, c).0;
    if s.threads[c].handle.Serialized? {
      OwnWorker(s, s', w, t, c);
      LocalKeeps(s, s', w, t, c);
    } else {
      OwnWorker(s, s', w, t, t);
      LocalKeeps(s, s', w, t, t);
    }
  }

  lemma BeginDieKeeps<V>(s: State<V>, w: nat, t: nat, v: V)
    requires Inv(s) && w < |s.workers| && s.workers[w].pc == Run(t)
    ensures t < |s.threads| && Inv(BeginDie(s, w, t, v))
  {
    assert WorkerOk(s, w) && PlaceOk(s, t) && ThreadOk(s.threads, t);
    var s' := BeginDie(s, w, t, v);
    OwnWorker(s, s', w, t, t);
    LocalKeeps(s, s', w, t, t);
  }

  /** Moving a frame between a stack, a queue and a thief does not concern the join protocol. */
  lemma MovedThreads<V>(threads: seq<Thread<V>>, t: nat, place: Place)
    requires t < |threads| && forall c :: 0 <= c < |threads| ==> ThreadOk(threads, c)
    requires var from := threads[t].place; from.At? || from.InQueue? || from.InFlight?
    requires place.At? || place.InQueue? || place.InFlight?
    ensures var threads' := threads[t := threads[t].(place := place)];
            forall c :: 0 <= c < |threads'| ==> ThreadOk(threads', c)
  {
    var threads' := threads[t := threads[t].(place := place)];
    forall c | 0 <= c < |threads'| ensures ThreadOk(threads', c) {
      assert ThreadOk(threads, c);
    }
  }

  lemma AddedThread<V>(threads: seq<Thread<V>>, t: nat, w: nat)
    requires t < |threads| && forall c :: 0 <= c < |threads| ==> ThreadOk(threads, c)
    requires threads[t].place.InQueue?
    ensures var threads' := threads + [NewThread(t, w)];
            forall c :: 0 <= c < |threads'| ==> ThreadOk(threads', c)
  {
    var threads' := threads + [NewThread(t, w)];
    forall c | 0 <= c < |threads'| ensures ThreadOk(threads', c) {
      if c < |threads| { assert ThreadOk(threads, c); }
    }
  }

  lemma ForkLine<V>(s: State<V>, w: nat, t: nat)
    requires Inv(s) && w < |s.workers| && s.workers[w].pc == Run(t) && t < |s.threads|
    ensures var s' := Fork(s, w, t); LineOk(s'.threads, Line(s'.workers[w]))
  {
    var s' := Fork(s, w, t);
    var n := |s.threads|;
    assert WorkerOk(s, w);
    var line, line' := Line(s.workers[w]), Line(s'.workers[w]);
    assert line' == line + [n] && line[|line| - 1] == t;
    forall i, c | 1 <= i < |line'| && IsLiveChild(s'.threads, c, line'[i]) ensures i + 1 < |line'| && line'[i + 1] == c {
      if c < n {
        assert ThreadOk(s.threads, c);
        assert IsLiveChild(s.threads, c, line[i]);
      } else {
        LineAscends(s, w);
      }
    }
  }

  lemma ForkPlaces<V>(s: State<V>, w: nat, t: nat)
    requires Inv(s) && w < |s.workers| && s.workers[w].pc == Run(t) && t < |s.threads|
    ensures var s' := Fork(s, w, t); forall i :: 0 <= i < |s'.threads| ==> PlaceOk(s', i)
  {
    var s' := Fork(s, w, t);
    assert s'.workers[w].queue[|s.workers[w].queue|] == t;
    assert WorkerOk(s, w) && PlaceOk(s, t);
    forall i | 0 <= i < |s'.threads| ensures PlaceOk(s', i) {
      if i < |s.threads| { assert PlaceOk(s, i); }
    }
  }

  lemma ForkOthers<V>(s: State<V>, w: nat, t: nat, x: nat)
    requires Inv(s) && w < |s.workers| && s.workers[w].pc == Run(t) && t < |s.threads| && x < |s.workers| && x != w
    ensures WorkerOk(Fork(s, w, t), x)
  {
    ForkUndisturbed(s, w, t, x);
    hide Inv, Undisturbed, WorkerOk;
    WorkerFrame(s, Fork(s, w, t), x);
  }

  lemma ForkUndisturbed<V>(s: State<V>, w: nat, t: nat, x: nat)
    requires Inv(s) && w < |s.workers| && s.workers[w].pc == Run(t) && t < |s.threads| && x < |s.workers| && x != w
    ensures |Fork(s, w, t).workers| == |s.workers| && Undisturbed(s, Fork(s, w, t), x)
  {
    assert WorkerOk(s, x) && WorkerOk(s, w);
  }

  lemma ForkWorker<V>(s: State<V>, w: nat, t: nat)
    requires Inv(s) && w < |s.workers| && s.workers[w].pc == Run(t) && t < |s.threads|
    ensures WorkerOk(Fork(s, w, t), w)
  {
    assert WorkerOk(s, w);
    ForkLine(s, w, t);
  }

  lemma ForkKeeps<V>(s: State<V>, w: nat, t: nat)
    requires Inv(s) && w < |s.workers| && s.workers[w].pc == Run(t)
    ensures t < |s.threads| && Inv(Fork(s, w, t))
  {
    assert WorkerOk(s, w);
    var s' := Fork(s, w, t);
    forall x | 0 <= x < |s.workers| ensures WorkerOk(s', x) {
      if x == w { ForkWorker(s, w, t); } else { ForkOthers(s, w, t, x); }
    }
    ForkPlaces(s, w, t);
    MovedThreads(s.threads, t, InQueue(w));
    AddedThread(s.threads[t := s.threads[t].(place := InQueue(w))], t, w);
  }

  lemma StealVictim<V>(s: State<V>, w: nat, victim: nat)
    requires Inv(s) && w < |s.workers| && s.workers[w].pc == Loop && CanSteal(s, w, victim)
    ensures WorkerOk(Steal(s, w, victim).0, victim)
  {
    var s' := Steal(s, w, victim).0;
    var q, line := s.workers[victim].queue, Line(s.workers[victim]);
    assert WorkerOk(s, victim);
    assert LineOk(s'.threads, Line(s'.workers[victim])) by {
      assert Line(s'.workers[victim]) == line;
      SameLine(s.threads, s'.threads, line);
    }
    QueueAscends(s, victim);
    forall i | 1 <= i < |q| ensures s'.threads[q[i]] == s.threads[q[i]] {
      assert q[0] < q[i];
    }
  }

  lemma StealThief<V>(s: State<V>, w: nat, victim: nat)
    requires Inv(s) && w < |s.workers| && s.workers[w].pc == Loop && CanSteal(s, w, victim)
    ensures WorkerOk(Steal(s, w, victim).0, w)
  {
    assert WorkerOk(s, w);
  }

  lemma SameLine<V>(threads: seq<Thread<V>>, threads': seq<Thread<V>>, line: seq<nat>)
    requires LineOk(threads, line) && |threads'| == |threads|
    requires forall i {:trigger threads'[i]} :: 0 <= i < |threads| ==>
               threads'[i].parent == threads[i].parent && (threads'[i].handle.Live? ==> threads[i].handle.Live?)
    ensures LineOk(threads', line)
    ensures line != [] ==> LineOk(threads', line[1..])
  {
    forall i, c | 1 <= i < |line| && IsLiveChild(threads', c, line[i]) ensures i + 1 < |line| && line[i + 1] == c {
      assert IsLiveChild(threads, c, line[i]);
    }
  }

  lemma StealOthers<V>(s: State<V>, w: nat, victim: nat, x: nat)
    requires Inv(s) && w < |s.workers| && s.workers[w].pc == Loop && CanSteal(s, w, victim)
    requires x < |s.workers| && x != w && x != victim
    ensures WorkerOk(Steal(s, w, victim).0, x)
  {
    assert WorkerOk(s, x) && WorkerOk(s, victim);
    WorkerFrame(s, Steal(s, w, victim).0, x);
  }

  lemma StealPlaces<V>(s: State<V>, w: nat, victim: nat, i: nat)
    requires Inv(s) && w < |s.workers| && s.workers[w].pc == Loop && CanSteal(s, w, victim) && i < |s.threads|
    ensures PlaceOk(Steal(s, w, victim).0, i)
  {
    var q := s.workers[victim].queue;
    assert PlaceOk(s, i) && PlaceOk(s, q[0]) && WorkerOk(s, victim);
    assert i in q && i != q[0] ==> i in q[1..];
  }

  lemma StealKeeps<V>(s: State<V>, w: nat, victim: nat)
    requires Inv(s) && w < |s.workers| && s.workers[w].pc == Loop && CanSteal(s, w, victim)
    ensures Inv(Steal(s, w, victim).0)
  {
    var t := s.workers[victim].queue[0];
    var s' := Steal(s, w, victim).0;
    assert WorkerOk(s, victim);
    forall x | 0 <= x < |s.workers| && x != w && x != victim ensures WorkerOk(s', x) {
      StealOthers(s, w, victim, x);
    }
    forall i | 0 <= i < |s'.threads| ensures PlaceOk(s', i) {
      StealPlaces(s, w, victim, i);
    }
    MovedThreads(s.threads, t, InFlight(victim));
    StealVictim(s, w, victim);
    StealThief(s, w, victim);
  }

  lemma ArriveVictim<V>(s: State<V>, w: nat, victim: nat, t: nat)
    requires Inv(s) && w < |s.workers| && s.workers[w].pc == Copying(victim) && t < |s.threads|
    requires victim < |s.workers| && victim != w && s.workers[victim].fly.Some? && s.workers[victim].fly.value.t == t
    ensures var s' := Arrive(s, w, victim, t).0; WorkerOk(s', victim)
  {
    var s' := Arrive(s, w, victim, t).0;
    assert WorkerOk(s, victim);
    var line := Line(s.workers[victim]);
    assert LineOk(s'.threads, Line(s'.workers[victim])) by {
      SameLine(s.threads, s'.threads, line);
      assert Line(s'.workers[victim]) == line[1..];
    }
  }

  lemma ArriveThief<V>(s: State<V>, w: nat, victim: nat, t: nat)
    requires Inv(s) && w < |s.workers| && s.workers[w].pc == Copying(victim) && t < |s.threads|
    requires victim < |s.workers| && victim != w && s.workers[victim].fly.Some? && s.workers[victim].fly.value.t == t
    ensures var s' := Arrive(s, w, victim, t).0; WorkerOk(s', w)
  {
    assert WorkerOk(s, w);
    assert Line(Arrive(s, w, victim, t).0.workers[w]) == [t];
  }

  lemma ArriveOthers<V>(s: State<V>, w: nat, victim: nat, t: nat, x: nat)
    requires Inv(s) && w < |s.workers| && s.workers[w].pc == Copying(victim) && t < |s.threads|
    requires victim < |s.workers| && victim != w && s.workers[victim].fly.Some? && s.workers[victim].fly.value.t == t
    requires x < |s.workers| && x != w && x != victim
    ensures WorkerOk(Arrive(s, w, victim, t).0, x)
  {
    assert WorkerOk(s, x) && WorkerOk(s, victim) && WorkerOk(s, w);
    WorkerFrame(s, Arrive(s, w, victim, t).0, x);
  }

  lemma ArrivePlaces<V>(s: State<V>, w: nat, victim: nat, t: nat, i: nat)
    requires w < |s.workers| && s.workers[w].pc == Copying(victim) && s.workers[w].queue == [] && s.workers[w].fly == None
    requires victim < |s.workers| && victim != w && s.workers[victim].fly.Some? && s.workers[victim].fly.value.t == t
    requires t < |s.threads| && s.threads[t].place == InFlight(victim) && i < |s.threads|
    requires PlaceOk(s, i) && PlaceOk(s, t)
    ensures PlaceOk(Arrive(s, w, victim, t).0, i)
  {
  }

  lemma ArriveKeeps<V>(s: State<V>, w: nat, victim: nat)
    requires Inv(s) && w < |s.workers| && s.workers[w].pc == Copying(victim)
    ensures victim < |s.workers| && victim != w && s.workers[victim].fly.Some? && s.workers[victim].fly.value.t < |s.threads|
    ensures Inv(Arrive(s, w, victim, s.workers[victim].fly.value.t).0)
  {
    assert WorkerOk(s, w) && WorkerOk(s, victim);
    var t := s.workers[victim].fly.value.t;
    var s' := Arrive(s, w, victim, t).0;
    ArriveVictim(s, w, victim, t);
    ArriveThief(s, w, victim, t);
    forall x | 0 <= x < |s.workers| && x != w && x != victim ensures WorkerOk(s', x) {
      ArriveOthers(s, w, victim, t, x);
    }
    forall i | 0 <= i < |s'.threads| ensures PlaceOk(s', i) {
      assert PlaceOk(s, t) && PlaceOk(s, i);
      ArrivePlaces(s, w, victim, t, i);
    }
    MovedThreads(s.threads, t, At(w));
  }

  /** Every step of every worker keeps the invariant. */
  lemma StepKeeps<V>(s: State<V>, w: nat, call: Call<V>)
    requires Inv(s) && w < |s.workers|
    ensures Inv(Step(s, w, call).0)
  {
    match s.workers[w].pc {
      case Loop => if call.CallSteal? && CanSteal(s, w, call.victim) { StealKeeps(s, w, call.victim); }
      case Copying(victim) => ArriveKeeps(s, w, victim);
      case Run(t) =>
        match call {
          case CallFork => ForkKeeps(s, w, t);
          case CallJoin(c) => if CanJoin(s, t, c) { BeginJoinKeeps(s, w, t, c); }
          case CallReturn(v) => BeginDieKeeps(s, w, t, v);
          case CallSteal(_) =>
        }
      case DiePop(t, v) => if s.workers[w].queue == [] { DiePopKeeps(s, w, call); } else { FallBackKeeps(s, w, t, v); }
      case DiePut(t, v) => DiePutKeeps(s, w, t, v);
      case DieFaa(t) => DieRaceKeeps(s, w, t);
      case DieLost(_) => DieLostKeeps(s, w, call);
      case DieResume(t, f) => ResumeKeeps(s, w, t, f);
      case RootPut(t, v) => DiePutKeeps(s, w, t, v);
      case RootFlag(_) => RootFlagKeeps(s, w, call);
      case JoinCheck(t, c) => JoinLookKeeps(s, w, t, c);
      case JoinPut(t, c) => JoinPutKeeps(s, w, t, c);
      case JoinFaa(t, c) => JoinRaceKeeps(s, w, t, c);
      case JoinDrop(t, c) => JoinDropKeeps(s, w, t, c);
      case JoinGet(_, _) => JoinGetKeeps(s, w, call);
      case JoinFree(t, c, v) => JoinFreeKeeps(s, w, t, c, v);
    }
  }

  /* ---------------------------------------------------------------- whole runs */

  ghost predicate Steps<V(!new)>(s: State<V>, ev: Event<V>, s': State<V>) {
    exists w, call :: 0 <= w < |s.workers| && Step(s, w, call) == (s', ev)
  }

  ghost predicate IsRun<V(!new)>(ss: seq<State<V>>, evs: seq<Event<V>>) {
    && |ss| == |evs| + 1 && Init(ss[0])
    && forall k :: 0 <= k < |evs| ==> Steps(ss[k], evs[k], ss[k + 1])
  }

  lemma InitInv<V>(s: State<V>)
    requires Init(s)
    ensures Inv(s)
  {
    assert Line(s.workers[0]) == [0];
    forall w | 0 <= w < |s.workers| ensures WorkerOk(s, w) {
    }
  }

  lemma {:induction false} RunsKeepInv<V(!new)>(ss: seq<State<V>>, evs: seq<Event<V>>)
    requires IsRun(ss, evs)
    ensures Inv(ss[|evs|])
    decreases |evs|
  {
    var n := |evs|;
    if n == 0 {
      InitInv(ss[0]);
    } else {
      RunsKeepInv(ss[..n], evs[..n - 1]);
      assert Steps(ss[n - 1], evs[n - 1], ss[n]);
      var w, call :| 0 <= w < |ss[n - 1].workers| && Step(ss[n - 1], w, call) == (ss[n], evs[n - 1]);
      StepKeeps(ss[n - 1], w, call);
    }
  }

  /** What the scheduler promises of every reachable state: the queue of a worker that runs t, after the entry being
      stolen from it, is a consecutive chain of ancestors of t that ends at its parent; a worker in the scheduling loop
      has an empty queue and nobody copies from its stack. */
  lemma QueueIsAncestorChain<V>(s: State<V>, w: nat)
    requires Inv(s) && w < |s.workers|
    ensures var wk := s.workers[w];
            var chain := (if wk.fly.Some? then [wk.fly.value.t] else []) + wk.queue;
            if Active(wk.pc).None? then chain == []
            else
              && wk.pc.t < |s.threads| && (chain != [] ==> s.threads[wk.pc.t].parent == chain[|chain| - 1])
              && forall i :: 1 <= i < |chain| ==> chain[i] < |s.threads| && s.threads[chain[i]].parent == chain[i - 1]
  {
    assert WorkerOk(s, w);
    var wk := s.workers[w];
    var chain := (if wk.fly.Some? then [wk.fly.value.t] else []) + wk.queue;
    if Active(wk.pc).Some? {
      var line := Line(wk);
      assert line == chain + [wk.pc.t];
      if chain != [] { assert s.threads[line[|line| - 1]].parent == line[|line| - 2]; }
      forall i | 1 <= i < |chain| ensures chain[i] < |s.threads| && s.threads[chain[i]].parent == chain[i - 1] {
        assert line[i] == chain[i] && line[i - 1] == chain[i - 1];
      }
    }
  }

  /** Remote memory is only read after it was written and only used before it is freed. */
  lemma ReadsAreWritten<V>(s: State<V>, w: nat)
    requires Inv(s) && w < |s.workers|
    ensures var pc := s.workers[w].pc;
            && (pc.DieLost? ==>
                  && pc.t < |s.threads| && s.threads[pc.t].suspended.Some?
                  && s.threads[pc.t].suspended.value.t == s.threads[pc.t].parent && s.threads[pc.t].suspended.value.c == pc.t)
            && (pc.DieResume? ==> pc.f.t < |s.threads| && s.threads[pc.f.t].evacuated && s.threads[pc.f.t].place == Suspended(pc.t))
            && (pc.JoinGet? ==> pc.c < |s.threads| && s.threads[pc.c].retval.Some? && s.threads[pc.c].retval == s.threads[pc.c].result)
            && (pc.DiePut? || pc.DieFaa? || pc.DieLost? || pc.DieResume? ==> pc.t < |s.threads| && s.threads[pc.t].alive)
            && (pc.JoinCheck? || pc.JoinPut? || pc.JoinFaa? || pc.JoinDrop? || pc.JoinGet? || pc.JoinFree? ==>
                  pc.c < |s.threads| && s.threads[pc.c].alive)
  {
    assert WorkerOk(s, w);
    var pc := s.workers[w].pc;
    if Active(pc).Some? {
      assert ThreadOk(s.threads, pc.t) && PlaceOk(s, pc.t);
      if 0 < pc.t { assert PlaceOk(s, s.threads[pc.t].parent); }
      if pc.JoinGet? { assert ThreadOk(s.threads, pc.c); }
      if pc.JoinCheck? || pc.JoinPut? || pc.JoinFaa? || pc.JoinDrop? || pc.JoinFree? { assert ThreadOk(s.threads, pc.c); }
    }
  }

  /** Every frame has exactly one holder: no other worker runs, queues or copies a thread that worker w runs. */
  lemma OneHolder<V>(s: State<V>, w: nat, x: nat)
    requires Inv(s) && w < |s.workers| && x < |s.workers| && w != x && Active(s.workers[w].pc).Some?
    ensures var t := s.workers[w].pc.t;
            && Active(s.workers[x].pc) != Some(t) && t !in s.workers[x].queue && t !in s.workers[w].queue
            && (s.workers[x].fly.Some? ==> s.workers[x].fly.value.t != t)
  {
    assert WorkerOk(s, w) && WorkerOk(s, x);
  }

  /** No thread is lost: once every worker is in the scheduling loop, every thread has died, and the root has left its
      value for the loop to return. */
  lemma NoLostThread<V>(s: State<V>)
    requires Inv(s) && forall w :: 0 <= w < |s.workers| ==> s.workers[w].pc == Loop
    ensures forall t :: 0 <= t < |s.threads| ==> s.threads[t].place == Dead
    ensures s.threads[0].flag == 1 && s.threads[0].retval.Some? && s.threads[0].retval == s.threads[0].result
  {
    forall t | 0 <= t < |s.threads| ensures s.threads[t].place == Dead {
      NotLost(s, t);
    }
    assert ThreadOk(s.threads, 0);
  }

  /** A living thread that nobody holds waits for a younger living one. */
  lemma {:induction false} NotLost<V>(s: State<V>, t: nat)
    requires Inv(s) && t < |s.threads| && forall w :: 0 <= w < |s.workers| ==> s.workers[w].pc == Loop
    ensures s.threads[t].place == Dead
    decreases |s.threads| - t
  {
    forall w | 0 <= w < |s.workers| ensures Active(s.workers[w].pc).None? && s.workers[w].queue == [] && s.workers[w].fly == None {
      assert WorkerOk(s, w);
    }
    assert PlaceOk(s, t);
    if s.threads[t].place.Suspended? {
      var c := s.threads[t].place.c;
      assert ThreadOk(s.threads, c);
      NotLost(s, c);
    }
  }

  /* ---------------------------------------------------------------- what happens exactly once */

  /** Whether the parent of c is suspended in the join of c, as a number. */
  ghost function Waits<V>(s: State<V>, c: nat): nat {
    if c < |s.threads| && 0 <= s.threads[c].parent < |s.threads| && s.threads[s.threads[c].parent].place == Suspended(c) then 1 else 0
  }

  ghost function FlagOf<V>(s: State<V>, c: nat): nat {
    if c < |s.threads| then s.threads[c].flag else 0
  }

  ghost function Joins<V>(s: State<V>, c: nat): nat {
    if c < |s.threads| && s.threads[c].handle.Joined? then 1 else 0
  }

  ghost function Frees<V>(s: State<V>, c: nat): nat {
    if c < |s.threads| && !s.threads[c].alive then 1 else 0
  }

  datatype Kind = Suspending | Resuming | Joining | Freeing

  ghost predicate Matches<V>(ev: Event<V>, k: Kind, c: nat) {
    match k
    case Suspending => ev.Suspends? && ev.c == c
    case Resuming => ev.Resumes? && ev.c == c
    case Joining => ev.Returned? && ev.c == c
    case Freeing => (ev.Returned? && ev.frees && ev.c == c) || (ev.Fallback? && ev.t == c)
  }

  ghost function One<V>(ev: Event<V>, k: Kind, c: nat): nat {
    if Matches(ev, k, c) then 1 else 0
  }

  ghost function Count<V>(evs: seq<Event<V>>, k: Kind, c: nat): nat {
    if evs == [] then 0 else Count(evs[..|evs| - 1], k, c) + One(evs[|evs| - 1], k, c)
  }

  /** How a step accounts for child c. */
  ghost predicate Accounts<V>(s: State<V>, ev: Event<V>, s': State<V>, c: nat) {
    && Waits(s', c) + One(ev, Resuming, c) == Waits(s, c) + One(ev, Suspending, c)
    && Joins(s', c) == Joins(s, c) + One(ev, Joining, c)
    && Frees(s', c) == Frees(s, c) + One(ev, Freeing, c)
    && FlagOf(s, c) <= FlagOf(s', c)
    && (Matches(ev, Suspending, c) ==> FlagOf(s, c) == 0 < FlagOf(s', c))
  }

  lemma JoinRaceAccounts<V>(s: State<V>, w: nat, t: nat, d: nat, c: nat)
    requires Inv(s) && w < |s.workers| && s.workers[w].pc == JoinFaa(t, d) && t < |s.threads| && d < |s.threads| && t != d
    ensures var (s', ev) := JoinRace(s, w, t, d); Accounts(s, ev, s', c)
  {
    assert WorkerOk(s, w) && ThreadOk(s.threads, d);
  }

  lemma ResumeAccounts<V>(s: State<V>, w: nat, t: nat, f: Frame, c: nat)
    requires Inv(s) && w < |s.workers| && s.workers[w].pc == DieResume(t, f) && t < |s.threads| && f.t < |s.threads|
    ensures var (s', ev) := Resume(s, w, t, f); Accounts(s, ev, s', c)
  {
    assert WorkerOk(s, w) && ThreadOk(s.threads, t) && PlaceOk(s, t);
  }

  lemma JoinAccounts<V>(s: State<V>, w: nat, call: Call<V>, c: nat)
    requires Inv(s) && w < |s.workers| && ((s.workers[w].pc.Run? && !call.CallFork?) || s.workers[w].pc.JoinFree?)
    ensures var (s', ev) := Step(s, w, call); Accounts(s, ev, s', c)
  {
    assert WorkerOk(s, w);
    if s.workers[w].pc.JoinFree? { assert ThreadOk(s.threads, s.workers[w].pc.c); }
  }

  lemma ForkAccounts<V>(s: State<V>, w: nat, t: nat, c: nat)
    requires Inv(s) && w < |s.workers| && s.workers[w].pc == Run(t) && t < |s.threads|
    ensures Accounts(s, Forked(t, |s.threads|), Fork(s, w, t), c)
  {
    assert WorkerOk(s, w);
    if c < |s.threads| { assert ThreadOk(s.threads, c); }
  }

  lemma FallBackAccounts<V>(s: State<V>, w: nat, t: nat, v: V, c: nat)
    requires Inv(s) && w < |s.workers| && s.workers[w].pc == DiePop(t, v) && s.workers[w].queue != [] && t < |s.threads|
    ensures var (s', ev) := FallBack(s, w, t, v); Accounts(s, ev, s', c)
  {
    assert WorkerOk(s, w) && ThreadOk(s.threads, t);
    PoppedIsParent(s, w);
  }

  /** Moving frames around does not concern any join. */
  lemma MoveAccounts<V>(s: State<V>, s': State<V>, t: nat, ev: Event<V>, c: nat)
    requires t < |s.threads| && !s.threads[t].place.Suspended? && (ev.Stole? || ev.Arrived?)
    requires exists p: Place :: !p.Suspended? && s'.threads == s.threads[t := s.threads[t].(place := p)]
    ensures Accounts(s, ev, s', c)
  {
  }

  lemma StealAccounts<V>(s: State<V>, w: nat, call: Call<V>, c: nat)
    requires Inv(s) && w < |s.workers| && Active(s.workers[w].pc).None?
    ensures var (s', ev) := Step(s, w, call); Accounts(s, ev, s', c)
  {
    assert WorkerOk(s, w);
    var s' := Step(s, w, call).0;
    if s.workers[w].pc.Copying? {
      var victim := s.workers[w].pc.victim;
      assert WorkerOk(s, victim);
      var t := s.workers[victim].fly.value.t;
      assert s'.threads == s.threads[t := s.threads[t].(place := At(w))];
      MoveAccounts(s, s', t, Arrived(t), c);
    } else if call.CallSteal? && CanSteal(s, w, call.victim) {
      assert WorkerOk(s, call.victim);
      var t := s.workers[call.victim].queue[0];
      assert s'.threads == s.threads[t := s.threads[t].(place := InFlight(call.victim))];
      MoveAccounts(s, s', t, Stole(t), c);
    }
  }

  lemma DieAccounts<V>(s: State<V>, w: nat, call: Call<V>, c: nat)
    requires Inv(s) && w < |s.workers| && (s.workers[w].pc.DieFaa? || s.workers[w].pc.RootFlag?)
    ensures var (s', ev) := Step(s, w, call); Accounts(s, ev, s', c)
  {
    assert WorkerOk(s, w) && ThreadOk(s.threads, s.workers[w].pc.t);
  }

  /** The remaining steps change neither places nor flags nor handles. */
  lemma QuietAccounts<V>(s: State<V>, w: nat, call: Call<V>, c: nat)
    requires Inv(s) && w < |s.workers|
    requires var pc := s.workers[w].pc;
             pc.DiePut? || pc.DieLost? || pc.RootPut? || pc.JoinCheck? || pc.JoinPut? || pc.JoinDrop? || pc.JoinGet? ||
             (pc.DiePop? && s.workers[w].queue == [])
    ensures var (s', ev) := Step(s, w, call); Accounts(s, ev, s', c)
  {
    var (s', ev) := Step(s, w, call);
    assert ev == Tau && |s'.threads| == |s.threads|;
    assert forall i :: 0 <= i < |s.threads| ==>
             var th, th' := s.threads[i], s'.threads[i];
             th'.parent == th.parent && th'.place == th.place && th'.flag == th.flag && th'.handle == th.handle && th'.alive == th.alive;
  }

  lemma StepAccounts<V>(s: State<V>, w: nat, call: Call<V>, c: nat)
    requires Inv(s) && w < |s.workers|
    ensures var (s', ev) := Step(s, w, call); Accounts(s, ev, s', c)
  {
    var pc := s.workers[w].pc;
    assert WorkerOk(s, w);
    if Active(pc).None? { StealAccounts(s, w, call, c); }
    else if pc.Run? && call.CallFork? { ForkAccounts(s, w, pc.t, c); }
    else if pc.Run? || pc.JoinFree? { JoinAccounts(s, w, call, c); }
    else if pc.JoinFaa? { JoinRaceKeeps(s, w, pc.t, pc.c); JoinRaceAccounts(s, w, pc.t, pc.c, c); }
    else if pc.DieResume? { ResumeKeeps(s, w, pc.t, pc.f); ResumeAccounts(s, w, pc.t, pc.f, c); }
    else if pc.DiePop? && s.workers[w].queue != [] { FallBackAccounts(s, w, pc.t, pc.v, c); }
    else if pc.DieFaa? || pc.RootFlag? { DieAccounts(s, w, call, c); }
    else { QuietAccounts(s, w, call, c); }
  }

  /** The join race, over whole runs: the continuation of a joiner is resumed exactly as often as it was suspended,
      at most once, and never before; a join of c returns at most once, and the state of c is freed at most once. */
  lemma {:induction false} ExactlyOnce<V(!new)>(ss: seq<State<V>>, evs: seq<Event<V>>, c: nat)
    requires IsRun(ss, evs)
    ensures Count(evs, Suspending, c) == Count(evs, Resuming, c) + Waits(ss[|evs|], c)
    ensures Count(evs, Suspending, c) <= 1
    ensures Count(evs, Suspending, c) == 1 ==> FlagOf(ss[|evs|], c) > 0
    ensures Count(evs, Joining, c) == Joins(ss[|evs|], c)
    ensures Count(evs, Freeing, c) == Frees(ss[|evs|], c)
    decreases |evs|
  {
    var n := |evs|;
    if n > 0 {
      ExactlyOnce(ss[..n], evs[..n - 1], c);
      RunsKeepInv(ss[..n], evs[..n - 1]);
      assert Steps(ss[n - 1], evs[n - 1], ss[n]);
      var w, call :| 0 <= w < |ss[n - 1].workers| && Step(ss[n - 1], w, call) == (ss[n], evs[n - 1]);
      StepAccounts(ss[n - 1], w, call, c);
    }
  }

  /** A join returns the value that the body of the child returned, to the thread that forked it. */
  lemma JoinReturnsChildValue<V>(s: State<V>, w: nat, call: Call<V>)
    requires Inv(s) && w < |s.workers| && Step(s, w, call).1.Returned?
    ensures var ev := Step(s, w, call).1;
            && ev.c < |s.threads| && s.threads[ev.c].parent == ev.t && s.threads[ev.c].place == Dead
            && s.threads[ev.c].result == Some(ev.v)
  {
    assert WorkerOk(s, w);
    var ev := Step(s, w, call).1;
    assert ThreadOk(s.threads, ev.c);
  }

  /** A thread that falls back after popping an entry continues the frame that the entry names: its parent's. */
  lemma FallbackIsParent<V>(s: State<V>, w: nat, call: Call<V>)
    requires Inv(s) && w < |s.workers| && Step(s, w, call).1.Fallback?
    ensures var ev := Step(s, w, call).1; ev.entry == ev.resumed && Step(s, w, call).0.workers[w].pc == Run(ev.entry)
  {
    assert WorkerOk(s, w);
    PoppedIsParent(s, w);
  }

  ghost predicate KeepsResult<V>(s: State<V>, s': State<V>, c: nat) {
    c < |s.threads| <= |s'.threads| && s'.threads[c].result == s.threads[c].result
  }

  lemma DyingKeepsResults<V>(s: State<V>, w: nat, call: Call<V>, c: nat)
    requires w < |s.workers| && c < |s.threads| && Dying(s.workers[w].pc)
    ensures KeepsResult(s, Step(s, w, call).0, c)
  {
  }

  lemma JoiningKeepsResults<V>(s: State<V>, w: nat, call: Call<V>, c: nat)
    requires w < |s.workers| && c < |s.threads| && !s.workers[w].pc.Run? && !Dying(s.workers[w].pc)
    ensures KeepsResult(s, Step(s, w, call).0, c)
  {
  }

  /** The value a body returned never changes. */
  lemma ResultIsFinal<V>(s: State<V>, w: nat, call: Call<V>, c: nat)
    requires Inv(s) && w < |s.workers| && c < |s.threads| && s.threads[c].result.Some?
    ensures KeepsResult(s, Step(s, w, call).0, c)
  {
    if s.workers[w].pc.Run? {
      assert WorkerOk(s, w) && PlaceOk(s, c);
    } else if Dying(s.workers[w].pc) {
      DyingKeepsResults(s, w, call, c);
    } else {
      JoiningKeepsResults(s, w, call, c);
    }
  }

  ghost function Fly<V>(wk: Worker<V>): seq<nat> {
    if wk.fly.Some? then [wk.fly.value.t] else []
  }

  /** What a step of worker w is to the queue of worker x: a fork pushes and a dying thread pops at its own queue, a
      steal takes from the victim's queue, and the end of the copy lets that entry go. A pop that finds the last entry on
      its way to a thief waits. */
  ghost function DequeEvent<V>(s: State<V>, w: nat, call: Call<V>, x: nat): WsQueue.Event<nat>
    requires w < |s.workers| && x < |s.workers|
  {
    var queue := s.workers[x].queue;
    match s.workers[w].pc
    case Loop =>
      if call.CallSteal? && CanSteal(s, w, call.victim) && x == call.victim then WsQueue.Stole(queue[0]) else WsQueue.Tau
    case Copying(victim) =>
      if x == victim && s.workers[x].fly.Some? then WsQueue.Kept(s.workers[x].fly.value.t) else WsQueue.Tau
    case Run(t) => if x == w && call.CallFork? then WsQueue.Pushed(t) else WsQueue.Tau
    case DiePop(_, _) =>
      if x != w then WsQueue.Tau
      else if queue != [] then WsQueue.Popped(queue[|queue| - 1])
      else if s.workers[x].fly.Some? then WsQueue.Tau else WsQueue.PopNone
    case _ => WsQueue.Tau
  }

  ghost predicate UsesDeque<V>(wk: Worker<V>, ev: WsQueue.Event<nat>, wk': Worker<V>) {
    WsQueue.DequeStep(wk.queue, Fly(wk), ev, wk'.queue, Fly(wk'))
  }

  lemma StealUsesDeque<V>(s: State<V>, w: nat, victim: nat, x: nat)
    requires w < |s.workers| && CanSteal(s, w, victim) && x < |s.workers|
    ensures UsesDeque(s.workers[x], if x == victim then WsQueue.Stole(s.workers[x].queue[0]) else WsQueue.Tau,
                      Steal(s, w, victim).0.workers[x])
  {
  }

  lemma ArriveUsesDeque<V>(s: State<V>, w: nat, victim: nat, t: nat, x: nat)
    requires w < |s.workers| && victim < |s.workers| && t < |s.threads| && victim != w && x < |s.workers|
    requires s.workers[victim].fly.Some? && s.workers[victim].fly.value.t == t
    ensures UsesDeque(s.workers[x], if x == victim then WsQueue.Kept(t) else WsQueue.Tau, Arrive(s, w, victim, t).0.workers[x])
  {
  }

  /** All other steps leave every queue alone. */
  lemma OthersLeaveQueues<V>(s: State<V>, w: nat, call: Call<V>, x: nat)
    requires w < |s.workers| && x < |s.workers|
    requires var pc := s.workers[w].pc;
             !pc.Loop? && !pc.Copying? && !(pc.Run? && call.CallFork?) && !(pc.DiePop? && s.workers[w].queue != [])
    ensures var wk := Step(s, w, call).0.workers[x]; wk.queue == s.workers[x].queue && wk.fly == s.workers[x].fly
  {
  }

  /** What a step does to the queue of any worker x is a step of the atomic deque that the queue implements. */
  lemma QueueUseIsDeque<V>(s: State<V>, w: nat, call: Call<V>, x: nat)
    requires Inv(s) && w < |s.workers| && x < |s.workers|
    ensures UsesDeque(s.workers[x], DequeEvent(s, w, call, x), Step(s, w, call).0.workers[x])
  {
    var pc := s.workers[w].pc;
    var wk := s.workers[x];
    assert UsesDeque(wk, WsQueue.Tau, wk);
    if pc.Loop? {
      if call.CallSteal? && CanSteal(s, w, call.victim) { StealUsesDeque(s, w, call.victim, x); }
    } else if pc.Copying? {
      assert WorkerOk(s, w) && WorkerOk(s, pc.victim);
      ArriveUsesDeque(s, w, pc.victim, s.workers[pc.victim].fly.value.t, x);
    } else if pc.Run? && call.CallFork? {
      assert WorkerOk(s, w);
    } else if pc.DiePop? {
      DiePopUsesDeque(s, w, call, x);
    } else {
      OthersLeaveQueues(s, w, call, x);
    }
  }

  lemma DiePopUsesDeque<V>(s: State<V>, w: nat, call: Call<V>, x: nat)
    requires Inv(s) && w < |s.workers| && x < |s.workers| && s.workers[w].pc.DiePop?
    ensures UsesDeque(s.workers[x], DequeEvent(s, w, call, x), Step(s, w, call).0.workers[x])
  {
    assert WorkerOk(s, w);
    if s.workers[w].queue == [] {
      OthersLeaveQueues(s, w, call, x);
      GiveUpIsEmptyPop(s, w, call);
    } else {
      PoppedIsParent(s, w);
    }
  }

  /** A dying thread gives up its parent exactly on the empty answer of the deque. */
  lemma GiveUpIsEmptyPop<V>(s: State<V>, w: nat, call: Call<V>)
    requires Inv(s) && w < |s.workers| && s.workers[w].pc.DiePop?
    ensures var wk, wk' := s.workers[w], Step(s, w, call).0.workers[w];
            wk'.pc.DiePut? <==> WsQueue.DequeStep(wk.queue, Fly(wk), WsQueue.PopNone, wk'.queue, Fly(wk'))
  {
    assert WorkerOk(s, w);
    if s.workers[w].queue != [] { PoppedIsParent(s, w); }
  }
}

/** The software cache as a state machine over any number of processes.

    Each process caches bytes of the global address space with byte-granular valid and dirty sets, writes dirty bytes
    back without blocking, and delays that write-back until another process asks for it by epoch (lazy release).
    Values are version numbers: version n of a byte is its n-th write, and latest is the version a program without
    data races must read. A process knows a version when the write happened before: by its own writes and through the
    release handlers it acquired. A put lands at any moment between its start and the flush, and takes the bytes
    that were there when it started or those that are there when it lands.
 */
module Coherence {
  import opened Arithmetic

  type Versions = nat -> nat

  datatype Mode = Read | ReadWrite | Write

  /** A checked-out range of bytes inside one block. */
  datatype Out = Out(mode: Mode, lo: nat, hi: nat) {
    predicate Has(b: nat) { Within(lo, b, hi) }
    predicate Writes(b: nat) { mode != Read && Has(b) }
  }

  /** Who must have reached which epoch; snap is what the releasing process knew. */
  datatype Handler = Handler(target: nat, required: nat, snap: Versions)

  datatype Then = Back | ToIdle | ToCheck(h: Handler)

  datatype Pc =
    | Idle
    // the loop over the dirty blocks, then the flush
    | Begin(k: nat, next: Then)
    | Complete(next: Then)
    // waiting for the release of another process
    | Check(h: Handler, asked: bool)
    | Request(h: Handler, guess: nat)
    | Refresh(h: Handler)
    | Invalidate(h: Handler)

  datatype Proc = Proc(
    valid: iset<nat>,
    dirty: iset<nat>,
    inflight: iset<nat>,        // put, not yet flushed
    unlanded: iset<nat>,        // put, not yet arrived
    writing: iset<nat>,        // blocks with a put since the last flush
    cache: Versions,
    sent: Versions,
    list: seq<nat>,            // dirty_cache_blocks_
    hasDirty: bool,
    epoch: nat,
    requested: nat,
    remote: nat -> nat,
    outs: map<nat, Out>,
    readonly: iset<nat>,
    known: Versions,
    pc: Pc)

  datatype State = State(procs: seq<Proc>, home: Versions, latest: Versions, undef: iset<nat>, handlers: seq<Handler>)

  /** Block and sub-block size, and the bytes whose home a process accesses directly. */
  datatype Config = Config(block: nat, sub: nat, local: (nat, nat) -> bool) {
    predicate Valid() { 0 < sub <= block && block % sub == 0 }
  }

  /* ---------------------------------------------------------------- sets of bytes */

  predicate Within(lo: nat, b: nat, hi: nat) {
    lo <= b < hi
  }

  ghost function Range(lo: nat, hi: nat): iset<nat> {
    iset b: nat | Within(lo, b, hi)
  }

  ghost function OfBlock(c: Config, s: iset<nat>, blk: nat): iset<nat>
    requires c.Valid()
  {
    iset b: nat | b in s && b / c.block == blk
  }

  ghost function Pad(c: Config, lo: nat, hi: nat): iset<nat>
    requires c.Valid()
  {
    Range(RoundDown(lo, c.sub), RoundUp(hi, c.sub))
  }

  /** A request that checkout_blk accepts. */
  predicate InBlock(c: Config, lo: nat, hi: nat)
    requires c.Valid()
  {
    lo < hi && hi <= RoundDown(lo, c.block) + c.block
  }

  ghost predicate Reading(p: Proc, b: nat) {
    exists id :: id in p.outs && p.outs[id].Has(b)
  }

  ghost predicate Writing(p: Proc, b: nat) {
    exists id :: id in p.outs && p.outs[id].Writes(b)
  }

  /** The process has a version of b that is not safely at home: dirty, in flight or still being written. */
  ghost predicate Owns(p: Proc, b: nat) {
    b in p.dirty || b in p.inflight || Writing(p, b)
  }

  /** The block has a positive reference count. */
  ghost predicate Referenced(c: Config, p: Proc, blk: nat)
    requires c.Valid()
  {
    exists id :: id in p.outs && p.outs[id].lo / c.block == blk
  }

  /* ---------------------------------------------------------------- one process */

  /** Fetch the part of the padded request that is not valid. */
  ghost function Fetch(c: Config, p: Proc, home: Versions, lo: nat, hi: nat): Proc
    requires c.Valid()
  {
    if Range(lo, hi) <= p.valid then p
    else
      var pad := Pad(c, lo, hi);
      p.(cache := b => if b in pad && b !in p.valid then home(b) else p.cache(b), valid := p.valid + pad)
  }

  ghost function AddDirty(c: Config, p: Proc, lo: nat, hi: nat): Proc
    requires c.Valid()
  {
    var blk := lo / c.block;
    var isNew := OfBlock(c, p.dirty, blk) == iset{};
    p.(dirty := p.dirty + Range(lo, hi),
       list := if isNew then p.list + [blk] else p.list,
       hasDirty := isNew || p.hasDirty)
  }

  /** Start the puts of one dirty block. */
  ghost function PutBlock(c: Config, p: Proc, blk: nat): Proc
    requires c.Valid()
  {
    var d := OfBlock(c, p.dirty, blk);
    p.(dirty := p.dirty - d, inflight := p.inflight + d, unlanded := p.unlanded + d, writing := p.writing + iset{blk},
       sent := b => if b in d then p.cache(b) else p.sent(b))
  }

  /** The flush: all puts have landed; the epoch advances once nothing is dirty any more. */
  ghost function Flushed(p: Proc): Proc {
    var p' := p.(inflight := iset{}, writing := iset{});
    if p.list == [] && p.hasDirty then p'.(hasDirty := false, epoch := p.epoch + 1) else p'
  }

  ghost function HandlerOf(p: Proc, me: nat, snap: Versions): Handler {
    if p.hasDirty then Handler(me, p.epoch + 1, snap) else Handler(0, 0, snap)
  }

  /* ---------------------------------------------------------------- steps */

  datatype Call =
    | Checkout(id: nat, out: Out)
    | Checkin(id: nat)
    | Evict(blk: nat)
    | StartWriteback
    | FinishWriteback
    | Release
    | ReleaseLazy
    | Acquire(k: nat)
    | Poll
    | Discard(lo: nat, hi: nat)
    | SetReadonly(lo: nat, hi: nat)
    | UnsetReadonly(lo: nat, hi: nat)

  /** No other checkout conflicts with this access, and the last write of every byte happened before it. */
  ghost predicate RaceFree(s: State, me: nat, out: Out)
    requires me < |s.procs|
  {
    forall b: nat :: out.Has(b) ==> RaceFreeByte(s, me, out.mode, b)
  }

  ghost predicate RaceFreeByte(s: State, me: nat, mode: Mode, b: nat)
    requires me < |s.procs|
  {
    && s.procs[me].known(b) == s.latest(b)
    && (mode != Write ==> b !in s.undef)
    && (forall q :: 0 <= q < |s.procs| ==>
          !Writing(s.procs[q], b) && (mode != Read ==> !Reading(s.procs[q], b) && b !in s.procs[q].readonly))
  }

  ghost function Put(s: State, me: nat, p: Proc): State
    requires me < |s.procs|
  {
    s.(procs := s.procs[me := p])
  }

  /** The bytes are made readable; a write then makes a new version, in home memory where that is local. */
  ghost function DoCheckout(c: Config, s: State, me: nat, id: nat, out: Out): State
    requires c.Valid() && me < |s.procs|
  {
    var p := s.procs[me];
    var isLocal := c.local(me, out.lo / c.block);
    var got :=
      if isLocal then p
      else if out.mode == Write then p.(valid := p.valid + Range(out.lo, out.hi))
      else Fetch(c, p, s.home, out.lo, out.hi);
    var p' := got.(outs := got.outs[id := out]);
    if out.mode == Read then Put(s, me, p')
    else
      var latest' := b => if out.Has(b) then s.latest(b) + 1 else s.latest(b);
      State(s.procs[me := p'.(known := b => if out.Has(b) then latest'(b) else p.known(b),
                              cache := b => if out.Has(b) && !isLocal then latest'(b) else got.cache(b))],
            b => if out.Has(b) && isLocal then latest'(b) else s.home(b),
            latest', s.undef - Range(out.lo, out.hi), s.handlers)
  }

  ghost function DoCheckin(c: Config, p: Proc, me: nat, id: nat): Proc
    requires c.Valid() && id in p.outs
  {
    var out := p.outs[id];
    var p' := p.(outs := p.outs - {id});
    if out.mode == Read || c.local(me, out.lo / c.block) then p' else AddDirty(c, p', out.lo, out.hi)
  }

  ghost predicate Evictable(c: Config, p: Proc, blk: nat)
    requires c.Valid()
  {
    !Referenced(c, p, blk) && OfBlock(c, p.dirty, blk) == iset{} && blk !in p.writing
  }

  /** The versions a release makes known: not those being written. */
  ghost function Released(p: Proc): Versions {
    var known := p.known;
    b => if Writing(p, b) then 0 else known(b)
  }

  ghost function Join(v: Versions, w: Versions): Versions {
    b => if v(b) < w(b) then w(b) else v(b)
  }

  /** What a free process starts or does in one step. */
  ghost function IdleStep(c: Config, s: State, me: nat, call: Call): State
    requires c.Valid() && me < |s.procs|
  {
    var p := s.procs[me];
    match call
    case Checkout(id, out) =>
      if id !in p.outs && InBlock(c, out.lo, out.hi) && RaceFree(s, me, out) then DoCheckout(c, s, me, id, out) else s
    case Checkin(id) => if id in p.outs then Put(s, me, DoCheckin(c, p, me, id)) else s
    case Evict(blk) =>
      if Evictable(c, p, blk) then Put(s, me, p.(valid := p.valid - OfBlock(c, p.valid, blk))) else s
    case StartWriteback => Put(s, me, p.(pc := Begin(0, Back)))
    case FinishWriteback => Put(s, me, p.(pc := Complete(Back)))
    case Release => Put(s, me, p.(pc := Begin(0, ToIdle)))
    case ReleaseLazy => s.(handlers := s.handlers + [HandlerOf(p, me, Released(p))])
    case Acquire(k) =>
      if k < |s.handlers| && p.outs == map[] then Put(s, me, p.(pc := Begin(0, ToCheck(s.handlers[k])))) else s
    case Poll => if p.requested > p.epoch then Put(s, me, p.(pc := Begin(0, ToIdle))) else s
    case Discard(lo, hi) =>
      if InBlock(c, lo, hi) && RaceFree(s, me, Out(Write, lo, hi)) && lo / c.block !in p.writing then
        Put(s, me, p.(dirty := p.dirty - Range(lo, hi))).(undef := s.undef + Range(lo, hi))
      else s
    case SetReadonly(lo, hi) =>
      if Fresh(s, me, lo, hi) then Put(s, me, p.(readonly := p.readonly + Range(lo, hi))) else s
    case UnsetReadonly(lo, hi) => Put(s, me, p.(readonly := p.readonly - Range(lo, hi)))
  }

  /** No stale copy of the range is valid in the cache, and after the collective release nobody has it pending. */
  ghost predicate Fresh(s: State, me: nat, lo: nat, hi: nat)
    requires me < |s.procs|
  {
    forall b: nat :: Within(lo, b, hi) ==> FreshByte(s, me, b)
  }

  ghost predicate FreshByte(s: State, me: nat, b: nat)
    requires me < |s.procs|
  {
    (b in s.procs[me].valid ==> s.procs[me].cache(b) == s.latest(b)) &&
    forall q :: 0 <= q < |s.procs| ==> !Owns(s.procs[q], b)
  }

  ghost function Proceed(p: Proc, next: Then): Proc {
    match next
    case Back => p.(pc := Idle)
    case ToIdle => p.(pc := Idle)
    case ToCheck(h) => p.(pc := Check(h, false))
  }

  /** The loop of writeback_begin: block k of the list is put, after a flush when it has puts under way. */
  ghost function BeginStep(c: Config, p: Proc, k: nat, next: Then): Proc
    requires c.Valid()
  {
    if k >= |p.list| then
      var p' := p.(list := []);
      if next.Back? then p'.(pc := Idle) else p'.(pc := Complete(next))
    else if OfBlock(c, p.dirty, p.list[k]) == iset{} then p.(pc := Begin(k + 1, next))
    else if p.list[k] in p.writing then (if p.unlanded == iset{} then Flushed(p) else p)
    else PutBlock(c, p, p.list[k]).(pc := Begin(k + 1, next))
  }

  /** The compare-and-swap of a process that asks for a release. */
  ghost function RequestStep(s: State, me: nat, h: Handler, guess: nat): State
    requires me < |s.procs|
  {
    var p := s.procs[me];
    if guess >= h.required || h.target >= |s.procs| || h.target == me then Put(s, me, p.(pc := Refresh(h)))
    else
      var t := s.procs[h.target];
      if t.requested == guess then
        Put(Put(s, h.target, t.(requested := h.required)), me, p.(pc := Refresh(h)))
      else Put(s, me, p.(pc := Request(h, t.requested)))
  }

  ghost function NeedsWait(p: Proc, me: nat, h: Handler): bool {
    h.target != me && h.required > 0 && p.remote(h.target) < h.required
  }

  /** What a busy process does next. */
  ghost function BusyStep(c: Config, s: State, me: nat): State
    requires c.Valid() && me < |s.procs|
  {
    var p := s.procs[me];
    match p.pc
    case Idle => s
    case Begin(k, next) => Put(s, me, BeginStep(c, p, k, next))
    case Complete(next) => if p.unlanded == iset{} then Put(s, me, Proceed(Flushed(p), next)) else s
    case Check(h, asked) =>
      if !NeedsWait(p, me, h) then Put(s, me, p.(pc := Invalidate(h)))
      else if !asked then Put(s, me, p.(pc := Request(h, p.remote(h.target))))
      else Put(s, me, p.(pc := Refresh(h)))
    case Request(h, guess) => RequestStep(s, me, h, guess)
    case Refresh(h) =>
      if h.target < |s.procs| then
        Put(s, me, p.(remote := q => if q == h.target then s.procs[h.target].epoch else p.remote(q), pc := Check(h, true)))
      else s
    case Invalidate(h) =>
      Put(s, me, p.(valid := p.valid * p.readonly, known := Join(p.known, h.snap), pc := Idle))
  }

  /** A put arrives at the home: the bytes as they were sent, or as they are now. */
  ghost function Land(s: State, me: nat, b: nat, now: bool): State
    requires me < |s.procs|
  {
    var p := s.procs[me];
    if b !in p.unlanded then s
    else
      Put(s, me, p.(unlanded := p.unlanded - iset{b}))
        .(home := x => if x == b then (if now then p.cache(b) else p.sent(b)) else s.home(x))
  }

  datatype Label = Does(call: Call) | Goes | Lands(b: nat, now: bool)

  ghost function Step(c: Config, s: State, me: nat, l: Label): State
    requires c.Valid() && me < |s.procs|
  {
    match l
    case Does(call) => if s.procs[me].pc == Idle then IdleStep(c, s, me, call) else s
    case Goes => BusyStep(c, s, me)
    case Lands(b, now) => Land(s, me, b, now)
  }

  ghost predicate InitialProc(p: Proc) {
    && p.valid == p.dirty == p.inflight == p.unlanded == p.writing == p.readonly == iset{}
    && p.list == [] && !p.hasDirty && p.epoch == 1 && p.requested == 1 && p.outs == map[] && p.pc == Idle
    && (forall q: nat :: p.remote(q) == 1) && (forall b: nat :: p.known(b) == 0)
  }

  ghost predicate Init(c: Config, s: State) {
    && (forall i :: 0 <= i < |s.procs| ==> InitialProc(s.procs[i]))
    && (forall b: nat :: s.latest(b) == 0 && s.home(b) == 0)
    && s.undef == iset{} && s.handlers == []
  }

  ghost predicate Next(c: Config, s: State, s': State)
    requires c.Valid()
  {
    exists me, l :: 0 <= me < |s.procs| && s' == Step(c, s, me, l)
  }

  ghost predicate IsRun(c: Config, ss: seq<State>)
    requires c.Valid()
  {
    ss != [] && Init(c, ss[0]) && forall k :: 0 <= k < |ss| - 1 ==> Next(c, ss[k], ss[k + 1])
  }

  /* ---------------------------------------------------------------- the invariant */

  ghost predicate Local(c: Config, i: nat, b: nat)
    requires c.Valid()
  {
    c.local(i, b / c.block)
  }

  /** What process i has of byte b. */
  ghost predicate CopyOk(c: Config, s: State, i: nat, b: nat)
    requires c.Valid() && i < |s.procs|
  {
    var p := s.procs[i];
    && p.known(b) <= s.latest(b)
    && (Local(c, i, b) ==> b !in p.valid && b !in p.dirty && b !in p.inflight)
    && (b in p.unlanded ==> b in p.inflight)
    && (Owns(p, b) ==>
          p.known(b) == s.latest(b) > 0 && b !in s.undef && (if Local(c, i, b) then s.home(b) == s.latest(b) else b in p.valid))
    && (b in p.valid && p.known(b) == s.latest(b) && b !in s.undef ==> p.cache(b) == s.latest(b))
    && (b in p.inflight && b !in p.dirty && !Writing(p, b) ==>
          p.sent(b) == s.latest(b) && (b !in p.unlanded ==> s.home(b) == s.latest(b)))
    && (Reading(p, b) ==> p.known(b) == s.latest(b) && b !in s.undef && (Local(c, i, b) || b in p.valid))
    && (b in p.readonly && b in p.valid && b !in s.undef ==> p.cache(b) == s.latest(b))
  }

  /** A pending version is known to its writer alone. */
  ghost predicate OwnerOk(s: State, i: nat, j: nat, b: nat)
    requires i < |s.procs| && j < |s.procs|
  {
    Owns(s.procs[i], b) ==> b !in s.procs[j].readonly && (i != j ==> s.procs[j].known(b) < s.latest(b))
  }

  ghost predicate Pending(s: State, b: nat) {
    exists i :: 0 <= i < |s.procs| && Owns(s.procs[i], b)
  }

  /** Whoever acquires the handler of a pending version has to wait for its writer. */
  ghost predicate SnapOk(s: State, h: Handler, i: nat, b: nat)
    requires i < |s.procs|
  {
    && h.snap(b) <= s.latest(b)
    && (h.snap(b) == s.latest(b) && Owns(s.procs[i], b) ==>
          h.target == i && s.procs[i].epoch < h.required && !Writing(s.procs[i], b))
  }

  ghost predicate ByteOk(c: Config, s: State, b: nat)
    requires c.Valid()
  {
    && (forall i :: 0 <= i < |s.procs| ==> CopyOk(c, s, i, b))
    && (forall i, j :: 0 <= i < |s.procs| && 0 <= j < |s.procs| ==> OwnerOk(s, i, j, b))
    && (b !in s.undef && !Pending(s, b) ==> s.home(b) == s.latest(b))
    && (forall k, i :: 0 <= k < |s.handlers| && 0 <= i < |s.procs| ==> SnapOk(s, s.handlers[k], i, b))
  }

  ghost predicate HandlerOk(procs: seq<Proc>, h: Handler) {
    && h.target < |procs| && h.required <= procs[h.target].epoch + 1
    && (h.required > procs[h.target].epoch ==> procs[h.target].hasDirty)
  }

  ghost predicate Clean(p: Proc) {
    p.dirty == iset{} && p.inflight == iset{} && p.list == [] && !p.hasDirty
  }

  ghost predicate Waiting(pc: Pc) {
    pc.Check? || pc.Request? || pc.Refresh? || pc.Invalidate?
  }

  ghost predicate NextOk(s: State, p: Proc, next: Then) {
    next.ToCheck? ==> next.h in s.handlers && p.outs == map[]
  }

  ghost predicate PcOk(c: Config, s: State, i: nat)
    requires c.Valid() && i < |s.procs|
  {
    var p := s.procs[i];
    match p.pc
    case Idle => true
    case Begin(k, next) =>
      && k <= |p.list| && (forall m :: 0 <= m < k ==> OfBlock(c, p.dirty, p.list[m]) == iset{})
      && NextOk(s, p, next)
    case Complete(next) => (!next.Back? ==> p.dirty == iset{} && p.list == []) && NextOk(s, p, next)
    case Check(h, _) => Clean(p) && p.outs == map[] && h in s.handlers
    case Request(h, _) => Clean(p) && p.outs == map[] && h in s.handlers && h.target != i
    case Refresh(h) => Clean(p) && p.outs == map[] && h in s.handlers
    case Invalidate(h) =>
      && Clean(p) && p.outs == map[] && h in s.handlers
      && (h.target == i || h.required == 0 || (h.target < |s.procs| && h.required <= s.procs[h.target].epoch))
  }

  ghost predicate ProcOk(c: Config, s: State, i: nat)
    requires c.Valid() && i < |s.procs|
  {
    var p := s.procs[i];
    && (forall b: nat :: b in p.dirty ==> b / c.block in p.list)
    && (forall b: nat :: b in p.inflight ==> b / c.block in p.writing)
    && (p.list != [] || p.inflight != iset{} ==> p.hasDirty)
    && p.requested <= p.epoch + 1 && (p.requested > p.epoch ==> p.hasDirty)
    && (forall j :: 0 <= j < |s.procs| ==> p.remote(j) <= s.procs[j].epoch)
    && (forall id :: id in p.outs ==> InBlock(c, p.outs[id].lo, p.outs[id].hi))
    && PcOk(c, s, i)
  }

  ghost predicate Inv(c: Config, s: State)
    requires c.Valid()
  {
    && (forall b: nat :: ByteOk(c, s, b))
    && (forall i :: 0 <= i < |s.procs| ==> ProcOk(c, s, i))
    && (forall k :: 0 <= k < |s.handlers| ==> HandlerOk(s.procs, s.handlers[k]))
  }

  /* ---------------------------------------------------------------- blocks and padding */

  lemma SameBlock(c: Config, lo: nat, hi: nat, b: nat)
    requires c.Valid() && InBlock(c, lo, hi) && lo <= b < hi
    ensures b / c.block == lo / c.block
  {
    var q := lo / c.block;
    assert q * c.block <= b < q * c.block + c.block;
    DivIs(b, c.block, q, b - q * c.block);
  }

  /** A block begins and ends at multiples of the sub-block size. */
  lemma BlockBounds(c: Config, q: nat) returns (k: nat, l: nat)
    requires c.Valid()
    ensures k * c.sub == q * c.block && l * c.sub == q * c.block + c.block
  {
    var n := c.block / c.sub;
    Remainder(c.block, c.sub);
    Associates(q, n, c.sub);
    Associates(q + 1, n, c.sub);
    NextTimes(q, c.block);
    k, l := q * n, (q + 1) * n;
  }

  /** So rounding to sub-blocks does not leave it. */
  lemma PadBounds(c: Config, lo: nat, hi: nat, q: nat)
    requires c.Valid() && q * c.block <= lo && hi <= q * c.block + c.block
    ensures q * c.block <= RoundDown(lo, c.sub) && RoundUp(hi, c.sub) <= q * c.block + c.block
  {
    var k, l := BlockBounds(c, q);
    RoundDownAbove(lo, c.sub, k);
    RoundUpBelow(hi, c.sub, l);
  }

  /** The padded request stays inside the block. */
  lemma PadInBlock(c: Config, lo: nat, hi: nat, b: nat)
    requires c.Valid() && InBlock(c, lo, hi) && b in Pad(c, lo, hi)
    ensures b / c.block == lo / c.block
  {
    var q := lo / c.block;
    Remainder(lo, c.block);
    PadBounds(c, lo, hi, q);
    DivIs(b, c.block, q, b - q * c.block);
  }

  /** A padded fetch covers the request. */
  lemma PadCovers(c: Config, lo: nat, hi: nat, b: nat)
    requires c.Valid() && lo <= b < hi
    ensures b in Pad(c, lo, hi)
  {
    var r := (hi + c.sub - 1) / c.sub;
    assert (r + 1) * c.sub > hi + c.sub - 1;
  }
}

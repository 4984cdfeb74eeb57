/** The binary tree by which a collective task or an exit request spreads: each process that has received the message
    passes it on in a halving loop, without knowing more than its own rank, the master and the number of ranks. */
module Broadcast {
  import opened Arithmetic

  predicate IsPow2(x: int) {
    x == 1 || (x > 1 && x % 2 == 0 && IsPow2(x / 2))
  }

  /** p is the least power of two that is not below n. */
  predicate IsNextPow2(p: int, n: int) {
    IsPow2(p) && n <= p && (p > 1 ==> p / 2 < n)
  }

  /** All bits below the highest one are set. */
  function Smeared(x0: bv64): bv64 {
    var x1 := x0 | (x0 >> 1);
    var x2 := x1 | (x1 >> 2);
    var x3 := x2 | (x2 >> 4);
    var x4 := x3 | (x3 >> 8);
    var x5 := x4 | (x4 >> 16);
    x5 | (x5 >> 32)
  }

  /** next_pow2 on 64-bit words. */
  function NextPow2(x: bv64): bv64 {
    Smeared(Previous(x)) + 1
  }

  function Previous(x: bv64): bv64 {
    x - 1
  }

  /** The number that a word stands for. */
  function Number(x: bv64): nat {
    x as nat
  }

  function Half(x: bv64): bv64 {
    x >> 1
  }

  predicate Odd(x: bv64) {
    x & 1 == 1
  }

  lemma NumberOfDouble(x: bv64)
    requires x < 0x8000_0000_0000_0000
    ensures Number(x << 1) == 2 * Number(x) && Number((x << 1) | 1) == 2 * Number(x) + 1
  {
  }

  lemma HalfWord(x: bv64)
    ensures Half(x) < 0x8000_0000_0000_0000
    ensures x == if Odd(x) then (Half(x) << 1) | 1 else Half(x) << 1
  {
  }

  lemma NumberOfHalf(x: bv64)
    ensures Number(x) == 2 * Number(Half(x)) + (if Odd(x) then 1 else 0)
  {
    hide Number, Half, Odd;
    HalfWord(x);
    NumberOfDouble(Half(x));
  }

  lemma NumberIsZero(x: bv64)
    ensures Number(x) == 0 <==> x == 0
  {
  }

  lemma SmearedHalf(x: bv64)
    requires x != 0
    ensures Half(Smeared(x)) == Smeared(Half(x)) && Odd(Smeared(x))
  {
  }

  lemma SmearedZero()
    ensures Number(Smeared(0)) == 0
  {
  }

  function Ones(n: nat): nat {
    if n == 0 then 0 else 2 * Ones(n / 2) + 1
  }

  lemma {:induction false} SmearedIsOnes(x: bv64)
    ensures Number(Smeared(x)) == Ones(Number(x))
    decreases Number(x)
  {
    hide Number, Half, Odd, Smeared;
    NumberIsZero(x);
    if x == 0 {
      SmearedZero();
    } else {
      SmearedHalf(x);
      NumberOfHalf(x);
      NumberOfHalf(Smeared(x));
      SmearedIsOnes(Half(x));
    }
  }

  lemma {:induction false} OnesBound(n: nat)
    ensures n <= Ones(n) && IsPow2(Ones(n) + 1) && (n > 0 ==> Ones(n) + 1 <= 2 * n)
  {
    if n > 0 { OnesBound(n / 2); }
  }

  lemma PreviousBits(x: bv64)
    requires x != 0
    ensures Odd(x) ==> Half(Previous(x)) == Half(x) && !Odd(Previous(x))
    ensures !Odd(x) ==> Half(x) != 0 && Half(Previous(x)) == Previous(Half(x)) && Odd(Previous(x))
  {
  }

  lemma {:induction false} NumberOfPrevious(x: bv64)
    requires x != 0
    ensures Number(Previous(x)) == Number(x) - 1
    decreases Number(x)
  {
    hide Number, Half, Odd, Previous;
    NumberIsZero(x);
    PreviousBits(x);
    NumberOfHalf(x);
    NumberOfHalf(Previous(x));
    if !Odd(x) { NumberOfPrevious(Half(x)); }
  }

  lemma NextPow2Fits(x: bv64)
    requires 0 < x <= 0x8000_0000_0000_0000
    ensures NextPow2(x) != 0 && Previous(NextPow2(x)) == Smeared(Previous(x))
  {
    hide Smeared, Previous;
    PreviousFits(x);
    SmearedFits(Previous(x));
    OneMore(Smeared(Previous(x)));
  }

  lemma PreviousFits(x: bv64)
    requires 0 < x <= 0x8000_0000_0000_0000
    ensures Previous(x) < 0x8000_0000_0000_0000
  {
  }

  lemma OneMore(x: bv64)
    requires x < 0x8000_0000_0000_0000
    ensures x + 1 != 0 && Previous(x + 1) == x
  {
  }

  lemma SmearedFits(x: bv64)
    requires x < 0x8000_0000_0000_0000
    ensures Smeared(x) < 0x8000_0000_0000_0000
  {
  }

  /** next_pow2 yields the least power of two that is not below its argument. */
  lemma NextPow2Is(x: bv64)
    requires 0 < x <= 0x8000_0000_0000_0000
    ensures IsNextPow2(Number(NextPow2(x)), Number(x))
  {
    hide Number, Previous, NextPow2, Smeared;
    NextPow2Fits(x);
    NumberOfPrevious(x);
    NumberOfPrevious(NextPow2(x));
    SmearedIsOnes(Previous(x));
    OnesBound(Number(x) - 1);
  }

  lemma WordBound(x: bv64)
    ensures Number(x) < 0x8000_0000_0000_0000 ==> x < 0x8000_0000_0000_0000
    ensures Number(x) <= 0x8000_0000_0000_0000 ==> x <= 0x8000_0000_0000_0000
    ensures Number(x) > 0 ==> x > 0
  {
  }

  /** The word of a number. */
  function Word(n: nat): (x: bv64)
    requires n < 0x1_0000_0000_0000_0000
    ensures Number(x) == n
  {
    if n == 0 then 0
    else
      var h := Word(n / 2);
      hide Number;
      WordBound(h);
      NumberOfDouble(h);
      if n % 2 == 1 then (h << 1) | 1 else h << 1
  }

  /** The power at which the loops below start. */
  function Start(n: nat): (p: nat)
    requires 0 < n <= 0x8000_0000_0000_0000
    ensures IsNextPow2(p, n)
  {
    hide Number, NextPow2;
    WordBound(Word(n));
    NextPow2Is(Word(n));
    Number(NextPow2(Word(n)))
  }

  /** The largest power of two that divides t. */
  function LowBit(t: int): (h: int)
    requires t > 0
    ensures 0 < h <= t
  {
    if t % 2 == 1 then 1 else 2 * LowBit(t / 2)
  }

  /** t is an odd multiple of its lowest bit. */
  lemma {:induction false} LowBitForm(t: int) returns (q: int)
    requires t > 0
    ensures q >= 0 && t == q * (2 * LowBit(t)) + LowBit(t) && IsPow2(LowBit(t))
  {
    if t % 2 == 1 {
      q := t / 2;
    } else {
      q := LowBitForm(t / 2);
      var h := LowBit(t / 2);
      Associates(2, q, 2 * h);
      Associates(q, 2, 2 * h);
    }
  }

  lemma LowBitIsPow2(t: int)
    requires t > 0
    ensures IsPow2(LowBit(t)) && (t - LowBit(t)) % (2 * LowBit(t)) == 0
  {
    var q := LowBitForm(t);
    DivIs(t - LowBit(t), 2 * LowBit(t), q, 0);
  }

  lemma Doubles(x: int, d: int)
    requires d > 0 && x % d == 0
    ensures (2 * x) % (2 * d) == 0
  {
    Remainder(x, d);
    Associates(2, x / d, d);
    DivIs(2 * x, 2 * d, x / d, 0);
  }

  lemma {:induction false} LowBitOfSum(r: int, h: int)
    requires IsPow2(h) && r >= 0 && r % (2 * h) == 0
    ensures LowBit(r + h) == h
    decreases h
  {
    if h > 1 {
      var q := r / (2 * h);
      Remainder(r, 2 * h);
      assert r / 2 == q * h;
      DivIs(r / 2, h, q, 0);
      Halves(r, h);
      LowBitOfSum(r / 2, h / 2);
      assert (r + h) / 2 == r / 2 + h / 2;
    }
  }

  lemma Halves(r: int, h: int)
    requires h > 0 && r % (2 * h) == 0
    ensures r % 2 == 0 && (r / 2) % h == 0
  {
    var q := r / (2 * h);
    Remainder(r, 2 * h);
    Associates(q, 2, h);
    DivIs(r, 2, q * h, 0);
    DivIs(r / 2, h, q, 0);
  }

  /** Powers of two below another one are at most its half. */
  lemma {:induction false} Pow2Below(a: int, p: int)
    requires IsPow2(a) && IsPow2(p) && a < p
    ensures 2 * a <= p && p % (2 * a) == 0
    decreases p
  {
    if a == 1 {
    } else {
      Pow2Below(a / 2, p / 2);
      Doubles(p / 2, a);
    }
  }

  /** The only rank that round i can add. */
  lemma NextTarget(r: int, i: int)
    requires r >= 0 && i > 1 && IsPow2(i)
    ensures forall t :: t > 0 && t - LowBit(t) == r && i / 2 <= LowBit(t) < i <==> t == r + i / 2 && r % i == 0
  {
    forall t ensures t > 0 && t - LowBit(t) == r && i / 2 <= LowBit(t) < i <==> t == r + i / 2 && r % i == 0 {
      if t > 0 && t - LowBit(t) == r && i / 2 <= LowBit(t) < i {
        LowBitIsPow2(t);
        Pow2Below(LowBit(t), i);
      }
      if r % i == 0 { LowBitOfSum(r, i / 2); }
    }
  }

  /** The rank, counted from the master, from which rank t is told. */
  function Parent(t: int): int
    requires t > 0
  {
    t - LowBit(t)
  }

  /** What the rounds above i have found, the largest rank first. */
  ghost predicate Collected(ts: seq<int>, r: int, n: int, i: int) {
    && (forall t :: t in ts <==> 0 < t < n && Parent(t) == r && LowBit(t) >= i)
    && (forall j, k :: 0 <= j < k < |ts| ==> ts[j] > ts[k])
    && (forall j :: 0 <= j < |ts| ==> ts[j] >= r + i)
  }

  lemma CollectNext(ts: seq<int>, r: int, n: int, i: int)
    requires r >= 0 && i > 1 && IsPow2(i) && Collected(ts, r, n, i)
    ensures Collected(if r % i == 0 && r + i / 2 < n then ts + [r + i / 2] else ts, r, n, i / 2)
  {
    NextTarget(r, i);
  }

  /** The loop of the exit request, which starts at rank 0. A process sends to the ranks whose parent it is, once each. */
  method Targets(r: int, n: int) returns (ts: seq<int>)
    requires 0 <= r < n <= 0x8000_0000_0000_0000
    ensures forall t :: t in ts <==> 0 < t < n && Parent(t) == r
    ensures forall j, k :: 0 <= j < k < |ts| ==> ts[j] > ts[k]
  {
    hide Start;
    ts := [];
    var i := Start(n);
    while i > 1
      invariant 1 <= i && IsPow2(i) && Collected(ts, r, n, i)
    {
      CollectNext(ts, r, n, i);
      if r % i == 0 {
        var target := r + i / 2;
        if target < n { ts := ts + [target]; }
      }
      i := i / 2;
    }
  }

  function Shifted(rank: int, master: int, n: int): int
    requires n > 0
  {
    (rank + n - master) % n
  }

  function Real(s: int, master: int, n: int): int
    requires n > 0
  {
    (s + master) % n
  }

  lemma ShiftIs(rank: int, master: int, n: int)
    requires 0 <= rank < n && 0 <= master < n
    ensures Shifted(rank, master, n) == (if rank >= master then rank - master else rank + n - master)
    ensures Real(rank, master, n) == (if rank + master < n then rank + master else rank + master - n)
  {
    DivIs(rank + n - master, n, if rank >= master then 1 else 0, if rank >= master then rank - master else rank + n - master);
    DivIs(rank + master, n, if rank + master < n then 0 else 1, if rank + master < n then rank + master else rank + master - n);
  }

  /** Counting from the master and back. */
  lemma ShiftRoundTrip(x: int, master: int, n: int)
    requires 0 <= x < n && 0 <= master < n
    ensures 0 <= Shifted(x, master, n) < n && Real(Shifted(x, master, n), master, n) == x
    ensures 0 <= Real(x, master, n) < n && Shifted(Real(x, master, n), master, n) == x
    ensures Shifted(x, master, n) == 0 <==> x == master
  {
    ShiftIs(x, master, n);
    ShiftIs(Shifted(x, master, n), master, n);
    ShiftIs(Real(x, master, n), master, n);
  }

  /** rank p passes the task of this master on to rank q. */
  ghost predicate Sends(p: int, q: int, master: int, n: int)
    requires n > 0
  {
    0 <= q < n && q != master && Shifted(q, master, n) > 0 && Shifted(p, master, n) == Parent(Shifted(q, master, n))
  }

  /** The loop of the collective task. */
  method Forward(rank: int, master: int, n: int) returns (targets: seq<int>)
    requires 0 <= rank < n <= 0x8000_0000_0000_0000 && 0 <= master < n
    ensures forall q :: q in targets <==> Sends(rank, q, master, n)
    ensures forall j, k :: 0 <= j < k < |targets| ==> targets[j] != targets[k]
  {
    hide Start;
    var shifted := Shifted(rank, master, n);
    ShiftRoundTrip(rank, master, n);
    targets := [];
    ghost var ts: seq<int> := [];
    var i := Start(n);
    while i > 1
      invariant 1 <= i && IsPow2(i) && Collected(ts, shifted, n, i)
      invariant |targets| == |ts| && forall k :: 0 <= k < |ts| ==> targets[k] == Real(ts[k], master, n)
    {
      CollectNext(ts, shifted, n, i);
      if shifted % i == 0 {
        var target := shifted + i / 2;
        if target < n {
          targets := targets + [Real(target, master, n)];
          ts := ts + [target];
        }
      }
      i := i / 2;
    }
    TargetsAreChildren(rank, master, n, ts, targets);
  }

  /** Counting the targets from the master and back. */
  lemma TargetsAreChildren(rank: int, master: int, n: int, ts: seq<int>, targets: seq<int>)
    requires 0 <= rank < n && 0 <= master < n
    requires forall t :: t in ts <==> 0 < t < n && Parent(t) == Shifted(rank, master, n)
    requires forall j, k :: 0 <= j < k < |ts| ==> ts[j] > ts[k]
    requires |targets| == |ts| && forall k :: 0 <= k < |ts| ==> targets[k] == Real(ts[k], master, n)
    ensures forall q :: q in targets <==> Sends(rank, q, master, n)
    ensures forall j, k :: 0 <= j < k < |targets| ==> targets[j] != targets[k]
  {
    forall k | 0 <= k < |ts| ensures 0 <= targets[k] < n && Shifted(targets[k], master, n) == ts[k] {
      assert ts[k] in ts;
      ShiftRoundTrip(ts[k], master, n);
    }
    forall q ensures q in targets <==> Sends(rank, q, master, n) {
      if q in targets {
        var k :| 0 <= k < |targets| && targets[k] == q;
        assert ts[k] in ts;
        ShiftRoundTrip(q, master, n);
      }
      if Sends(rank, q, master, n) {
        ShiftRoundTrip(q, master, n);
        assert Shifted(q, master, n) in ts;
        var k :| 0 <= k < |ts| && ts[k] == Shifted(q, master, n);
        assert targets[k] == q;
      }
    }
  }

  /** Every rank but the master is sent the message by exactly one rank, and the master by none; so a one-slot mailbox is
      never filled twice by one task. */
  lemma ExactlyOneSender(q: int, master: int, n: int) returns (p: int)
    requires 0 <= q < n && 0 <= master < n
    ensures q != master ==> 0 <= p < n && p != q && Sends(p, q, master, n)
    ensures forall p' :: 0 <= p' < n && Sends(p', q, master, n) ==> q != master && p' == p
  {
    ShiftRoundTrip(q, master, n);
    p := master;
    if q != master {
      var t := Shifted(q, master, n);
      p := Real(Parent(t), master, n);
      ShiftRoundTrip(Parent(t), master, n);
      forall p' | 0 <= p' < n && Sends(p', q, master, n) ensures p' == p {
        ShiftRoundTrip(p', master, n);
      }
    }
  }

  /** The message reaches every rank: whoever has it passes it on, and that is enough. */
  lemma {:induction false} ReachesAll(have: set<int>, master: int, n: int, q: int)
    requires 0 <= master < n && 0 <= q < n && master in have
    requires forall p, x :: p in have && Sends(p, x, master, n) ==> x in have
    ensures q in have
    decreases Shifted(q, master, n)
  {
    ShiftRoundTrip(q, master, n);
    if q != master {
      var t := Shifted(q, master, n);
      var p := ExactlyOneSender(q, master, n);
      ShiftRoundTrip(p, master, n);
      ReachesAll(have, master, n, p);
    }
  }
}

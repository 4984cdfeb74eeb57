/** Facts about division and multiplication of integers. */
module Arithmetic {
  function Max(a: int, b: int): int { if a < b then b else a }

  function Min(a: int, b: int): int { if b < a then b else a }

  function CeilDiv(a: int, d: int): int
    requires d > 0
  {
    (a + d - 1) / d
  }

  /** Floor and ceiling division as adjoints of multiplication. */
  lemma DivLe(a: int, d: int, q: int)
    requires d > 0
    ensures q <= a / d <==> q * d <= a
  {
    MulMono(q, a / d, d);
    MulMono(a / d + 1, q, d);
  }

  lemma MulMono(a: int, b: int, d: int)
    requires d > 0
    ensures a <= b ==> a * d <= b * d
  {
  }

  lemma CeilLe(a: int, d: int, q: int)
    requires d > 0
    ensures CeilDiv(a, d) <= q <==> a <= q * d
  {
    DivLe(a + d - 1, d, q + 1);
  }

  lemma NextTimes(a: int, b: int)
    ensures (a + 1) * b == a * b + b
  {
  }

  lemma TimesBelow(a: int, c: int, b: int)
    requires a <= c && b >= 0
    ensures a * b <= b * c
  {
  }

  lemma FloorMono(a: int, b: int, d: int)
    requires d > 0 && a <= b
    ensures a / d <= b / d
  {
    DivLe(a, d, a / d);
    DivLe(b, d, a / d);
  }

  lemma MulMono0(a: int, b: int)
    requires a >= 0 && b >= 0
    ensures a * b >= 0
  {
  }

  lemma CeilMono(a: int, b: int, d: int)
    requires d > 0 && a <= b
    ensures CeilDiv(a, d) <= CeilDiv(b, d)
  {
    CeilLe(a, d, CeilDiv(b, d));
    CeilLe(b, d, CeilDiv(b, d));
  }

  lemma Distributes(a: int, b: int, d: int)
    ensures (a - b) * d == a * d - b * d
  {
  }

  lemma TimesMod(a: int, d: int)
    requires d > 0
    ensures (a * d) % d == 0
  {
    DivIs(a * d, d, a, 0);
  }

  lemma Exchange(l: int, s: int, n: int)
    ensures (l * s) * n == (l * n) * s
  {
  }

  lemma Associates(a: int, b: int, c: int)
    ensures a * (b * c) == (a * b) * c
  {
  }

  lemma MultipleOf(a: int, s: int, d: int)
    requires d > 0 && s % d == 0
    ensures (a * s) % d == 0
  {
    var q := s / d;
    Remainder(s, d);
    Associates(a, q, d);
    TimesMod(a * q, d);
  }

  /** The quotient and the remainder are determined. */
  lemma DivIs(x: int, d: int, q: int, r: int)
    requires d > 0 && x == q * d + r && 0 <= r < d
    ensures x / d == q && x % d == r
  {
    DivLe(x, d, q);
    DivLe(x, d, q + 1);
    NextTimes(q, d);
  }

  lemma Remainder(x: int, d: int)
    requires d > 0
    ensures x == x / d * d + x % d && 0 <= x % d < d
  {
  }

  lemma InGrid(row: int, d: int, col: int, rows: int)
    requires 0 <= row < rows && 0 <= col < d
    ensures 0 <= row * d + col < rows * d
  {
    MulMono0(row, d);
    MulMono(row + 1, rows, d);
    NextTimes(row, d);
  }

  lemma CeilBounds(nb: nat, n: int, id: int)
    requires 0 <= id < n
    ensures 0 <= CeilDiv(id * nb, n) <= CeilDiv((id + 1) * nb, n) <= nb
  {
    MulMono0(id, nb);
    NextTimes(id, nb);
    TimesBelow(id + 1, n, nb);
    CeilLe(id * nb, n, -1);
    CeilLe((id + 1) * nb, n, nb);
    CeilMono(id * nb, (id + 1) * nb, n);
  }

  lemma FloorBounds(nb: nat, n: int, id: int)
    requires 0 <= id < n
    ensures 0 <= id * nb / n <= (id + 1) * nb / n <= nb
  {
    MulMono0(id, nb);
    NextTimes(id, nb);
    TimesBelow(id + 1, n, nb);
    DivLe(id * nb, n, 0);
    NextTimes(nb, n);
    DivLe((id + 1) * nb, n, nb + 1);
    FloorMono(id * nb, (id + 1) * nb, n);
  }

  lemma LessTimes(a: int, b: int, d: int)
    requires d > 0
    ensures a < b ==> a * d + d <= b * d
  {
    NextTimes(a, d);
    MulMono(a + 1, b, d);
  }

  function RoundDown(x: nat, m: nat): nat
    requires m > 0
  {
    x / m * m
  }

  function RoundUp(x: nat, m: nat): nat
    requires m > 0
  {
    CeilDiv(x, m) * m
  }

  lemma RoundDownIs(x: nat, m: nat)
    requires m > 0
    ensures RoundDown(x, m) % m == 0 && RoundDown(x, m) <= x < RoundDown(x, m) + m
  {
    Remainder(x, m);
    TimesMod(x / m, m);
  }

  lemma RoundUpIs(x: nat, m: nat)
    requires m > 0
    ensures RoundUp(x, m) % m == 0 && x <= RoundUp(x, m) < x + m
  {
    Remainder(x + m - 1, m);
    TimesMod(CeilDiv(x, m), m);
  }

  /** Rounding never passes a multiple. */
  lemma RoundDownAbove(x: nat, m: nat, k: nat)
    requires m > 0 && k * m <= x
    ensures k * m <= RoundDown(x, m)
  {
    DivLe(x, m, k);
    MulMono(k, x / m, m);
  }

  lemma RoundUpBelow(x: nat, m: nat, k: nat)
    requires m > 0 && x <= k * m
    ensures RoundUp(x, m) <= k * m
  {
    CeilLe(x, m, k);
    MulMono(CeilDiv(x, m), k, m);
  }

  /** Rounding after a shift by a multiple. */
  lemma ShiftDown(k: nat, x: nat, m: nat)
    requires m > 0
    ensures RoundDown(k * m + x, m) == k * m + RoundDown(x, m)
  {
    Shift(k, x, m);
  }

  lemma ShiftUp(k: nat, x: nat, m: nat)
    requires m > 0
    ensures RoundUp(k * m + x, m) == k * m + RoundUp(x, m)
  {
    Shift(k, x + m - 1, m);
  }

  lemma Shift(k: nat, x: nat, m: nat)
    requires m > 0
    ensures (k * m + x) / m == k + x / m && (k + x / m) * m == k * m + x / m * m
  {
    Remainder(x, m);
    Distributes(k, -(x / m), m);
    DivIs(k * m + x, m, k + x / m, x % m);
  }
}

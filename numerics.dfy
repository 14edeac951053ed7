// Integer and real helpers shared by the C# and Python models: the .NET
// Math.Clamp / Math.Round operators, the truncating casts `(int)x` of C# and
// `int(x)` / `astype(int)` of Python, and the truncating integer mean.

module Numerics {

  function Min(a: int, b: int): int { if a <= b then a else b }
  function Max(a: int, b: int): int { if a >= b then a else b }

  /** .NET Math.Clamp(v, lo, hi) on int; .NET throws when lo > hi, so callers must rule that out. */
  function Clamp(v: int, lo: int, hi: int): (r: int)
    requires lo <= hi
    ensures lo <= r <= hi
    ensures lo <= v <= hi ==> r == v
    ensures v < lo ==> r == lo
    ensures v > hi ==> r == hi
  {
    if v < lo then lo else if v > hi then hi else v
  }

  /** .NET Math.Clamp on double, with doubles read as reals. */
  function ClampReal(v: real, lo: real, hi: real): (r: real)
    requires lo <= hi
    ensures lo <= r <= hi
    ensures lo <= v <= hi ==> r == v
    ensures v < lo ==> r == lo
    ensures v > hi ==> r == hi
  {
    if v < lo then lo else if v > hi then hi else v
  }

  function MaxReal(a: real, b: real): real { if a >= b then a else b }
  function AbsReal(a: real): real { if a < 0.0 then -a else a }
  function Abs(a: int): nat { if a < 0 then -a else a }

  /** A cast of a real to an integer that truncates toward zero: C# `(int)x`, Python `int(x)`, NumPy `astype(int)`. */
  function TruncToInt(r: real): (n: int)
    ensures r >= 0.0 ==> n as real <= r < n as real + 1.0
    ensures r <= 0.0 ==> n as real - 1.0 < r <= n as real
  {
    if r >= 0.0 then r.Floor else -((-r).Floor)
  }

  /** Integer division truncating toward zero (C# `/`, NumPy `int64(mean)`), unlike Dafny's Euclidean `/`. */
  function TruncDiv(a: int, n: int): (q: int)
    requires n > 0
    ensures a >= 0 ==> q * n <= a < q * n + n
    ensures a <= 0 ==> q * n - n < a <= q * n
  {
    if a >= 0 then a / n else -((-a) / n)
  }

  /** .NET Math.Round(double): round to nearest, ties to the even neighbour. */
  function RoundHalfEven(r: real): (n: int)
    ensures (n as real) - 0.5 <= r <= (n as real) + 0.5
  {
    var f := r.Floor;
    var d := r - f as real;
    if d < 0.5 then f
    else if d > 0.5 then f + 1
    else if f % 2 == 0 then f else f + 1
  }

  lemma TruncDivOfMultiple(q: int, n: int)
    requires n > 0
    ensures TruncDiv(q * n, n) == q
  {
    if q >= 0 {
      DivUnique(q * n, n, q);
    } else {
      assert -(q * n) == (-q) * n;
      DivUnique(-(q * n), n, -q);
    }
  }

  lemma DivUnique(a: int, n: int, q: int)
    requires n > 0 && 0 <= q * n <= a < q * n + n
    ensures a / n == q
  {
    var r := a / n;
    if r < q {
      MulMonotone(r + 1, q, n);
      assert false;
    } else if r > q {
      MulMonotone(q + 1, r, n);
      assert false;
    }
  }

  lemma MulMonotone(a: int, b: int, n: int)
    requires a <= b && n >= 0
    ensures a * n <= b * n
  {
  }

  lemma RoundMonotone(a: real, b: real)
    requires a <= b
    ensures RoundHalfEven(a) <= RoundHalfEven(b)
  {
  }

  lemma RoundOfInt(n: int)
    ensures RoundHalfEven(n as real) == n
  {
  }
}

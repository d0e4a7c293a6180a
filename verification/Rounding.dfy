/** Python's `round` and `int` on real numbers. */
module Rounding {

  /** `round(x)`: to the nearest integer, ties to even. */
  function Round(x: real): int {
    var f := x.Floor;
    var d := x - f as real;
    if d < 0.5 then f
    else if d > 0.5 then f + 1
    else if f % 2 == 0 then f
    else f + 1
  }

  /** `int(x)`: truncation towards zero. */
  function Trunc(x: real): int {
    if x >= 0.0 then x.Floor else -((-x).Floor)
  }

  /** `round(x, d)` with `scale` being 10^d. */
  function RoundTo(x: real, scale: real): real
    requires scale > 0.0
  {
    Round(x * scale) as real / scale
  }

  function Abs(x: real): real {
    if x < 0.0 then -x else x
  }

  function ClampReal(lo: real, hi: real, x: real): real {
    var m := if x < hi then x else hi;
    if m > lo then m else lo
  }

  function ClampInt(lo: int, hi: int, x: int): int {
    var m := if x < hi then x else hi;
    if m > lo then m else lo
  }

  function MinReal(x: real, y: real): real {
    if y < x then y else x
  }

  function MaxReal(x: real, y: real): real {
    if y > x then y else x
  }

  /** Rounding moves a number by at most one half. */
  lemma {:induction false} RoundNear(x: real)
    ensures -0.5 <= Round(x) as real - x <= 0.5
  {
  }

  lemma {:induction false} RoundOfInt(n: int)
    ensures Round(n as real) == n
  {
  }

  lemma {:induction false} RoundMonotone(x: real, y: real)
    requires x <= y
    ensures Round(x) <= Round(y)
  {
  }

  /** On positive numbers truncation reaches an integer exactly when the number does. */
  lemma {:induction false} TruncReaches(x: real, n: int)
    requires n >= 1
    ensures Trunc(x) >= n <==> x >= n as real
  {
  }

  lemma {:induction false} MulMonotone(a: real, b: real, s: real)
    requires s > 0.0
    ensures a <= b <==> a * s <= b * s
    ensures a < b <==> a * s < b * s
  {
    if a < b {
      assert (b - a) * s > 0.0;
    } else if b < a {
      assert (a - b) * s > 0.0;
    }
  }

  lemma {:induction false} DivMonotone(a: real, b: real, s: real)
    requires s > 0.0 && a <= b
    ensures a / s <= b / s
  {
    var p, q := a / s, b / s;
    assert p * s == a && q * s == b;
    MulMonotone(p, q, s);
  }

  lemma {:induction false} RoundToMonotone(x: real, y: real, scale: real)
    requires scale > 0.0 && x <= y
    ensures RoundTo(x, scale) <= RoundTo(y, scale)
  {
    MulMonotone(x, y, scale);
    RoundMonotone(x * scale, y * scale);
    DivMonotone(Round(x * scale) as real, Round(y * scale) as real, scale);
  }

  /** Rounding to two decimals moves a number by at most half a hundredth. */
  lemma {:induction false} RoundTo2Near(x: real)
    ensures -0.005 <= RoundTo(x, 100.0) - x <= 0.005
  {
    RoundNear(x * 100.0);
  }
}

/** Decimal rounding, half away from zero (ROUND_HALF_UP of Python's decimal module). */
module Rounding {

  function PowerOfTen(n: int): (r: real)
    ensures r > 0.0
    decreases if n < 0 then -n else n
  {
    if n == 0 then 1.0 else if n > 0 then 10.0 * PowerOfTen(n - 1) else PowerOfTen(n + 1) / 10.0
  }

  /** The integer closest to x, ties away from zero. */
  function Nearest(x: real): (r: int)
    ensures x - 0.5 <= r as real <= x + 0.5
  {
    if x >= 0.0 then (x + 0.5).Floor else -(-x + 0.5).Floor
  }

  function RoundAt(x: real, scale: real): real
    requires scale > 0.0
  {
    Nearest(x * scale) as real / scale
  }

  /** `quantize` at `places` decimals. */
  function RoundHalfUp(x: real, places: int): real {
    RoundAt(x, PowerOfTen(places))
  }

  /* ---------- what rounding means ---------- */

  /** r is the closest integer to x; of two that are equally close, the one further from zero. */
  predicate Closest(x: real, r: int) {
    && x - 0.5 <= r as real <= x + 0.5
    && (r as real == x - 0.5 ==> x <= 0.0)
    && (r as real == x + 0.5 ==> x >= 0.0)
  }

  lemma NearestExactly(x: real, r: int)
    ensures Nearest(x) == r <==> Closest(x, r)
  {
  }

  /** The powers of ten, negative ones included. */
  lemma {:induction false} PowersStep(n: int)
    ensures PowerOfTen(0) == 1.0 && PowerOfTen(n + 1) == 10.0 * PowerOfTen(n)
  {
  }

  /** A rounded value is a whole number of units of its last decimal, and the closest one. */
  lemma RoundedExactly(x: real, places: int, r: int)
    ensures RoundHalfUp(x, places) == r as real / PowerOfTen(places) <==> Closest(x * PowerOfTen(places), r)
  {
    RoundedAt(x, PowerOfTen(places), r);
  }

  lemma RoundedAt(x: real, scale: real, r: int)
    requires scale > 0.0
    ensures RoundAt(x, scale) == r as real / scale <==> Closest(x * scale, r)
  {
    ClosestQuotient(Nearest(x * scale), r, x * scale, scale);
  }

  lemma ClosestQuotient(n: int, r: int, y: real, scale: real)
    requires scale > 0.0 && n == Nearest(y)
    ensures n as real / scale == r as real / scale <==> Closest(y, r)
  {
    NearestExactly(y, r);
    SameQuotient(n as real, r as real, scale);
  }

  lemma SameQuotient(a: real, b: real, c: real)
    requires c > 0.0
    ensures a / c == b / c <==> a == b
  {
    assert a / c * c == a && b / c * c == b;
  }
}

/** Machine integers: 64-bit wrap-around and division truncated toward zero. */
module Int64 {
  const MAX: int := 0x7FFF_FFFF_FFFF_FFFF
  const MIN: int := -0x8000_0000_0000_0000
  const MODULUS: int := 0x1_0000_0000_0000_0000

  predicate Fits(x: int) { MIN <= x <= MAX }

  /** The value a 64-bit addition or conversion keeps of `x`. */
  function Wrap(x: int): (w: int)
    ensures Fits(w) && (Fits(x) ==> w == x)
  {
    (x - MIN) % MODULUS + MIN
  }

  /** Wrapping at every addition is wrapping the exact sum. */
  lemma WrapAdd(x: int, y: int)
    ensures Wrap(Wrap(x) + y) == Wrap(x + y)
  {
    var q := (x - MIN) / MODULUS;
    assert Wrap(x) == x - q * MODULUS;
    ModShift(x + y - MIN, q);
  }

  lemma ModShift(a: int, q: int)
    ensures (a - q * MODULUS) % MODULUS == a % MODULUS
  {
    var d := a / MODULUS;
    var r := a % MODULUS;
    assert a - q * MODULUS == (d - q) * MODULUS + r;
  }

  function TruncDiv(a: int, b: int): int
    requires b > 0
  {
    if a >= 0 then a / b else -((-a) / b)
  }

  /** The whole milliseconds of a duration in nanoseconds. */
  function Milliseconds(duration: int): int { TruncDiv(duration, 1_000_000) }

  lemma TruncDivBounds(a: int, b: int, low: int, high: int)
    requires b > 0 && low * b <= a <= high * b
    ensures low <= TruncDiv(a, b) <= high
  {
    var q := TruncDiv(a, b);
    if a >= 0 {
      assert q * b <= a < (q + 1) * b;
      assert low < q + 1 by { if q + 1 <= low { MulMonotone(q + 1, low, b); } }
      assert q < high + 1 by { if high + 1 <= q { MulMonotone(high + 1, q, b); } }
    } else {
      assert (q - 1) * b < a <= q * b;
      assert low <= q by { if q + 1 <= low { MulMonotone(q + 1, low, b); } }
      assert q - 1 < high by { if high <= q - 1 { MulMonotone(high, q - 1, b); } }
    }
  }

  lemma MulMonotone(x: int, y: int, b: int)
    requires x <= y && 0 < b
    ensures x * b <= y * b
  {
  }

  /** Averaging a wrapped sum gives the average of the exact sum precisely when nothing wrapped. */
  lemma WrappedQuotient(sum: int, n: int)
    requires 0 < n <= MAX
    ensures TruncDiv(Wrap(sum), n) == TruncDiv(sum, n) <==> Fits(sum)
  {
    if !Fits(sum) {
      WrapMoves(sum);
      TruncDivNear(Wrap(sum), n);
      TruncDivNear(sum, n);
    }
  }

  lemma WrapMoves(x: int)
    requires !Fits(x)
    ensures Wrap(x) - x >= MODULUS || x - Wrap(x) >= MODULUS
  {
    var q := (x - MIN) / MODULUS;
    assert Wrap(x) == x - q * MODULUS;
    assert q != 0;
  }

  lemma TruncDivNear(a: int, b: int)
    requires b > 0
    ensures a - b < TruncDiv(a, b) * b < a + b
  {
    if a < 0 { assert TruncDiv(a, b) * b == -(((-a) / b) * b); }
  }

  /** A duration that is not negative lies within its millisecond. */
  lemma MillisecondsExact(duration: int)
    requires duration >= 0
    ensures Milliseconds(duration) * 1_000_000 <= duration < (Milliseconds(duration) + 1) * 1_000_000
  {
  }
}

/** Two's complement arithmetic at a given width, and floor division by a constant written with it. */
module MachineInt {
  import MixedRadix

  function Pow2(n: nat): int {
    if n == 0 then 1 else 2 * Pow2(n - 1)
  }

  lemma {:induction false} Pow2Positive(n: nat)
    ensures Pow2(n) >= 1
  {
    if n > 0 {
      Pow2Positive(n - 1);
    }
  }

  predicate Fits(x: int, half: int) {
    -half <= x < half
  }

  /** The value left in a register that holds [-half, half). */
  function Wrap(x: int, half: int): (r: int)
    requires half >= 1
    ensures Fits(r, half)
  {
    (x + half) % (2 * half) - half
  }

  ghost predicate Congruent(x: int, y: int, half: int) {
    exists k: int :: x - y == Turn(k, half)
  }

  function Turn(k: int, half: int): int {
    2 * half * k
  }

  lemma WrapIsCongruent(x: int, half: int)
    requires half >= 1
    ensures Congruent(Wrap(x, half), x, half)
  {
    var k := (x + half) / (2 * half);
    assert x + half == 2 * half * k + (x + half) % (2 * half);
    assert 2 * half * k == -(2 * half * -k) by { NegativeTurn(k, half); }
    assert Wrap(x, half) - x == Turn(-k, half);
  }

  lemma NegativeTurn(k: int, half: int)
    ensures 2 * half * k == -(2 * half * -k)
  {
  }

  /** A register determines its value: congruent values that fit are equal. */
  lemma FitsIsUnique(x: int, y: int, half: int)
    requires half >= 1 && Fits(x, half) && Fits(y, half) && Congruent(x, y, half)
    ensures x == y
  {
    var k :| x - y == Turn(k, half);
    if k >= 1 {
      TurnGrows(k, half);
    } else if k <= -1 {
      TurnGrows(-k, half);
      NegativeTurn(k, half);
    }
  }

  lemma TurnGrows(k: int, half: int)
    requires k >= 1 && half >= 1
    ensures Turn(k, half) >= 2 * half
  {
    assert 2 * half * k == 2 * half + 2 * half * (k - 1);
  }

  lemma CongruentAdds(a: int, b: int, c: int, d: int, half: int)
    requires Congruent(a, b, half) && Congruent(c, d, half)
    ensures Congruent(a + c, b + d, half) && Congruent(a - c, b - d, half)
  {
    var k :| a - b == Turn(k, half);
    var m :| c - d == Turn(m, half);
    assert Turn(k + m, half) == Turn(k, half) + Turn(m, half) by { TurnAdds(k, m, half); }
    assert Turn(k - m, half) == Turn(k, half) - Turn(m, half) by { TurnAdds(k - m, m, half); }
    assert (a + c) - (b + d) == Turn(k + m, half);
    assert (a - c) - (b - d) == Turn(k - m, half);
  }

  lemma TurnAdds(k: int, m: int, half: int)
    ensures Turn(k + m, half) == Turn(k, half) + Turn(m, half)
  {
  }

  lemma CongruentScales(a: int, b: int, c: int, half: int)
    requires Congruent(a, b, half)
    ensures Congruent(a * c, b * c, half)
  {
    var k :| a - b == Turn(k, half);
    assert (a - b) * c == a * c - b * c;
    assert Turn(k, half) * c == Turn(k * c, half) by { MixedRadix.MulAssoc(2 * half, k, c); }
    assert a * c - b * c == Turn(k * c, half);
  }

  lemma CongruentTransitive(a: int, b: int, c: int, half: int)
    requires Congruent(a, b, half) && Congruent(b, c, half)
    ensures Congruent(a, c, half)
  {
    var k :| a - b == Turn(k, half);
    var m :| b - c == Turn(m, half);
    TurnAdds(k, m, half);
    assert a - c == Turn(k + m, half);
  }

  lemma CongruentReflexive(a: int, half: int)
    ensures Congruent(a, a, half)
  {
    assert a - a == Turn(0, half);
  }

  lemma CongruentSymmetric(a: int, b: int, half: int)
    requires Congruent(a, b, half)
    ensures Congruent(b, a, half)
  {
    var k :| a - b == Turn(k, half);
    NegativeTurn(k, half);
    assert b - a == Turn(-k, half);
  }

  lemma CongruentMultiplies(a: int, b: int, c: int, d: int, half: int)
    requires Congruent(a, b, half) && Congruent(c, d, half)
    ensures Congruent(a * c, b * d, half)
  {
    CongruentScales(a, b, c, half);
    CongruentScales(c, d, b, half);
    assert c * b == b * c && d * b == b * d;
    CongruentTransitive(a * c, b * c, b * d, half);
  }

  /** Congruent values leave the same register. */
  lemma WrapAgrees(x: int, y: int, half: int)
    requires half >= 1 && Congruent(x, y, half)
    ensures Wrap(x, half) == Wrap(y, half)
  {
    WrapIsCongruent(x, half);
    WrapIsCongruent(y, half);
    CongruentTransitive(Wrap(x, half), x, y, half);
    CongruentSymmetric(Wrap(y, half), y, half);
    CongruentTransitive(Wrap(x, half), y, Wrap(y, half), half);
    FitsIsUnique(Wrap(x, half), Wrap(y, half), half);
  }

  lemma WrapOfFitting(x: int, half: int)
    requires half >= 1 && Fits(x, half)
    ensures Wrap(x, half) == x
  {
    WrapIsCongruent(x, half);
    FitsIsUnique(Wrap(x, half), x, half);
  }

  /** Wrapping the operands first does not change a wrapped sum, difference or product. */
  lemma WrapsAreAbsorbed(x: int, y: int, half: int)
    requires half >= 1
    ensures Wrap(Wrap(x, half) + Wrap(y, half), half) == Wrap(x + y, half)
    ensures Wrap(x - Wrap(y, half), half) == Wrap(x - y, half)
    ensures Wrap(Wrap(x, half) * Wrap(y, half), half) == Wrap(x * y, half)
    ensures Wrap(x * Wrap(y, half), half) == Wrap(x * y, half)
  {
    WrapIsCongruent(x, half);
    WrapIsCongruent(y, half);
    CongruentReflexive(x, half);
    CongruentAdds(Wrap(x, half), x, Wrap(y, half), y, half);
    CongruentAdds(x, x, Wrap(y, half), y, half);
    CongruentMultiplies(Wrap(x, half), x, Wrap(y, half), y, half);
    CongruentMultiplies(x, x, Wrap(y, half), y, half);
    WrapAgrees(Wrap(x, half) + Wrap(y, half), x + y, half);
    WrapAgrees(x - Wrap(y, half), x - y, half);
    WrapAgrees(Wrap(x, half) * Wrap(y, half), x * y, half);
    WrapAgrees(x * Wrap(y, half), x * y, half);
  }

  // ----- division by a constant -----

  /** The machine's signed division, which drops the fraction. */
  function Sdiv(x: int, d: int): (q: int)
    requires d >= 1
    ensures x >= 0 ==> q == x / d
    ensures x < 0 ==> q == -(-x / d)
  {
    if x >= 0 then x / d else -(-x / d)
  }

  lemma FloorIsUnique(x: int, d: int, q: int)
    requires d >= 1 && q * d <= x < q * d + d
    ensures x / d == q && x % d == x - q * d
  {
    MixedRadix.DivisionIsUnique(x, d, q, x - q * d);
  }

  /** For a negative value, -1 + (val + 1) / divisor, truncated, is the floor. */
  lemma NegativeFloor(val: int, d: int)
    requires d >= 1 && val < 0
    ensures Sdiv(val + 1, d) - 1 == val / d
  {
    var t := -(val + 1);
    assert Sdiv(val + 1, d) == -(t / d);
    var q := -(t / d) - 1;
    assert q * d == -(t / d * d) - d;
    FloorIsUnique(val, d, q);
  }

  lemma FloorFits(val: int, d: int, half: int)
    requires d >= 1 && Fits(val, half)
    ensures Fits(val / d, half) && 0 <= val % d < d
  {
    var q, r := val / d, val % d;
    assert val == d * q + r;
    if q >= half {
      MulBounds(d, q, half);
    } else if q < -half {
      MulBounds(d, -q - 1, half);
      DistributeNegative(d, q);
    }
  }

  lemma MulBounds(d: int, a: int, half: int)
    requires d >= 1 && a >= 0 && a >= half
    ensures d * a >= half
  {
    assert d * a >= a;
  }

  lemma DistributeNegative(d: int, q: int)
    ensures d * (-q - 1) == -(d * q) - d
  {
  }

  /** What the two branches store is the floor, with nothing wrapped on the way. */
  lemma QuotientStored(val: int, d: int, half: int)
    requires half >= 1 && Fits(val, half) && 0 < d
    ensures val < 0 ==> Wrap(Sdiv(Wrap(val + 1, half), d) - 1, half) == val / d
    ensures val >= 0 ==> Sdiv(val, d) == val / d
  {
    if val < 0 {
      WrapOfFitting(val + 1, half);
      NegativeFloor(val, d);
      FloorFits(val, d, half);
      WrapOfFitting(val / d, half);
    }
  }

  lemma RemainderStored(val: int, d: int, q: int, half: int)
    requires half >= 1 && Fits(val, half) && 0 < d < half && q == val / d
    ensures Wrap(val - Wrap(q * d, half), half) == val % d
  {
    hide Wrap;
    WrapsAreAbsorbed(val, q * d, half);
    FloorFits(val, d, half);
    assert val == d * q + val % d;
    assert d * q == q * d;
    WrapOfFitting(val % d, half);
  }

  /** At every width, the quotient is the floor and the remainder lies in [0, divisor), although the
      product of quotient and divisor may wrap for values near the minimum. */
  method DivmodByConstant(width: nat, val: int, divisor: int) returns (quotient: int, remainder: int)
    requires width >= 1 && Fits(val, Pow2(width - 1))
    requires 0 < divisor < Pow2(width - 1)
    ensures quotient == val / divisor && remainder == val % divisor
    ensures Fits(quotient, Pow2(width - 1)) && 0 <= remainder < divisor
  {
    hide Wrap, Sdiv;
    var half := Pow2(width - 1);
    QuotientStored(val, divisor, half);
    if val < 0 {
      quotient := Wrap(Sdiv(Wrap(val + 1, half), divisor) - 1, half);
    } else {
      quotient := Sdiv(val, divisor);
    }
    remainder := Wrap(val - Wrap(quotient * divisor, half), half);
    RemainderStored(val, divisor, quotient, half);
    FloorFits(val, divisor, half);
  }

  /** The product does wrap: dividing -128 by 7 in eight bits multiplies -19 by 7. */
  lemma ProductCanWrap()
    ensures Pow2(7) == 128 && Fits(-128, Pow2(7)) && -128 / 7 == -19
    ensures !Fits(-19 * 7, Pow2(7)) && Wrap(-19 * 7, Pow2(7)) == 123
  {
    assert Pow2(4) == 16;
    assert Pow2(7) == 128;
  }
}

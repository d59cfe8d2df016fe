/**
 * IEEE 754 binary32 coordinates. A coordinate is kept as its 32-bit pattern, which is what the
 * wire format carries; its geometric meaning is the exact real number the pattern denotes.
 * Only finite values are coordinates, and negative zero is excluded, so that two coordinates
 * are equal as bit patterns exactly when they are equal as numbers (CoordValueInjective).
 */
module Float32 {
  import opened Bytes

  const SignBit: int := 0x8000_0000
  const FractionRange: int := 0x80_0000   // 2^23
  const InfinityBits: int := 0x7F80_0000  // +inf; every smaller pattern is a finite non-negative value

  function ExponentBits(w: Word32): nat { (w / FractionRange) % 0x100 }

  /** Finite (exponent field not all ones) and not negative zero. */
  predicate IsCoordBits(w: Word32) {
    ExponentBits(w) != 0xFF && w != SignBit
  }

  type Coord = w: Word32 | IsCoordBits(w)

  /** 2 raised to a natural power. */
  function Pow2(k: nat): (r: nat)
    ensures r > 0
  {
    if k == 0 then 1 else 2 * Pow2(k - 1)
  }

  lemma {:induction false} Pow2Add(a: nat, b: nat)
    ensures Pow2(a + b) == Pow2(a) * Pow2(b)
  {
    if b > 0 {
      Pow2Add(a, b - 1);
      Regroup(Pow2(a), Pow2(b - 1));
    }
  }

  lemma Regroup(x: int, y: int)
    ensures 2 * (x * y) == x * (2 * y)
  {
  }

  lemma {:induction false} Pow2Monotone(a: nat, b: nat)
    requires a <= b
    ensures Pow2(a) <= Pow2(b)
    decreases b - a
  {
    if a < b {
      Pow2Monotone(a + 1, b);
    }
  }

  lemma Pow2Of23()
    ensures Pow2(23) == FractionRange
  {
    assert Pow2(2) == 4;
    Pow2Add(2, 2);
    Pow2Add(4, 4);
    Pow2Add(8, 8);
    Pow2Add(16, 4);
    Pow2Add(20, 2);
    assert Pow2(23) == 2 * Pow2(22);
  }

  /**
   * The value of a non-negative finite pattern in units of 2^-149, the smallest subnormal:
   * subnormal when the exponent field is zero, normal otherwise.
   */
  function Units(m: nat): nat
    requires m < InfinityBits
  {
    FieldUnits(m / FractionRange, m % FractionRange)
  }

  /** The value of exponent field `e` and fraction field `f`, in units of 2^-149. */
  function FieldUnits(e: nat, f: nat): nat {
    if e == 0 then f else (f + FractionRange) * Pow2(e - 1)
  }

  /** The value of a non-negative finite pattern: its units times 2^-149. */
  function Magnitude(m: nat): real
    requires m < InfinityBits
  {
    Units(m) as real / Pow2(149) as real
  }

  /** Values with a normal exponent e lie in [2^(e+22), 2^(e+23)) units; subnormal ones below 2^23. */
  lemma FieldUnitsBounds(e: nat, f: nat)
    requires f < FractionRange
    ensures e == 0 ==> FieldUnits(e, f) < Pow2(23)
    ensures e > 0 ==> Pow2(e + 22) <= FieldUnits(e, f) < Pow2(e + 23)
  {
    Pow2Of23();
    if e > 0 {
      var p := Pow2(e - 1);
      Pow2Add(e - 1, 23);
      assert Pow2(e + 22) == FractionRange * p;
      assert Pow2(e + 23) == 2 * Pow2(e + 22);
      ScaleBounds(f, p);
    }
  }

  lemma ScaleBounds(f: nat, p: nat)
    requires f < FractionRange && p > 0
    ensures FractionRange * p <= (f + FractionRange) * p < 2 * (FractionRange * p)
  {
  }

  lemma ScaleStrict(x: int, y: int, p: int)
    requires x < y && p > 0
    ensures x * p < y * p
  {
  }

  /** Larger non-negative patterns denote strictly more units. */
  lemma UnitsStrictlyIncreasing(m1: nat, m2: nat)
    requires m1 < m2 < InfinityBits
    ensures Units(m1) < Units(m2)
  {
    var e1, f1 := m1 / FractionRange, m1 % FractionRange;
    var e2, f2 := m2 / FractionRange, m2 % FractionRange;
    assert m1 == FractionRange * e1 + f1 && m2 == FractionRange * e2 + f2;
    if e1 == e2 {
      if e1 > 0 {
        ScaleStrict(f1 + FractionRange, f2 + FractionRange, Pow2(e1 - 1));
      }
    } else {
      assert e1 < e2;
      FieldUnitsBounds(e1, f1);
      FieldUnitsBounds(e2, f2);
      Pow2Monotone(e1 + 23, e2 + 22);
    }
  }

  lemma DivideStrict(x: real, y: real, d: real)
    requires x < y && d > 0.0
    ensures x / d < y / d
  {
  }

  /** Larger non-negative patterns denote strictly larger numbers. */
  lemma MagnitudeStrictlyIncreasing(m1: nat, m2: nat)
    requires m1 < m2 < InfinityBits
    ensures Magnitude(m1) < Magnitude(m2)
  {
    UnitsStrictlyIncreasing(m1, m2);
    DivideStrict(Units(m1) as real, Units(m2) as real, Pow2(149) as real);
  }

  /** The exact real number a coordinate pattern denotes; its sign is the sign bit, and only +0 denotes zero. */
  function CoordValue(c: Coord): (r: real)
    ensures r == 0.0 <==> c == 0
    ensures r > 0.0 <==> 0 < c < SignBit
  {
    if c < SignBit then
      PositiveBitsRange(c);
      MagnitudePositive(c);
      Magnitude(c)
    else
      NegativeMagnitudeRange(c);
      MagnitudePositive(c - SignBit);
      -Magnitude(c - SignBit)
  }

  lemma MagnitudePositive(m: nat)
    requires m < InfinityBits
    ensures Magnitude(m) >= 0.0
    ensures Magnitude(m) == 0.0 <==> m == 0
  {
    assert Magnitude(0) == 0.0;
    if m > 0 {
      MagnitudeStrictlyIncreasing(0, m);
    }
  }

  /** Without the sign bit, a negative coordinate is a non-zero finite magnitude pattern. */
  lemma NegativeMagnitudeRange(c: Coord)
    requires c >= SignBit
    ensures 0 < c - SignBit < InfinityBits
  {
    var m := c - SignBit;
    var e := m / 0x80_0000;
    assert m == e * 0x80_0000 + m % 0x80_0000;
    assert c == (0x100 + e) * 0x80_0000 + m % 0x80_0000;
    assert c / 0x80_0000 == 0x100 + e;
    assert e < 0x100;
    assert (0x100 + e) % 0x100 == e;
    assert IsCoordBits(c);
    assert ExponentBits(c) == e;
  }

  /** A coordinate without the sign bit is below the infinity pattern. */
  lemma PositiveBitsRange(c: Coord)
    requires c < SignBit
    ensures c < InfinityBits
  {
    var e := c / 0x80_0000;
    assert c == e * 0x80_0000 + c % 0x80_0000;
    assert e < 0x100;
    assert e % 0x100 == e;
    assert IsCoordBits(c);
    assert ExponentBits(c) == e;
  }

  /** Equal numeric values mean equal patterns: bit equality is IEEE value equality on coordinates. */
  lemma CoordValueInjective(c1: Coord, c2: Coord)
    requires CoordValue(c1) == CoordValue(c2)
    ensures c1 == c2
  {
    if c1 < c2 {
      Increasing(c1, c2);
    } else if c2 < c1 {
      Increasing(c2, c1);
    }
  }

  lemma Increasing(c1: Coord, c2: Coord)
    requires c1 < c2
    ensures CoordValue(c1) != CoordValue(c2)
  {
    if c2 < SignBit {
      PositiveBitsRange(c2);
      MagnitudeStrictlyIncreasing(c1, c2);
    } else if c1 >= SignBit {
      NegativeMagnitudeRange(c1);
      NegativeMagnitudeRange(c2);
      MagnitudeStrictlyIncreasing(c1 - SignBit, c2 - SignBit);
    }
  }
}

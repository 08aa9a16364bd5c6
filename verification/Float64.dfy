/** Binary64 floating point: the representable numbers, and rounding to nearest with ties to even. */
module Float64 {

  /** Significands are below 2^53 in size. */
  const LIMIT := 0x20_0000_0000_0000

  /** x * 2^e, for any integer e. */
  function Scale(x: real, e: int): real
    decreases if e >= 0 then e else -e
  {
    if e == 0 then x else if e > 0 then 2.0 * Scale(x, e - 1) else Scale(x, e + 1) / 2.0
  }

  function Abs(x: real): (a: real)
    ensures a >= 0.0 && (a == x || a == -x)
  {
    if x < 0.0 then -x else x
  }

  /** x is m * 2^e, within binary64's significand and exponent ranges. */
  predicate Represents(m: int, e: int, x: real) {
    -LIMIT < m < LIMIT && -1074 <= e <= 971 && x == Scale(m as real, e)
  }

  /** The finite binary64 numbers, subnormal ones included. */
  ghost predicate IsDouble(x: real) {
    exists m: int, e: int :: Represents(m, e, x)
  }

  /** The nearest integer, ties to even. */
  function RoundInt(s: real): (m: int)
    ensures Abs(m as real - s) <= 0.5 && (Abs(m as real - s) == 0.5 ==> m % 2 == 0)
  {
    var f := s.Floor;
    var d := s - f as real;
    if d < 0.5 || (d == 0.5 && f % 2 == 0) then f else f + 1
  }

  /** The exponent from e up at which |q| needs fewer than 54 bits. */
  function Exponent(q: real, e: int): (r: int)
    requires -1074 <= e <= 971
    ensures e <= r <= 971
    ensures r < 971 ==> Abs(q) < Scale(1.0, r + 53)
    ensures r > e ==> Abs(q) >= Scale(1.0, r + 52)
    decreases 971 - e
  {
    if e == 971 || Abs(q) < Scale(1.0, e + 53) then e else Exponent(q, e + 1)
  }

  /** roundTiesToEven (section 4.3.1 of IEEE 754-2019); overflow to infinity is not part of this model. */
  function Round(q: real): real {
    RoundTo(q, Exponent(q, -1074))
  }

  /** The nearest multiple of 2^e. */
  function RoundTo(q: real, e: int): real {
    Scale(RoundInt(Scale(q, -e)) as real, e)
  }

  /** Addition: the exact sum, rounded (section 5.4.1 of IEEE 754-2019). */
  function Add(x: real, y: real): real {
    Round(x + y)
  }

  /** Multiplication: the exact product, rounded. */
  function Multiply(x: real, y: real): real {
    Round(x * y)
  }

  // ---------- scaling ----------

  lemma ScaleNext(x: real, e: int)
    ensures Scale(x, e + 1) == 2.0 * Scale(x, e)
  {
  }

  lemma {:induction false} ScaleSum(x: real, y: real, e: int)
    ensures Scale(x + y, e) == Scale(x, e) + Scale(y, e)
    decreases if e >= 0 then e else -e
  {
    if e > 0 {
      ScaleSum(x, y, e - 1);
    } else if e < 0 {
      ScaleSum(x, y, e + 1);
    }
  }

  lemma {:induction false} ScaleSign(x: real, e: int)
    ensures x > 0.0 <==> Scale(x, e) > 0.0
    ensures x < 0.0 <==> Scale(x, e) < 0.0
    decreases if e >= 0 then e else -e
  {
    if e > 0 {
      ScaleSign(x, e - 1);
    } else if e < 0 {
      ScaleSign(x, e + 1);
    }
  }

  lemma ScaleOrder(x: real, y: real, e: int)
    ensures x <= y <==> Scale(x, e) <= Scale(y, e)
    ensures Scale(y - x, e) == Scale(y, e) - Scale(x, e)
  {
    ScaleSum(x, y - x, e);
    ScaleSign(y - x, e);
  }

  lemma {:induction false} ScaleCompose(x: real, e: int, f: int)
    ensures Scale(Scale(x, e), f) == Scale(x, e + f)
    decreases if f >= 0 then f else -f
  {
    if f > 0 {
      ScaleCompose(x, e, f - 1);
      ScaleNext(x, e + f - 1);
    } else if f < 0 {
      ScaleCompose(x, e, f + 1);
      ScaleNext(x, e + f);
    }
  }

  lemma {:induction false} ScaleGrows(x: real, e: int, f: int)
    requires x >= 0.0 && e <= f
    ensures Scale(x, e) <= Scale(x, f)
    decreases f - e
  {
    if e < f {
      ScaleGrows(x, e, f - 1);
      ScaleNext(x, f - 1);
      ScaleSign(x, f - 1);
    }
  }

  /** m * 2^k over the integers. */
  function Shifted(m: int, k: nat): int {
    if k == 0 then m else 2 * Shifted(m, k - 1)
  }

  lemma {:induction false} ShiftedIsScale(m: int, k: nat)
    ensures Shifted(m, k) as real == Scale(m as real, k)
  {
    if k > 0 {
      ShiftedIsScale(m, k - 1);
    }
  }

  // ---------- rounding ----------

  lemma NearestInt(s: real, k: int)
    ensures Abs(RoundInt(s) as real - s) <= Abs(k as real - s)
  {
    var m := RoundInt(s);
    assert k == m || k >= m + 1 || k <= m - 1;
  }

  lemma ScaleNegated(x: real, e: int)
    ensures Scale(-x, e) == -Scale(x, e)
  {
    ScaleSum(x, -x, e);
    ScaleSum(0.0, 0.0, e);
  }

  lemma {:induction false} ScaleAbs(x: real, e: int)
    ensures Abs(Scale(x, e)) == Scale(Abs(x), e)
  {
    ScaleSign(x, e);
    ScaleNegated(x, e);
  }

  lemma ScaledDistance(s: real, k: real, e: int)
    ensures Abs(Scale(k, e) - Scale(s, e)) == Scale(Abs(k - s), e)
  {
    ScaleOrder(s, k, e);
    ScaleAbs(k - s, e);
  }

  /** No multiple of 2^e is nearer. */
  lemma NearestMultiple(q: real, e: int, k: int)
    ensures Abs(RoundTo(q, e) - q) <= Abs(Scale(k as real, e) - q)
  {
    var s := Scale(q, -e);
    var m := RoundInt(s);
    ScaleCompose(q, -e, e);
    NearestInt(s, k);
    ScaledDistance(s, m as real, e);
    ScaledDistance(s, k as real, e);
    ScaleOrder(Abs(m as real - s), Abs(k as real - s), e);
  }

  lemma {:induction false} ThirteenDoublings(x: real)
    ensures Scale(x, 13) == 8192.0 * x
  {
    assert Scale(x, 3) == 8.0 * x;
    assert Scale(x, 6) == 64.0 * x;
    assert Scale(x, 9) == 512.0 * x;
    assert Scale(x, 12) == 4096.0 * x;
  }

  lemma LimitIsPower()
    ensures LIMIT as real == Scale(1.0, 53)
  {
    ThirteenDoublings(1.0);
    ThirteenDoublings(8192.0);
    ThirteenDoublings(67108864.0);
    ThirteenDoublings(549755813888.0);
    ScaleCompose(1.0, 13, 13);
    ScaleCompose(1.0, 26, 13);
    ScaleCompose(1.0, 39, 13);
    ScaleNext(1.0, 52);
  }

  /** A number with a smaller unit is at most 2^52 units in size. */
  lemma SmallerUnit(m: int, d: int, e: int)
    requires -LIMIT < m < LIMIT && d < e
    ensures Abs(Scale(m as real, d)) <= Scale(1.0, e + 52)
  {
    LimitIsPower();
    ScaleCompose(1.0, 53, d);
    ScaleGrows(1.0, 53 + d, e + 52);
    ScaleAbs(m as real, d);
    ScaleOrder(Abs(m as real), LIMIT as real, d);
  }

  /** A number with the same or a larger unit is a whole number of units. */
  lemma LargerUnit(m: int, d: int, e: int)
    requires d >= e
    ensures Scale(m as real, d) == Scale(Shifted(m, d - e) as real, e)
  {
    ShiftedIsScale(m, d - e);
    ScaleCompose(m as real, d - e, e);
  }

  /** Powers of two from 2^e up are multiples of 2^e. */
  lemma BinadeEdge(q: real, e: int, k: nat)
    ensures Abs(RoundTo(q, e) - q) <= Abs(Scale(1.0, e + k) - q)
    ensures Abs(RoundTo(q, e) - q) <= Abs(-Scale(1.0, e + k) - q)
  {
    var half := Shifted(1, k);
    ShiftedIsScale(1, k);
    ScaleCompose(1.0, k, e);
    NearestMultiple(q, e, half);
    NearestMultiple(q, e, -half);
    ScaleNegated(half as real, e);
  }

  lemma NearestToSmaller(q: real, e: int, m: int, d: int)
    requires -LIMIT < m < LIMIT && d < e && Abs(q) >= Scale(1.0, e + 52)
    ensures Abs(RoundTo(q, e) - q) <= Abs(Scale(m as real, d) - q)
  {
    SmallerUnit(m, d, e);
    BinadeEdge(q, e, 52);
  }

  lemma NearestToLarger(q: real, e: int, m: int, d: int)
    requires d >= e
    ensures Abs(RoundTo(q, e) - q) <= Abs(Scale(m as real, d) - q)
  {
    LargerUnit(m, d, e);
    NearestMultiple(q, e, Shifted(m, d - e));
  }

  /** Round yields a nearest double: nothing representable is closer. */
  lemma RoundIsNearest(q: real, y: real)
    requires IsDouble(y)
    ensures Abs(Round(q) - q) <= Abs(y - q)
  {
    var m: int, d: int :| Represents(m, d, y);
    var e := Exponent(q, -1074);
    if d >= e {
      NearestToLarger(q, e, m, d);
    } else {
      NearestToSmaller(q, e, m, d);
    }
  }

  /** No integer is as near as the rounded one unless the two are a tie, and then the rounded one is even. */
  lemma TieIsEven(s: real, k: int)
    requires k != RoundInt(s) && Abs(k as real - s) == Abs(RoundInt(s) as real - s)
    ensures RoundInt(s) % 2 == 0
  {
    assert k >= RoundInt(s) + 1 || k <= RoundInt(s) - 1;
  }

  lemma TieOnMultiples(q: real, e: int, k: int)
    requires Scale(k as real, e) != RoundTo(q, e) && Abs(Scale(k as real, e) - q) == Abs(RoundTo(q, e) - q)
    ensures RoundInt(Scale(q, -e)) % 2 == 0
  {
    var s := Scale(q, -e);
    ScaleCompose(q, -e, e);
    ScaledDistance(s, RoundInt(s) as real, e);
    ScaledDistance(s, k as real, e);
    ScaleOrder(Abs(k as real - s), Abs(RoundInt(s) as real - s), e);
    ScaleOrder(Abs(RoundInt(s) as real - s), Abs(k as real - s), e);
    TieIsEven(s, k);
  }

  /** A number with a smaller unit that is as near as the rounded value is the power of two where the units change. */
  lemma {:induction false} TieOnSmaller(q: real, e: int, y: real)
    requires Abs(q) >= Scale(1.0, e + 52) && Abs(y) <= Scale(1.0, e + 52) && Abs(y - q) == Abs(RoundTo(q, e) - q)
    ensures y == Scale(1.0, e + 52) || y == -Scale(1.0, e + 52)
  {
    BinadeEdge(q, e, 52);
    ScaleSign(1.0, e + 52);
  }

  /** Whatever double ties with the rounded value is a whole number of units as well. */
  lemma TieUnits(q: real, e: int, m: int, d: int) returns (k: int)
    requires -LIMIT < m < LIMIT && (d < e ==> Abs(q) >= Scale(1.0, e + 52))
    requires Abs(Scale(m as real, d) - q) == Abs(RoundTo(q, e) - q)
    ensures Scale(m as real, d) == Scale(k as real, e)
  {
    if d >= e {
      LargerUnit(m, d, e);
      k := Shifted(m, d - e);
    } else {
      SmallerUnit(m, d, e);
      TieOnSmaller(q, e, Scale(m as real, d));
      k := Shifted(1, 52);
      ShiftedIsScale(1, 52);
      ScaleCompose(1.0, 52, e);
      if Scale(m as real, d) != Scale(1.0, e + 52) {
        ScaleNegated(k as real, e);
        k := -k;
      }
    }
  }

  /**
   Ties go to even: when another double is as near to q as the rounded value, the rounded value's significand, in the
   units of q's last place, is even.
   */
  lemma {:induction false} TiesToEven(q: real, y: real)
    requires IsDouble(y) && y != Round(q) && Abs(y - q) == Abs(Round(q) - q)
    ensures Round(q) == Scale(RoundInt(Scale(q, -Exponent(q, -1074))) as real, Exponent(q, -1074))
    ensures RoundInt(Scale(q, -Exponent(q, -1074))) % 2 == 0
  {
    var m: int, d: int :| Represents(m, d, y);
    var e := Exponent(q, -1074);
    var k := TieUnits(q, e, m, d);
    TieOnMultiples(q, e, k);
  }

  /** Far enough from overflow: |q| is below 2^1023. */
  predicate InRange(q: real) {
    Exponent(q, -1074) < 971
  }

  lemma SmallIsInRange(q: real)
    requires Abs(q) <= LIMIT as real
    ensures InRange(q)
  {
    var e := Exponent(q, -1074);
    if e > 1 {
      LimitIsPower();
      ScaleGrows(1.0, 54, e + 52);
      ScaleNext(1.0, 53);
    }
  }

  lemma SignificandFits(q: real, e: int)
    requires Abs(q) < Scale(1.0, e + 53)
    ensures -LIMIT <= RoundInt(Scale(q, -e)) <= LIMIT
  {
    LimitIsPower();
    ScaleCompose(1.0, e + 53, -e);
    ScaleAbs(q, -e);
    ScaleOrder(Abs(q), Scale(1.0, e + 53), -e);
  }

  /** ... and it is itself a double, when q is in range. */
  lemma RoundIsDouble(q: real)
    requires InRange(q)
    ensures IsDouble(Round(q))
  {
    var e := Exponent(q, -1074);
    var m := RoundInt(Scale(q, -e));
    SignificandFits(q, e);
    if -LIMIT < m < LIMIT {
      assert Represents(m, e, Round(q));
    } else {
      var half := m / 2;
      assert m == 2 * half;
      ScaleNext(half as real, 0);
      ScaleCompose(half as real, 1, e);
      assert Represents(half, e + 1, Round(q));
    }
  }

  /** Rounding keeps every double. */
  lemma RoundKeepsDoubles(y: real)
    requires IsDouble(y)
    ensures Round(y) == y
  {
    RoundIsNearest(y, y);
  }

  /** Integers up to 2^53 are doubles. */
  lemma SmallIntegersAreDoubles(k: int)
    requires -LIMIT <= k <= LIMIT
    ensures IsDouble(k as real)
  {
    if -LIMIT < k < LIMIT {
      assert Represents(k, 0, k as real);
    } else {
      var half := k / 2;
      assert Scale(half as real, 1) == k as real by {
        assert Scale(half as real, 0) == half as real;
      }
      assert Represents(half, 1, k as real);
    }
  }

  /** Rounding is monotone. */
  lemma RoundMonotone(p: real, q: real)
    requires p <= q && InRange(p) && InRange(q)
    ensures Round(p) <= Round(q)
  {
    RoundIsDouble(p);
    RoundIsDouble(q);
    RoundIsNearest(p, Round(q));
    RoundIsNearest(q, Round(p));
  }

  /** Adding integers is exact while the sum stays within 2^53. */
  lemma AddExact(x: int, y: int)
    requires -LIMIT <= x + y <= LIMIT
    ensures Add(x as real, y as real) == (x + y) as real
  {
    SmallIntegersAreDoubles(x + y);
    RoundKeepsDoubles((x + y) as real);
  }

  /** Above 2^53 and below 2^54 the doubles are the even integers; an odd one rounds to a multiple of 4. */
  function NearestEven(x: int): int {
    if x % 2 == 0 then x else 2 * (x / 2 + x / 2 % 2)
  }

  lemma {:induction false} UnitIsTwo(q: real)
    requires LIMIT as real <= q < 2.0 * LIMIT as real
    ensures Exponent(q, -1074) == 1
  {
    var r := Exponent(q, -1074);
    LimitIsPower();
    ScaleNext(1.0, 53);
    if r <= 0 {
      ScaleGrows(1.0, r + 53, 53);
    } else if r >= 2 {
      ScaleGrows(1.0, 54, r + 52);
    }
  }

  lemma RoundToTwos(q: real)
    ensures RoundTo(q, 1) == (2 * RoundInt(q / 2.0)) as real
  {
    assert Scale(q, -1) == q / 2.0;
  }

  lemma RoundWhole(h: int)
    ensures RoundInt(h as real) == h
    ensures RoundInt(h as real + 0.5) == h + h % 2
  {
    assert (h as real).Floor == h;
    assert (h as real + 0.5).Floor == h;
  }

  lemma Halved(x: int, h: int, rest: int)
    requires x == 2 * h + rest
    ensures x as real / 2.0 == h as real + rest as real / 2.0
  {
  }

  lemma HalfToEven(x: int)
    ensures 2 * RoundInt(x as real / 2.0) == NearestEven(x)
  {
    var h := x / 2;
    RoundWhole(h);
    if x % 2 == 0 {
      Halved(x, h, 0);
    } else {
      Halved(x, h, 1);
    }
  }

  lemma RoundAboveLimit(z: int, even: int)
    requires LIMIT <= z < 2 * LIMIT && 2 * RoundInt(z as real / 2.0) == even
    ensures Round(z as real) == even as real
  {
    UnitIsTwo(z as real);
    RoundToTwos(z as real);
  }

  lemma AddAboveLimit(x: int, y: int)
    requires LIMIT <= x + y < 2 * LIMIT
    ensures Add(x as real, y as real) == NearestEven(x + y) as real
  {
    hide Round, NearestEven;
    assert x as real + y as real == (x + y) as real;
    HalfToEven(x + y);
    RoundAboveLimit(x + y, NearestEven(x + y));
  }

  /** What a non-negative integer below 2^54 rounds to. */
  function NearestDouble(z: int): int {
    if z <= LIMIT then z else NearestEven(z)
  }

  lemma EvenIsDouble(z: int, half: int)
    requires z == 2 * half
    ensures NearestDouble(z) == z
  {
  }

  lemma AddIntegers(x: int, y: int)
    requires 0 <= x + y < 2 * LIMIT
    ensures Add(x as real, y as real) == NearestDouble(x + y) as real
  {
    if x + y <= LIMIT {
      AddExact(x, y);
    } else {
      AddAboveLimit(x, y);
    }
  }

  /** Multiplying integers is exact while the product stays within 2^53. */
  lemma MultiplyExact(x: int, y: int)
    requires -LIMIT <= x * y <= LIMIT
    ensures Multiply(x as real, y as real) == (x * y) as real
  {
    assert x as real * y as real == (x * y) as real;
    SmallIntegersAreDoubles(x * y);
    RoundKeepsDoubles((x * y) as real);
  }

  predicate IsInt(x: real) {
    x.Floor as real == x
  }

  lemma FloorOfInt(k: int)
    ensures (k as real).Floor == k
  {
  }

  lemma IntSum(x: real, y: real)
    requires IsInt(x) && IsInt(y)
    ensures IsInt(x + y)
  {
    var k := x.Floor + y.Floor;
    assert x + y == k as real;
    FloorOfInt(k);
  }

  lemma AddWhole(x: real, y: real)
    requires IsInt(x) && IsInt(y) && 0.0 <= x + y <= LIMIT as real
    ensures Add(x, y) == x + y && IsInt(x + y)
  {
    IntSum(x, y);
    AddExact(x.Floor, y.Floor);
  }
}

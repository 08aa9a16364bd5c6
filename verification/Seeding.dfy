/** The buffers the two programs seed, and their sums. */
module Seeding {
  import opened Float64
  import opened RingSpec

  // ---------- the stepped simulator ----------

  /** GPU i's initial block j. */
  function SeedValue(i: nat, j: nat): int {
    (i + 1) * 10 + (j + 1)
  }

  function SeedBuffer(n: nat, i: nat): (buf: seq<real>)
    ensures |buf| == n
  {
    seq(n, j requires 0 <= j < n => SeedValue(i, j) as real)
  }

  function Seeds(n: nat): (bufs: Buffers)
    ensures Square(bufs) && |bufs| == n
  {
    seq(n, i requires 0 <= i < n => SeedBuffer(n, i))
  }

  lemma NextSeed(k: nat, x: nat)
    ensures 5 * (k * (k + 1)) + k * x == 5 * ((k - 1) * k) + (k - 1) * x + (10 * k + x)
  {
  }

  lemma {:induction false} SeedColumn(n: nat, j: nat, k: nat)
    requires j < n && k <= n
    ensures ColumnSum(Seeds(n), j, 0, k) == (5 * (k * (k + 1)) + k * (j + 1)) as real
  {
    if k > 0 {
      SeedColumn(n, j, k - 1);
      assert Seeds(n)[k - 1][j] == SeedValue(k - 1, j) as real;
      NextSeed(k, j + 1);
    }
  }

  /** The AllReduce answer for the seeded data. */
  lemma SeedTotal(n: nat, j: nat)
    requires j < n
    ensures Total(Seeds(n), j) == (5 * n * (n + 1) + n * (j + 1)) as real
  {
    SeedColumn(n, j, n);
    assert 5 * n * (n + 1) == 5 * (n * (n + 1));
  }

  lemma BoundedProduct(x: nat, y: nat, t: nat)
    requires x <= y
    ensures x * t <= y * t
  {
    assert (y - x) * t >= 0;
  }

  lemma WideProduct(n: int)
    ensures 5 * n * (n + 1) == 5 * (n * n) + 5 * n
  {
  }

  lemma SeedBound(n: nat, j: nat)
    requires j < n
    ensures 5 * n * (n + 1) + n * (j + 1) <= 6 * (n * n) + 5 * n
  {
    WideProduct(n);
    BoundedProduct(j + 1, n, n);
    assert n * (j + 1) == (j + 1) * n;
  }

  lemma SeedTotalBound(n: nat, j: nat)
    requires j < n
    ensures Total(Seeds(n), j) <= (6 * (n * n) + 5 * n) as real
  {
    hide Total;
    SeedTotal(n, j);
    SeedBound(n, j);
  }

  // ---------- the free-running program ----------

  function Ten(k: nat): (p: nat)
    ensures p >= 1
  {
    if k == 0 then 1 else 10 * Ten(k - 1)
  }

  function DecadeValue(i: nat, j: nat): nat {
    (j + 1) * Ten(i)
  }

  /** Block j of GPU i is (j+1) * 10^i. */
  function Decades(n: nat): (bufs: Buffers)
    ensures Square(bufs) && |bufs| == n
  {
    seq(n, i requires 0 <= i < n => seq(n, j requires 0 <= j < n => DecadeValue(i, j) as real))
  }

  lemma NextDecade(x: int, t: int)
    ensures x * (10 * t - 1) == x * (t - 1) + 9 * (x * t)
  {
  }

  /** Nine times a sum of decades, as an integer. */
  lemma {:induction false} DecadeColumn(n: nat, j: nat, k: nat) returns (sum: int)
    requires j < n && k <= n
    ensures ColumnSum(Decades(n), j, 0, k) == sum as real && 9 * sum == (j + 1) * (Ten(k) - 1)
  {
    if k == 0 {
      sum := 0;
    } else {
      var before := DecadeColumn(n, j, k - 1);
      sum := before + DecadeValue(k - 1, j);
      assert Decades(n)[k - 1][j] == DecadeValue(k - 1, j) as real;
      NextDecade(j + 1, Ten(k - 1));
    }
  }

  lemma {:induction false} TenGrows(a: nat, b: nat)
    requires a <= b
    ensures Ten(a) <= Ten(b)
  {
    if a < b {
      TenGrows(a, b - 1);
    }
  }

  lemma FifteenDigits()
    ensures Ten(15) == 1_000_000_000_000_000
  {
    assert Ten(3) == 1_000;
    assert Ten(6) == 1_000_000;
    assert Ten(9) == 1_000_000_000;
    assert Ten(12) == 1_000_000_000_000;
  }

  lemma FifteenRows(total: int, x: nat, t: nat)
    requires 9 * total == x * t && x <= 15 && t < 1_000_000_000_000_000
    ensures total <= LIMIT
  {
    BoundedProduct(x, 15, t);
  }

  lemma DecadeTotalBound(n: nat, j: nat)
    requires j < n <= 15
    ensures Total(Decades(n), j) <= LIMIT as real
  {
    var sum := DecadeColumn(n, j, n);
    var t: nat := Ten(n) - 1;
    TenGrows(n, 15);
    FifteenDigits();
    FifteenRows(sum, j + 1, t);
  }

  /** The entry is an integer a double represents exactly. */
  predicate ExactSeed(i: nat, j: nat) {
    DecadeValue(i, j) <= LIMIT
  }

  lemma FewAreExact(i: nat, j: nat)
    requires i < 15 && j < 15
    ensures ExactSeed(i, j)
  {
    TenGrows(i + 1, 15);
    FifteenDigits();
    BoundedProduct(j + 1, 15, Ten(i));
  }

  /** 10^i as the program comes to it, multiplying in binary64. */
  function RoundedTen(i: nat): real {
    if i == 0 then 1.0 else Multiply(RoundedTen(i - 1), 10.0)
  }

  function Five(k: nat): (p: nat)
    ensures p >= 1
  {
    if k == 0 then 1 else 5 * Five(k - 1)
  }

  lemma ScaledFive(x: real, e: nat)
    ensures 10.0 * Scale(x, e) == Scale(5.0 * x, e + 1)
  {
    ScaleSum(x, x, e);
    ScaleSum(2.0 * x, 2.0 * x, e);
    ScaleSum(4.0 * x, x, e);
    ScaleNext(5.0 * x, e);
  }

  lemma {:induction false} TenIsScaled(k: nat)
    ensures Ten(k) as real == Scale(Five(k) as real, k)
  {
    if k > 0 {
      TenIsScaled(k - 1);
      ScaledFive(Five(k - 1) as real, k - 1);
    }
  }

  lemma {:induction false} FiveGrows(a: nat, b: nat)
    requires a <= b
    ensures Five(a) <= Five(b)
  {
    if a < b {
      FiveGrows(a, b - 1);
    }
  }

  lemma FiveTwentyTwo()
    ensures Five(22) == 2_384_185_791_015_625
  {
    assert Five(4) == 625;
    assert Five(8) == 390_625;
    assert Five(12) == 244_140_625;
    assert Five(16) == 152_587_890_625;
    assert Five(20) == 95_367_431_640_625;
  }

  /** The powers of ten up to 10^22 are doubles. */
  lemma {:induction false} TenIsDouble(k: nat)
    requires k <= 22
    ensures IsDouble(Ten(k) as real)
  {
    TenIsScaled(k);
    FiveGrows(k, 22);
    FiveTwentyTwo();
    assert Represents(Five(k), k, Ten(k) as real);
  }

  lemma TimesTen(x: nat)
    requires IsDouble((10 * x) as real)
    ensures Multiply(x as real, 10.0) == (10 * x) as real
  {
    hide Round, IsDouble;
    assert x as real * 10.0 == (10 * x) as real;
    RoundKeepsDoubles((10 * x) as real);
  }

  /** So up to there the program's scale is not rounded. */
  lemma {:induction false} ScaleIsTen(k: nat)
    requires k <= 22
    ensures RoundedTen(k) == Ten(k) as real
  {
    hide Multiply, IsDouble;
    if k > 0 {
      ScaleIsTen(k - 1);
      TenIsDouble(k);
      TimesTen(Ten(k - 1));
    }
  }

  lemma {:induction false} ExactRows(i: nat, j: nat)
    requires ExactSeed(i, j)
    ensures i <= 22
  {
    if i > 22 {
      FifteenDigits();
      TenGrows(16, i);
      BoundedProduct(1, j + 1, Ten(i));
    }
  }

  /** What the program seeds block j of GPU i with. */
  function RoundedSeed(i: nat, j: nat): real {
    Multiply((j + 1) as real, RoundedTen(i))
  }

  lemma ProductAsReal(x: int, y: int)
    ensures (x * y) as real == x as real * y as real
  {
  }

  /** Up to row 22 that is (j+1) * 10^i rounded once ... */
  lemma SeedIsRounded(i: nat, j: nat)
    requires i <= 22
    ensures RoundedSeed(i, j) == Round(DecadeValue(i, j) as real)
  {
    hide Round, RoundedTen, Ten;
    ScaleIsTen(i);
    ProductAsReal(j + 1, Ten(i));
  }

  /** ... and where that is at most 2^53 it is not rounded. */
  lemma ExactSeedIsExact(i: nat, j: nat)
    requires ExactSeed(i, j)
    ensures RoundedSeed(i, j) == DecadeValue(i, j) as real
  {
    hide Round, RoundedSeed, IsDouble;
    ExactRows(i, j);
    SeedIsRounded(i, j);
    ExactIsDouble(i, j);
    RoundKeepsDoubles(DecadeValue(i, j) as real);
  }

  lemma ExactIsDouble(i: nat, j: nat)
    requires ExactSeed(i, j)
    ensures IsDouble(DecadeValue(i, j) as real)
  {
    SmallIntegersAreDoubles(DecadeValue(i, j));
  }

  /** Multiplying scale up in binary64. */
  method PowerOfTen(i: nat) returns (scale: real)
    ensures scale == RoundedTen(i)
  {
    scale := 1.0;
    for k := 0 to i
      invariant scale == RoundedTen(k)
    {
      scale := Multiply(scale, 10.0);
    }
  }

  method SeedRow(n: nat, i: nat) returns (row: seq<real>)
    ensures |row| == n && forall j :: 0 <= j < n ==> row[j] == RoundedSeed(i, j)
  {
    var scale := PowerOfTen(i);
    row := [];
    for j := 0 to n
      invariant |row| == j && forall k :: 0 <= k < j ==> row[k] == RoundedSeed(i, k)
    {
      row := row + [Multiply((j + 1) as real, scale)];
    }
  }

  /** Every entry is what the program's products in binary64 come to. */
  predicate Seeded(gpuData: Buffers)
    requires Square(gpuData)
  {
    forall i, j :: 0 <= i < |gpuData| && 0 <= j < |gpuData| ==> gpuData[i][j] == RoundedSeed(i, j)
  }

  /** Every entry that a double represents exactly is what the program intends. */
  predicate SeededExactly(gpuData: Buffers)
    requires Square(gpuData)
  {
    forall i, j :: 0 <= i < |gpuData| && 0 <= j < |gpuData| && ExactSeed(i, j) ==>
      gpuData[i][j] == DecadeValue(i, j) as real
  }

  lemma SeededIsExact(gpuData: Buffers)
    requires Square(gpuData) && Seeded(gpuData)
    ensures SeededExactly(gpuData)
  {
    hide RoundedSeed, DecadeValue;
    forall i, j | 0 <= i < |gpuData| && 0 <= j < |gpuData| && ExactSeed(i, j)
      ensures gpuData[i][j] == DecadeValue(i, j) as real
    {
      ExactSeedIsExact(i, j);
    }
  }

  /** The program's seeding loops: (j+1) * 10^i, rounded once up to 23 GPUs, and exact wherever it is at most 2^53. */
  method SeedData(n: nat) returns (gpuData: Buffers)
    ensures Square(gpuData) && |gpuData| == n && Seeded(gpuData) && SeededExactly(gpuData)
    ensures forall i, j :: 0 <= i < n && 0 <= j < n && i <= 22 ==> gpuData[i][j] == Round(DecadeValue(i, j) as real)
  {
    hide Round, RoundedSeed, DecadeValue, SeededExactly;
    gpuData := [];
    for i := 0 to n
      invariant |gpuData| == i && forall k :: 0 <= k < i ==> |gpuData[k]| == n
      invariant forall k, j :: 0 <= k < i && 0 <= j < n ==> gpuData[k][j] == RoundedSeed(k, j)
    {
      var row := SeedRow(n, i);
      gpuData := gpuData + [row];
    }
    SeededIsExact(gpuData);
    forall i, j | 0 <= i < n && 0 <= j < n && i <= 22
      ensures gpuData[i][j] == Round(DecadeValue(i, j) as real)
    {
      SeedIsRounded(i, j);
    }
  }
}

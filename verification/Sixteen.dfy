/** Where the powers-of-ten seeds first round: block 8 of a ring of 16 GPUs. */
module Sixteen {
  import opened Arithmetic
  import opened Exactness
  import opened Float64
  import opened Modular
  import opened RingSpec
  import opened Seeding

  lemma SixteenDigits()
    ensures Ten(8) == 100_000_000 && Ten(15) == 1_000_000_000_000_000 && Ten(16) == 10_000_000_000_000_000
  {
    FifteenDigits();
    assert Ten(4) == 10_000;
    assert Ten(8) == 100_000_000;
  }

  lemma SevenDigits()
    ensures Ten(1) == 10 && Ten(7) == 10_000_000
  {
    assert Ten(4) == 10_000;
  }

  lemma {:induction false} NineTimes(init: Buffers, i: nat)
    requires Square(init) && SeededExactly(init) && |init| == 16 && i < 16
    ensures init[i][8] == (9 * Ten(i)) as real && Ten(i + 1) == 10 * Ten(i)
  {
    SixteenDigits();
    TenGrows(i, 15);
    assert ExactSeed(i, 8);
  }

  // ---------- from GPU 0 ----------

  lemma {:induction false} NextSum(init: Buffers, b: nat, k: nat, x: int, y: int)
    requires Square(init) && b < |init| && 0 < k <= |init| && 0 <= x + y < 2 * LIMIT
    requires RunningSum(Rounded, init, b, k - 1) == x as real && init[k - 1][b] == y as real
    ensures RunningSum(Rounded, init, b, k) == NearestDouble(x + y) as real
  {
    hide Add;
    AddIntegers(x, y);
  }

  lemma {:induction false} Nines(init: Buffers, k: nat, t: nat)
    requires Square(init) && SeededExactly(init) && |init| == 16 && k <= 15 && t == Ten(k)
    ensures RunningSum(Rounded, init, 8, k) == (t - 1) as real
  {
    hide Add;
    if k > 0 {
      var less := Ten(k - 1);
      Nines(init, k - 1, less);
      NineTimes(init, k - 1);
      SixteenDigits();
      TenGrows(k, 15);
      NextSum(init, 8, k, less - 1, 9 * less);
    }
  }

  lemma {:induction false} SequentialSum(init: Buffers)
    requires Square(init) && SeededExactly(init) && |init| == 16
    ensures RunningSum(Rounded, init, 8, 16) == 10_000_000_000_000_000.0
  {
    hide Add;
    SixteenDigits();
    Nines(init, 15, 1_000_000_000_000_000);
    NineTimes(init, 15);
    NextSum(init, 8, 16, 999_999_999_999_999, 9_000_000_000_000_000);
  }

  // ---------- in ring order ----------

  lemma {:induction false} NextArc(init: Buffers, b: nat, d: nat, own: int, rest: int)
    requires Square(init) && b < |init| && 0 < d < |init| && 0 <= own + rest < 2 * LIMIT
    requires ArcSum(Rounded, init, b, d - 1) == rest as real && init[Wrap(|init|, b + d)][b] == own as real
    ensures ArcSum(Rounded, init, b, d) == NearestDouble(own + rest) as real
  {
    hide Add;
    AddIntegers(own, rest);
  }

  /** The GPUs from 8 up to 14 need no rounding. */
  lemma {:induction false} UpperArc(init: Buffers, d: nat, t: nat)
    requires Square(init) && SeededExactly(init) && |init| == 16 && d <= 6 && t == Ten(d + 9)
    ensures ArcSum(Rounded, init, 8, d) == (t - 100_000_000) as real
  {
    hide Add;
    var less := Ten(d + 8);
    NineTimes(init, d + 8);
    SixteenDigits();
    if d > 0 {
      UpperArc(init, d - 1, less);
      TenGrows(d + 9, 15);
      TenGrows(8, d + 8);
      NextArc(init, 8, d, 9 * less, less - 100_000_000);
    }
  }

  /** GPU 15 takes the sum beyond 2^53. */
  lemma {:induction false} ArcToFifteen(init: Buffers)
    requires Square(init) && SeededExactly(init) && |init| == 16
    ensures ArcSum(Rounded, init, 8, 7) == 9_999_999_900_000_000.0
  {
    hide Add;
    SixteenDigits();
    UpperArc(init, 6, 1_000_000_000_000_000);
    NineTimes(init, 15);
    NextArc(init, 8, 7, 9_000_000_000_000_000, 999_999_900_000_000);
  }

  /** After it only GPU 0's single digit is rounded away. */
  lemma {:induction false} ArcToZero(init: Buffers)
    requires Square(init) && SeededExactly(init) && |init| == 16
    ensures ArcSum(Rounded, init, 8, 8) == 9_999_999_900_000_008.0
  {
    hide Add;
    ArcToFifteen(init);
    NineTimes(init, 0);
    NextArc(init, 8, 8, 9, 9_999_999_900_000_000);
  }

  lemma {:induction false} NextLower(init: Buffers, d: nat, t: int, less: int)
    requires Square(init) && |init| == 16 && 8 < d <= 15 && 1 <= less <= 1_000_000 && t == 10 * less
    requires ArcSum(Rounded, init, 8, d - 1) == (9_999_999_900_000_000 + t - 2) as real
    requires init[d - 8][8] == (9 * t) as real
    ensures ArcSum(Rounded, init, 8, d) == (9_999_999_900_000_000 + 10 * t - 2) as real
  {
    hide Add;
    var rest := 9_999_999_900_000_000 + t - 2;
    EvenIsDouble(9 * t + rest, 4_999_999_950_000_000 + 50 * less - 1);
    NextArc(init, 8, d, 9 * t, rest);
  }

  lemma {:induction false} LowerArc(init: Buffers, d: nat, t: nat)
    requires Square(init) && SeededExactly(init) && |init| == 16 && 8 <= d <= 15 && t == Ten(d - 8)
    ensures ArcSum(Rounded, init, 8, d) == (9_999_999_900_000_000 + 10 * t - 2) as real
  {
    hide Add;
    if d == 8 {
      ArcToZero(init);
    } else {
      var less := Ten(d - 9);
      LowerArc(init, d - 1, less);
      NineTimes(init, d - 8);
      SevenDigits();
      TenGrows(d - 8, 7);
      NextLower(init, d, t, less);
    }
  }

  /**
   Block 8 is 9 * 10^i on GPU i. Added up from GPU 0 it comes to 10^16, and in ring order to 10^16 - 2, so the program's
   comparison fails with 16 GPUs.
   */
  lemma {:induction false} SixteenGPUs(init: Buffers)
    requires Square(init) && SeededExactly(init) && |init| == 16
    ensures RunningSum(Rounded, init, 8, 16) == 10_000_000_000_000_000.0
    ensures FullArc(Rounded, init, 8) == 9_999_999_999_999_998.0
    ensures !OrdersAgree(Rounded, init)
  {
    hide Add;
    SequentialSum(init);
    SevenDigits();
    LowerArc(init, 15, 10_000_000);
    assert FullArc(Rounded, init, 8) != RunningSum(Rounded, init, 8, 16);
  }
}

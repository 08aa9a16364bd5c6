/** When binary64 arithmetic does not round: on whole numbers with totals of at most 2^53. */
module Exactness {
  import opened Arithmetic
  import opened Float64
  import opened HeapTree
  import opened Modular
  import opened RingSpec
  import opened Seeding
  import opened TreeSpec

  predicate NonNegative(init: Buffers)
    requires Square(init)
  {
    forall i, b :: 0 <= i < |init| && 0 <= b < |init| ==> init[i][b] >= 0.0
  }

  predicate Integral(init: Buffers)
    requires Square(init)
  {
    forall i, b :: 0 <= i < |init| && 0 <= b < |init| ==> IsInt(init[i][b])
  }

  /** Data on which nothing needs rounding. */
  predicate Moderate(init: Buffers)
    requires Square(init)
  {
    && NonNegative(init) && Integral(init)
    && forall b :: 0 <= b < |init| ==> Total(init, b) <= LIMIT as real
  }

  predicate Whole(x: real) {
    IsInt(x) && 0.0 <= x <= LIMIT as real
  }

  lemma SumWhole(arith: Arith, x: real, y: real)
    requires Whole(x) && Whole(y) && x + y <= LIMIT as real
    ensures Sum(arith, x, y) == x + y && Whole(x + y)
  {
    hide Add;
    AddWhole(x, y);
  }

  // ---------- order ----------

  lemma {:induction false} ColumnGrows(init: Buffers, b: nat, lo: nat, hi: nat)
    requires Square(init) && NonNegative(init) && b < |init| && lo <= hi <= |init|
    ensures 0.0 <= ColumnSum(init, b, 0, lo) <= ColumnSum(init, b, 0, hi)
    decreases hi
  {
    if lo < hi {
      ColumnGrows(init, b, lo, hi - 1);
    } else if hi > 0 {
      ColumnGrows(init, b, hi - 1, hi - 1);
    }
  }

  lemma {:induction false} ArcGrows(init: Buffers, b: nat, d: nat, e: nat)
    requires Square(init) && NonNegative(init) && b < |init| && d <= e < |init|
    ensures init[Wrap(|init|, b + d)][b] <= ArcSum(Exact, init, b, d) <= ArcSum(Exact, init, b, e)
    ensures ArcSum(Exact, init, b, d) >= 0.0
    decreases e
  {
    if d < e {
      ArcGrows(init, b, d, e - 1);
    } else if d > 0 {
      ArcGrows(init, b, d - 1, d - 1);
    }
  }

  lemma CellWithin(init: Buffers, r: nat, i: nat, b: nat)
    requires Square(init) && NonNegative(init) && i < |init| && b < |init|
    ensures 0.0 <= Cell(Exact, init, r, i, b) <= Total(init, b)
  {
    ArcGrows(init, b, Dist(|init|, b, i), |init| - 1);
    FullArcIsTotal(init, b);
  }

  lemma {:induction false} SubtreeNonNegative(init: Buffers, b: nat, g: nat)
    requires Square(init) && NonNegative(init) && b < |init|
    ensures SubtreeSum(Exact, init, b, g) >= 0.0
    ensures g < |init| ==> SubtreeSum(Exact, init, b, g) >= init[g][b]
    decreases |init| - g
  {
    if g < |init| {
      SubtreeNonNegative(init, b, 2 * g + 1);
      SubtreeNonNegative(init, b, 2 * g + 2);
    }
  }

  lemma {:induction false} SubtreeWithin(init: Buffers, b: nat, g: nat)
    requires Square(init) && NonNegative(init) && b < |init| && g < |init|
    ensures 0.0 <= SubtreeSum(Exact, init, b, g) <= Total(init, b)
    decreases g
  {
    SubtreeNonNegative(init, b, g);
    if g == 0 {
      RootSum(init, b);
    } else {
      var p := Parent(g);
      SubtreeWithin(init, b, p);
      SubtreeNonNegative(init, b, 2 * p + 1);
      SubtreeNonNegative(init, b, 2 * p + 2);
    }
  }

  lemma TreeCellWithin(init: Buffers, s: nat, g: nat, b: nat)
    requires Square(init) && NonNegative(init) && g < |init| && b < |init|
    ensures 0.0 <= TreeCell(Exact, init, s, g, b) <= Total(init, b)
  {
    SubtreeWithin(init, b, g);
    SubtreeWithin(init, b, 0);
    SubtreeNonNegative(init, b, g);
  }

  // ---------- whole numbers ----------

  lemma {:induction false} ArcIsInt(init: Buffers, b: nat, d: nat)
    requires Square(init) && Integral(init) && b < |init| && d < |init|
    ensures IsInt(ArcSum(Exact, init, b, d))
  {
    var last := init[Wrap(|init|, b + d)][b];
    if d > 0 {
      ArcIsInt(init, b, d - 1);
      IntSum(last, ArcSum(Exact, init, b, d - 1));
    }
  }

  lemma {:induction false} ColumnIsInt(init: Buffers, b: nat, hi: nat)
    requires Square(init) && Integral(init) && b < |init| && hi <= |init|
    ensures IsInt(ColumnSum(init, b, 0, hi))
  {
    if hi > 0 {
      ColumnIsInt(init, b, hi - 1);
      IntSum(ColumnSum(init, b, 0, hi - 1), init[hi - 1][b]);
    }
  }

  lemma {:induction false} SubtreeIsInt(init: Buffers, b: nat, g: nat)
    requires Square(init) && Integral(init) && b < |init|
    ensures IsInt(SubtreeSum(Exact, init, b, g))
    decreases |init| - g
  {
    if g < |init| {
      SubtreeIsInt(init, b, 2 * g + 1);
      SubtreeIsInt(init, b, 2 * g + 2);
      IntSum(init[g][b], SubtreeSum(Exact, init, b, 2 * g + 1));
      IntSum(init[g][b] + SubtreeSum(Exact, init, b, 2 * g + 1), SubtreeSum(Exact, init, b, 2 * g + 2));
    }
  }

  lemma {:induction false} SubtreeIsWhole(init: Buffers, b: nat, g: nat)
    requires Square(init) && Moderate(init) && b < |init|
    ensures Whole(SubtreeSum(Exact, init, b, g))
  {
    SubtreeIsInt(init, b, g);
    if g < |init| {
      SubtreeWithin(init, b, g);
    } else {
      FloorOfInt(0);
    }
  }

  lemma AttachWhole(n: nat, c: nat, sum: real, x: real)
    requires Whole(sum) && Whole(x) && (c < n ==> sum + x <= LIMIT as real)
    ensures Attach(Rounded, n, c, sum, x) == Attach(Exact, n, c, sum, x)
    ensures Whole(Attach(Exact, n, c, sum, x))
  {
    hide Add;
    if c < n {
      SumWhole(Rounded, sum, x);
    }
  }

  lemma CellIsInt(init: Buffers, r: nat, i: nat, b: nat)
    requires Square(init) && Integral(init) && i < |init| && b < |init|
    ensures IsInt(Cell(Exact, init, r, i, b))
  {
    ArcIsInt(init, b, Dist(|init|, b, i));
    ArcIsInt(init, b, |init| - 1);
  }

  lemma TreeCellIsInt(init: Buffers, s: nat, g: nat, b: nat)
    requires Square(init) && Integral(init) && g < |init| && b < |init|
    ensures IsInt(TreeCell(Exact, init, s, g, b))
  {
    SubtreeIsInt(init, b, g);
    SubtreeIsInt(init, b, 0);
  }

  // ---------- every value of a run ----------

  /** Every value a ring run ever holds is a whole number between 0 and its column's total. */
  lemma {:induction false} RingWithin(init: Buffers, r: nat, i: nat, b: nat)
    requires Square(init) && NonNegative(init) && Integral(init) && i < |init| && b < |init| && r <= Rounds(|init|)
    ensures IsInt(RingAt(Exact, init, r)[i][b]) && 0.0 <= RingAt(Exact, init, r)[i][b] <= Total(init, b)
  {
    RingInPhase(Exact, init, r);
    assert RingAt(Exact, init, r)[i][b] == Cell(Exact, init, r, i, b);
    CellWithin(init, r, i, b);
    CellIsInt(init, r, i, b);
  }

  /** Every value a tree run ever holds is a whole number between 0 and its column's total. */
  lemma {:induction false} TreeWithin(init: Buffers, s: nat, g: nat, b: nat)
    requires Square(init) && NonNegative(init) && Integral(init) && g < |init| && b < |init|
    requires s <= 2 * MaxDepth(|init|)
    ensures IsInt(TreeAt(Exact, init, s)[g][b]) && 0.0 <= TreeAt(Exact, init, s)[g][b] <= Total(init, b)
  {
    TreeInPhase(Exact, init, s);
    assert TreeAt(Exact, init, s)[g][b] == TreeCell(Exact, init, s, g, b);
    TreeCellWithin(init, s, g, b);
    TreeCellIsInt(init, s, g, b);
  }

  // ---------- the rounded runs ----------

  lemma {:induction false} NextArcWithin(init: Buffers, b: nat, d: nat)
    requires Square(init) && Moderate(init) && b < |init| && 0 < d < |init|
    ensures var own, rest := init[Wrap(|init|, b + d)][b], ArcSum(Exact, init, b, d - 1);
            IsInt(own) && IsInt(rest) && 0.0 <= own + rest <= LIMIT as real
  {
    ArcIsInt(init, b, d - 1);
    ArcGrows(init, b, d, |init| - 1);
    FullArcIsTotal(init, b);
  }

  lemma {:induction false} NextArcIsExact(init: Buffers, b: nat, d: nat, own: real, rest: real)
    requires Square(init) && b < |init| && 0 < d < |init| && init[Wrap(|init|, b + d)][b] == own
    requires ArcSum(Exact, init, b, d - 1) == rest && ArcSum(Rounded, init, b, d - 1) == rest
    requires Add(own, rest) == own + rest
    ensures ArcSum(Rounded, init, b, d) == ArcSum(Exact, init, b, d)
  {
    hide Add;
  }

  lemma {:induction false} RoundedArcIsExact(init: Buffers, b: nat, d: nat)
    requires Square(init) && Moderate(init) && b < |init| && d < |init|
    ensures ArcSum(Rounded, init, b, d) == ArcSum(Exact, init, b, d)
  {
    hide Add;
    if d > 0 {
      var own, rest := init[Wrap(|init|, b + d)][b], ArcSum(Exact, init, b, d - 1);
      RoundedArcIsExact(init, b, d - 1);
      NextArcWithin(init, b, d);
      AddWhole(own, rest);
      NextArcIsExact(init, b, d, own, rest);
    }
  }

  lemma {:induction false} CellByArcs(x: Arith, y: Arith, init: Buffers, r: nat, i: nat, b: nat)
    requires Square(init) && i < |init| && b < |init|
    requires forall d :: 0 <= d < |init| ==> ArcSum(x, init, b, d) == ArcSum(y, init, b, d)
    ensures Cell(x, init, r, i, b) == Cell(y, init, r, i, b)
  {
  }

  lemma {:induction false} CellIsExact(init: Buffers, r: nat, i: nat, b: nat)
    requires Square(init) && Moderate(init) && i < |init| && b < |init|
    ensures Cell(Rounded, init, r, i, b) == Cell(Exact, init, r, i, b)
  {
    hide Add;
    forall d | 0 <= d < |init| ensures ArcSum(Rounded, init, b, d) == ArcSum(Exact, init, b, d) {
      RoundedArcIsExact(init, b, d);
    }
    CellByArcs(Rounded, Exact, init, r, i, b);
  }

  /** On moderate data the binary64 ring run never rounds. */
  lemma {:induction false} RoundedRingIsExact(init: Buffers, r: nat)
    requires Square(init) && Moderate(init) && |init| >= 1 && r <= Rounds(|init|)
    ensures RingAt(Rounded, init, r) == RingAt(Exact, init, r)
  {
    hide Add;
    var rounded, exact := RingAt(Rounded, init, r), RingAt(Exact, init, r);
    RingInPhase(Rounded, init, r);
    RingInPhase(Exact, init, r);
    forall i | 0 <= i < |init| ensures rounded[i] == exact[i] {
      forall b | 0 <= b < |init| ensures rounded[i][b] == exact[i][b] {
        CellIsExact(init, r, i, b);
        assert rounded[i][b] == Cell(Rounded, init, r, i, b) && exact[i][b] == Cell(Exact, init, r, i, b);
      }
    }
  }

  /** A node's own value and its children's sums, with what each addition comes to. */
  lemma {:induction false} SubtreeParts(init: Buffers, b: nat, g: nat)
    requires Square(init) && Moderate(init) && b < |init| && g < |init|
    ensures var own, x, y := init[g][b], SubtreeSum(Exact, init, b, 2 * g + 1), SubtreeSum(Exact, init, b, 2 * g + 2);
            Whole(own) && Whole(x) && Whole(y) && own + x <= LIMIT as real && own + x + y <= LIMIT as real
  {
    SubtreeIsWhole(init, b, 2 * g + 1);
    SubtreeIsWhole(init, b, 2 * g + 2);
    SubtreeWithin(init, b, g);
    assert SubtreeSum(Exact, init, b, g) ==
           init[g][b] + SubtreeSum(Exact, init, b, 2 * g + 1) + SubtreeSum(Exact, init, b, 2 * g + 2);
  }

  lemma AttachBoth(n: nat, c: nat, own: real, x: real, y: real)
    requires Whole(own) && Whole(x) && Whole(y) && own + x <= LIMIT as real && own + x + y <= LIMIT as real
    ensures Attach(Rounded, n, c + 1, Attach(Rounded, n, c, own, x), y) ==
            Attach(Exact, n, c + 1, Attach(Exact, n, c, own, x), y)
  {
    hide Add;
    AttachWhole(n, c, own, x);
    AttachWhole(n, c + 1, Attach(Exact, n, c, own, x), y);
  }

  lemma {:induction false} RoundedSubtreeIsExact(init: Buffers, b: nat, g: nat)
    requires Square(init) && Moderate(init) && b < |init|
    ensures SubtreeSum(Rounded, init, b, g) == SubtreeSum(Exact, init, b, g)
    decreases |init| - g
  {
    hide Add;
    if g < |init| {
      RoundedSubtreeIsExact(init, b, 2 * g + 1);
      RoundedSubtreeIsExact(init, b, 2 * g + 2);
      SubtreeParts(init, b, g);
      var x, y := SubtreeSum(Exact, init, b, 2 * g + 1), SubtreeSum(Exact, init, b, 2 * g + 2);
      AttachBoth(|init|, 2 * g + 1, init[g][b], x, y);
    }
  }

  /** On moderate data the binary64 tree run never rounds. */
  lemma {:induction false} RoundedTreeIsExact(init: Buffers, s: nat)
    requires Square(init) && Moderate(init) && |init| >= 1 && s <= 2 * MaxDepth(|init|)
    ensures TreeAt(Rounded, init, s) == TreeAt(Exact, init, s)
  {
    hide Add;
    var rounded, exact := TreeAt(Rounded, init, s), TreeAt(Exact, init, s);
    TreeInPhase(Rounded, init, s);
    TreeInPhase(Exact, init, s);
    forall g | 0 <= g < |init| ensures rounded[g] == exact[g] {
      forall b | 0 <= b < |init| ensures rounded[g][b] == exact[g][b] {
        RoundedSubtreeIsExact(init, b, g);
        RoundedSubtreeIsExact(init, b, 0);
        assert rounded[g][b] == TreeCell(Rounded, init, s, g, b) && exact[g][b] == TreeCell(Exact, init, s, g, b);
      }
    }
  }

  lemma {:induction false} RoundedSumIsExact(init: Buffers, b: nat, hi: nat)
    requires Square(init) && Moderate(init) && b < |init| && hi <= |init|
    ensures RunningSum(Rounded, init, b, hi) == ColumnSum(init, b, 0, hi)
  {
    hide Add;
    if hi > 0 {
      var before, x := ColumnSum(init, b, 0, hi - 1), init[hi - 1][b];
      RoundedSumIsExact(init, b, hi - 1);
      ColumnGrows(init, b, hi, |init|);
      ColumnIsInt(init, b, hi - 1);
      assert 0.0 <= before + x <= Total(init, b);
      AddWhole(before, x);
    }
  }

  lemma {:induction false} ExpectedIsTotal(arith: Arith, init: Buffers, b: nat)
    requires Square(init) && b < |init| && (arith == Exact || Moderate(init))
    ensures RunningSum(arith, init, b, |init|) == Total(init, b)
  {
    match arith
    case Exact => ExactRunningSum(init, b, |init|);
    case Rounded => RoundedSumIsExact(init, b, |init|);
  }

  /** Adding a block up in ring order, from its own GPU around, gives what adding it up from GPU 0 gives. */
  predicate OrdersAgree(arith: Arith, init: Buffers)
    requires Square(init)
  {
    forall b :: 0 <= b < |init| ==> FullArc(arith, init, b) == RunningSum(arith, init, b, |init|)
  }

  lemma {:induction false} ModerateArcIsTotal(arith: Arith, init: Buffers, b: nat)
    requires Square(init) && b < |init| && (arith == Exact || Moderate(init))
    ensures FullArc(arith, init, b) == Total(init, b)
  {
    FullArcIsTotal(init, b);
    if arith == Rounded {
      RoundedArcIsExact(init, b, |init| - 1);
    }
  }

  lemma {:induction false} ModerateRootIsTotal(arith: Arith, init: Buffers, b: nat)
    requires Square(init) && b < |init| && (arith == Exact || Moderate(init))
    ensures SubtreeSum(arith, init, b, 0) == Total(init, b)
  {
    RootSum(init, b);
    if arith == Rounded {
      RoundedSubtreeIsExact(init, b, 0);
    }
  }

  /** They do in exact arithmetic, and on moderate data in binary64. */
  lemma {:induction false} ModerateOrdersAgree(arith: Arith, init: Buffers)
    requires Square(init) && (arith == Exact || Moderate(init))
    ensures OrdersAgree(arith, init)
  {
    forall b | 0 <= b < |init| ensures FullArc(arith, init, b) == RunningSum(arith, init, b, |init|) {
      ModerateArcIsTotal(arith, init, b);
      ExpectedIsTotal(arith, init, b);
    }
  }

  // ---------- the seeds of the two programs ----------

  /** NewSimulator's seeds need no rounding while 6n^2 + 5n is at most 2^53. */
  lemma SeedsAreModerate(n: nat)
    requires 6 * (n * n) + 5 * n <= LIMIT
    ensures Moderate(Seeds(n))
  {
    forall b | 0 <= b < n ensures Total(Seeds(n), b) <= LIMIT as real {
      SeedTotalBound(n, b);
    }
    forall i, b | 0 <= i < n && 0 <= b < n ensures IsInt(Seeds(n)[i][b]) && Seeds(n)[i][b] >= 0.0 {
      assert Seeds(n)[i][b] == SeedValue(i, b) as real;
    }
  }

  /** The powers-of-ten seeds need none for up to 15 GPUs. */
  lemma DecadesAreModerate(n: nat)
    requires n <= 15
    ensures Moderate(Decades(n))
  {
    forall b | 0 <= b < n ensures Total(Decades(n), b) <= LIMIT as real {
      DecadeTotalBound(n, b);
    }
    forall i, b | 0 <= i < n && 0 <= b < n ensures IsInt(Decades(n)[i][b]) && Decades(n)[i][b] >= 0.0 {
      assert Decades(n)[i][b] == DecadeValue(i, b) as real;
    }
  }

  lemma FewGPUs(gpuData: Buffers)
    requires Square(gpuData) && SeededExactly(gpuData) && |gpuData| <= 15
    ensures Moderate(gpuData)
  {
    var n := |gpuData|;
    forall i, j | 0 <= i < n && 0 <= j < n ensures gpuData[i][j] == Decades(n)[i][j] {
      FewAreExact(i, j);
    }
    assert forall i :: 0 <= i < n ==> gpuData[i] == Decades(n)[i];
    assert gpuData == Decades(n);
    DecadesAreModerate(n);
  }
}

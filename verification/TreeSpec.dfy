/** The lock-step meaning of tree AllReduce: reduce up the heap one level per step, then broadcast down. */
module TreeSpec {
  import opened Arithmetic
  import opened RingSpec
  import opened HeapTree

  /** Block b of node c, or nothing when c is past the last node. */
  function NodeValue(bufs: Buffers, c: nat, b: nat): real
    requires Square(bufs) && b < |bufs|
  {
    if c < |bufs| then bufs[c][b] else 0.0
  }

  /** A sum with what child c of n nodes brings added to it, if there is such a child. */
  function Attach(arith: Arith, n: nat, c: nat, sum: real, x: real): real {
    if c < n then Sum(arith, sum, x) else sum
  }

  /** Node g's buffer with its children's buffers added to it, the first child's first. */
  function Reduced(arith: Arith, bufs: Buffers, g: nat): (res: seq<real>)
    requires Square(bufs) && g < |bufs|
    ensures |res| == |bufs|
  {
    var n, first, second := |bufs|, 2 * g + 1, 2 * g + 2;
    seq(n, b requires 0 <= b < n =>
      Attach(arith, n, second,
        Attach(arith, n, first, bufs[g][b], NodeValue(bufs, first, b)), NodeValue(bufs, second, b)))
  }

  /** Node g's buffer after one step, from every node's buffer before it. */
  function TreeUpdate(arith: Arith, bufs: Buffers, step: nat, g: nat): (buf: seq<real>)
    requires Square(bufs) && g < |bufs| && step < 2 * MaxDepth(|bufs|)
    ensures |buf| == |bufs|
  {
    var top := MaxDepth(|bufs|);
    if step < top then
      if Depth(g) == top - step - 1 then Reduced(arith, bufs, g) else bufs[g]
    else
      if g > 0 && Depth(g) == step - top + 1 then bufs[Parent(g)] else bufs[g]
  }

  function TreeRound(arith: Arith, bufs: Buffers, step: nat): (res: Buffers)
    requires Square(bufs) && |bufs| >= 1 && step < 2 * MaxDepth(|bufs|)
    ensures Square(res) && |res| == |bufs|
  {
    seq(|bufs|, g requires 0 <= g < |bufs| => TreeUpdate(arith, bufs, step, g))
  }

  function TreeAt(arith: Arith, init: Buffers, s: nat): (res: Buffers)
    requires Square(init) && |init| >= 1 && s <= 2 * MaxDepth(|init|)
    ensures Square(res) && |res| == |init|
  {
    if s == 0 then init else TreeRound(arith, TreeAt(arith, init, s - 1), s - 1)
  }

  /**
   Block b over the subtree rooted at i (nothing when i is not a node), added up from the leaves, first child first.
   */
  function SubtreeSum(arith: Arith, init: Buffers, b: nat, i: nat): real
    requires Square(init) && b < |init|
    decreases |init| - i
  {
    var n, first, second := |init|, 2 * i + 1, 2 * i + 2;
    if i >= n then 0.0
    else
      Attach(arith, n, second,
        Attach(arith, n, first, init[i][b], SubtreeSum(arith, init, b, first)), SubtreeSum(arith, init, b, second))
  }

  /** What the root ends up with. */
  function RootSums(arith: Arith, init: Buffers): (buf: seq<real>)
    requires Square(init)
    ensures |buf| == |init|
  {
    seq(|init|, b requires 0 <= b < |init| => SubtreeSum(arith, init, b, 0))
  }

  /** The subtree sums of the nodes lo..hi-1. */
  function ForestSum(init: Buffers, b: nat, lo: nat, hi: nat): real
    requires Square(init) && b < |init| && lo <= hi
    decreases hi
  {
    if lo == hi then 0.0 else ForestSum(init, b, lo, hi - 1) + SubtreeSum(Exact, init, b, hi - 1)
  }

  lemma {:induction false} ForestDropFirst(init: Buffers, b: nat, lo: nat, hi: nat)
    requires Square(init) && b < |init| && lo < hi
    ensures ForestSum(init, b, lo, hi) == SubtreeSum(Exact, init, b, lo) + ForestSum(init, b, lo + 1, hi)
    decreases hi
  {
    if lo + 1 < hi {
      ForestDropFirst(init, b, lo, hi - 1);
    }
  }

  lemma {:induction false} ForestBeyond(init: Buffers, b: nat, lo: nat, hi: nat)
    requires Square(init) && b < |init| && |init| <= lo <= hi
    ensures ForestSum(init, b, lo, hi) == 0.0
    decreases hi
  {
    if lo < hi {
      ForestBeyond(init, b, lo, hi - 1);
    }
  }

  lemma {:induction false} ForestSplit(init: Buffers, b: nat, lo: nat, mid: nat, hi: nat)
    requires Square(init) && b < |init| && lo <= mid <= hi
    ensures ForestSum(init, b, lo, hi) == ForestSum(init, b, lo, mid) + ForestSum(init, b, mid, hi)
    decreases hi
  {
    if mid < hi {
      ForestSplit(init, b, lo, mid, hi - 1);
    }
  }

  /** Cut the heap after its first k nodes: what hangs below the cut are the subtrees k..2k. */
  lemma {:induction false} CutHeap(init: Buffers, b: nat, k: nat)
    requires Square(init) && b < |init| && k <= |init|
    ensures SubtreeSum(Exact, init, b, 0) == ColumnSum(init, b, 0, k) + ForestSum(init, b, k, 2 * k + 1)
  {
    if k == 0 {
      assert ForestSum(init, b, 0, 0) == 0.0;
    } else {
      CutHeap(init, b, k - 1);
      ForestDropFirst(init, b, k - 1, 2 * k - 1);
      assert ForestSum(init, b, k, 2 * k + 1)
          == ForestSum(init, b, k, 2 * k - 1)
             + SubtreeSum(Exact, init, b, 2 * k - 1) + SubtreeSum(Exact, init, b, 2 * k);
    }
  }

  /** The root's subtree is the whole column. */
  lemma {:induction false} RootSum(init: Buffers, b: nat)
    requires Square(init) && b < |init|
    ensures SubtreeSum(Exact, init, b, 0) == Total(init, b)
  {
    CutHeap(init, b, |init|);
    ForestBeyond(init, b, |init|, 2 * |init| + 1);
  }

  // ---------- the closed form ----------

  /** Going up, the levels already reduced hold subtree sums; going down, the levels already reached hold the root's. */
  function TreeCell(arith: Arith, init: Buffers, s: nat, g: nat, b: nat): real
    requires Square(init) && g < |init| && b < |init|
  {
    var top := MaxDepth(|init|);
    if s <= top then
      if Depth(g) >= top - s then SubtreeSum(arith, init, b, g) else init[g][b]
    else
      if Depth(g) <= s - top then SubtreeSum(arith, init, b, 0) else SubtreeSum(arith, init, b, g)
  }

  predicate InTreePhase(arith: Arith, init: Buffers, bufs: Buffers, s: nat)
    requires Square(init)
  {
    && Square(bufs) && |bufs| == |init|
    && forall g, b {:trigger TreeCell(arith, init, s, g, b)} ::
         0 <= g < |init| && 0 <= b < |init| ==> bufs[g][b] == TreeCell(arith, init, s, g, b)
  }

  lemma {:induction false} ChildSums(arith: Arith, init: Buffers, bufs: Buffers, s: nat, g: nat, b: nat, c: nat)
    requires Square(init) && InTreePhase(arith, init, bufs, s)
    requires g < |init| && b < |init| && s < MaxDepth(|init|) && Depth(g) == MaxDepth(|init|) - s - 1
    requires c > 0 && Parent(c) == g
    ensures NodeValue(bufs, c, b) == SubtreeSum(arith, init, b, c)
  {
    hide Sum;
    if c < |init| {
      assert bufs[c][b] == TreeCell(arith, init, s, c, b);
    }
  }

  lemma LevelUp(arith: Arith, init: Buffers, bufs: Buffers, s: nat, g: nat, b: nat)
    requires Square(init) && InTreePhase(arith, init, bufs, s)
    requires g < |init| && b < |init| && s < MaxDepth(|init|)
    ensures TreeUpdate(arith, bufs, s, g)[b] == TreeCell(arith, init, s + 1, g, b)
  {
    hide Sum;
    var n := |init|;
    assert bufs[g][b] == TreeCell(arith, init, s, g, b);
    if Depth(g) == MaxDepth(n) - s - 1 {
      ChildSums(arith, init, bufs, s, g, b, 2 * g + 1);
      ChildSums(arith, init, bufs, s, g, b, 2 * g + 2);
    }
  }

  lemma LevelDown(arith: Arith, init: Buffers, bufs: Buffers, s: nat, g: nat, b: nat)
    requires Square(init) && InTreePhase(arith, init, bufs, s)
    requires g < |init| && b < |init| && MaxDepth(|init|) <= s < 2 * MaxDepth(|init|)
    ensures TreeUpdate(arith, bufs, s, g)[b] == TreeCell(arith, init, s + 1, g, b)
  {
    hide Sum;
    assert bufs[g][b] == TreeCell(arith, init, s, g, b);
    if g > 0 {
      assert bufs[Parent(g)][b] == TreeCell(arith, init, s, Parent(g), b);
    }
  }

  lemma {:induction false} ParentIsNotDeepest(n: nat, g: nat)
    requires 2 * g + 1 < n
    ensures Depth(g) < MaxDepth(n)
  {
    MaxDepthIsHeight(n, 2 * g + 1);
    assert Parent(2 * g + 1) == g;
  }

  lemma StartInTreePhase(arith: Arith, init: Buffers)
    requires Square(init) && |init| >= 1
    ensures InTreePhase(arith, init, init, 0)
  {
    var n := |init|;
    forall g, b | 0 <= g < n && 0 <= b < n ensures init[g][b] == TreeCell(arith, init, 0, g, b) {
      MaxDepthIsHeight(n, g);
      if 2 * g + 1 < n {
        ParentIsNotDeepest(n, g);
      } else {
        assert SubtreeSum(arith, init, b, g) == init[g][b];
      }
    }
  }

  lemma TreePhaseStep(arith: Arith, init: Buffers, bufs: Buffers, s: nat)
    requires Square(init) && |init| >= 1 && s < 2 * MaxDepth(|init|) && InTreePhase(arith, init, bufs, s)
    ensures InTreePhase(arith, init, TreeRound(arith, bufs, s), s + 1)
  {
    forall g, b | 0 <= g < |init| && 0 <= b < |init|
      ensures TreeUpdate(arith, bufs, s, g)[b] == TreeCell(arith, init, s + 1, g, b)
    {
      if s < MaxDepth(|init|) {
        LevelUp(arith, init, bufs, s, g, b);
      } else {
        LevelDown(arith, init, bufs, s, g, b);
      }
    }
  }

  /** Every lock-step state has the closed form, in both phases. */
  lemma {:induction false} TreeInPhase(arith: Arith, init: Buffers, s: nat)
    requires Square(init) && |init| >= 1 && s <= 2 * MaxDepth(|init|)
    ensures InTreePhase(arith, init, TreeAt(arith, init, s), s)
  {
    if s == 0 {
      StartInTreePhase(arith, init);
    } else {
      TreeInPhase(arith, init, s - 1);
      TreePhaseStep(arith, init, TreeAt(arith, init, s - 1), s - 1);
    }
  }

  /** In either arithmetic, all nodes end with the root's subtree sum. */
  lemma {:induction false} TreeOutcome(arith: Arith, init: Buffers, g: nat, b: nat)
    requires Square(init) && g < |init| && b < |init|
    ensures TreeAt(arith, init, 2 * MaxDepth(|init|))[g][b] == SubtreeSum(arith, init, b, 0)
  {
    var s := 2 * MaxDepth(|init|);
    TreeInPhase(arith, init, s);
    assert TreeAt(arith, init, s)[g][b] == TreeCell(arith, init, s, g, b);
    MaxDepthIsHeight(|init|, g);
  }

  /** Tree AllReduce is correct for every n and every data. */
  lemma {:induction false} TreeCorrect(init: Buffers, g: nat, b: nat)
    requires Square(init) && g < |init| && b < |init|
    ensures TreeAt(Exact, init, 2 * MaxDepth(|init|))[g][b] == Total(init, b)
  {
    TreeOutcome(Exact, init, g, b);
    RootSum(init, b);
  }

  // ---------- frontier conservation ----------

  /** How many nodes have depth at most MaxDepth - s: an index prefix. */
  function FrontierEnd(n: nat, s: nat): (k: nat)
    requires n >= 1 && s <= MaxDepth(n)
    ensures k <= n
  {
    var k := 2 * Pow2(MaxDepth(n) - s) - 1;
    if k < n then k else n
  }

  lemma {:induction false} ForestBeyondEnd(init: Buffers, b: nat, e: nat, hi: nat)
    requires Square(init) && b < |init| && e <= hi && (e == hi || e == |init|)
    ensures ForestSum(init, b, e, hi) == 0.0
  {
    if e == |init| {
      ForestBeyond(init, b, e, hi);
    }
  }

  lemma {:induction false} FrontierColumn(init: Buffers, bufs: Buffers, s: nat, b: nat, e: nat)
    requires Square(init) && b < |init| && s <= MaxDepth(|init|) && InTreePhase(Exact, init, bufs, s)
    requires e <= |init| && e <= 2 * Pow2(MaxDepth(|init|) - s) - 1
    ensures var k := Pow2(MaxDepth(|init|) - s) - 1;
            ColumnSum(bufs, b, 0, e) ==
            if e <= k then ColumnSum(init, b, 0, e) else ColumnSum(init, b, 0, k) + ForestSum(init, b, k, e)
    decreases e
  {
    var k := Pow2(MaxDepth(|init|) - s) - 1;
    if e > 0 {
      FrontierColumn(init, bufs, s, b, e - 1);
      assert bufs[e - 1][b] == TreeCell(Exact, init, s, e - 1, b);
      DepthPrefix(e - 1, MaxDepth(|init|) - s);
      if e == k + 1 {
        assert ForestSum(init, b, k, k) == 0.0;
      }
    }
  }

  /** The frontier is an index prefix. */
  lemma {:induction false} FrontierIsPrefix(n: nat, s: nat, g: nat)
    requires g < n && s <= MaxDepth(n)
    ensures Depth(g) <= MaxDepth(n) - s <==> g < FrontierEnd(n, s)
  {
    DepthPrefix(g, MaxDepth(n) - s);
  }

  /** A prefix of k nodes and the subtrees hanging below it make up the whole column. */
  lemma {:induction false} PrefixAndForest(init: Buffers, b: nat, k: nat, e: nat)
    requires Square(init) && b < |init| && k <= |init| && k <= e <= 2 * k + 1 && (e == 2 * k + 1 || e == |init|)
    ensures ColumnSum(init, b, 0, k) + ForestSum(init, b, k, e) == Total(init, b)
  {
    CutHeap(init, b, k);
    ForestSplit(init, b, k, e, 2 * k + 1);
    ForestBeyondEnd(init, b, e, 2 * k + 1);
    RootSum(init, b);
  }

  /** The first node below the frontier's last full level. */
  lemma FrontierCut(n: nat, s: nat) returns (k: nat)
    requires n >= 1 && s <= MaxDepth(n)
    ensures k == Pow2(MaxDepth(n) - s) - 1 && k < n
    ensures k < FrontierEnd(n, s) <= 2 * k + 1 && (FrontierEnd(n, s) == 2 * k + 1 || FrontierEnd(n, s) == n)
  {
    k := Pow2(MaxDepth(n) - s) - 1;
    MaxDepthIsHeight(n, n - 1);
    Pow2Monotone(MaxDepth(n) - s, MaxDepth(n));
  }

  lemma {:induction false} FrontierHoldsTotal(init: Buffers, bufs: Buffers, s: nat, b: nat)
    requires Square(init) && b < |init| && s <= MaxDepth(|init|) && InTreePhase(Exact, init, bufs, s)
    ensures ColumnSum(bufs, b, 0, FrontierEnd(|init|, s)) == Total(init, b)
  {
    var k := FrontierCut(|init|, s);
    FrontierColumn(init, bufs, s, b, FrontierEnd(|init|, s));
    PrefixAndForest(init, b, k, FrontierEnd(|init|, s));
  }

  /**
   In the upward phase no value is lost or duplicated: after s steps the nodes of depth at most
   MaxDepth - s together still hold the sum of all initial buffers.
   */
  lemma {:induction false} FrontierConserved(init: Buffers, s: nat, b: nat)
    requires Square(init) && b < |init| && s <= MaxDepth(|init|)
    ensures forall g :: 0 <= g < |init| ==> (Depth(g) <= MaxDepth(|init|) - s <==> g < FrontierEnd(|init|, s))
    ensures ColumnSum(TreeAt(Exact, init, s), b, 0, FrontierEnd(|init|, s)) == Total(init, b)
  {
    forall g | 0 <= g < |init| ensures Depth(g) <= MaxDepth(|init|) - s <==> g < FrontierEnd(|init|, s) {
      FrontierIsPrefix(|init|, s, g);
    }
    TreeInPhase(Exact, init, s);
    FrontierHoldsTotal(init, TreeAt(Exact, init, s), s, b);
  }
}

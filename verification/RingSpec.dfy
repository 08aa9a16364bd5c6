/** The lock-step meaning of ring AllReduce: one function, RingAt, that both ring programs refine. */
module RingSpec {
  import opened Arithmetic
  import opened Modular

  /** bufs[i][b] is block b of GPU i. */
  type Buffers = seq<seq<real>>

  /** n GPUs with n blocks each. */
  predicate Square(bufs: Buffers) {
    forall i :: 0 <= i < |bufs| ==> |bufs[i]| == |bufs|
  }

  function Next(n: nat, i: nat): (j: nat)
    requires i < n
    ensures j < n
  {
    if i + 1 == n then 0 else i + 1
  }

  function Prev(n: nat, i: nat): (j: nat)
    requires i < n
    ensures j < n && Next(n, j) == i
  {
    if i == 0 then n - 1 else i - 1
  }

  /** Rounds of a whole run: n-1 of reduce-scatter, then n-1 of all-gather. */
  function Rounds(n: nat): nat
    requires n >= 1
  {
    2 * (n - 1)
  }

  /** The block GPU i sends in round r. */
  function SendIdx(n: nat, i: nat, r: nat): (b: nat)
    requires i < n && r < Rounds(n)
    ensures b < n
  {
    if r < n - 1 then Wrap(n, i - r) else Wrap(n, i + 1 - (r - (n - 1)))
  }

  /** What GPU i does with the value it receives in round r: add it, or in the second phase overwrite with it. */
  function Absorb(arith: Arith, n: nat, i: nat, r: nat, data: seq<real>, value: real): (res: seq<real>)
    requires i < n && r < Rounds(n) && |data| == n
    ensures |res| == n
  {
    var c := SendIdx(n, Prev(n, i), r);
    if r < n - 1 then data[c := Sum(arith, data[c], value)] else data[c := value]
  }

  /** GPU i's buffer after round r, from every GPU's buffer before it. */
  function RingUpdate(arith: Arith, bufs: Buffers, r: nat, i: nat): (buf: seq<real>)
    requires Square(bufs) && i < |bufs| && r < Rounds(|bufs|)
    ensures |buf| == |bufs|
  {
    var src := Prev(|bufs|, i);
    Absorb(arith, |bufs|, i, r, bufs[i], bufs[src][SendIdx(|bufs|, src, r)])
  }

  function RingRound(arith: Arith, bufs: Buffers, r: nat): (res: Buffers)
    requires Square(bufs) && |bufs| >= 1 && r < Rounds(|bufs|)
    ensures Square(res) && |res| == |bufs|
  {
    seq(|bufs|, i requires 0 <= i < |bufs| => RingUpdate(arith, bufs, r, i))
  }

  /** All buffers after r lock-step rounds. */
  function RingAt(arith: Arith, init: Buffers, r: nat): (res: Buffers)
    requires Square(init) && |init| >= 1 && r <= Rounds(|init|)
    ensures Square(res) && |res| == |init|
  {
    if r == 0 then init else RingRound(arith, RingAt(arith, init, r - 1), r - 1)
  }

  /** A lock-step history: the buffers before round 0, 1, ..., Rounds(n). */
  predicate History(n: nat, lock: seq<Buffers>) {
    && n >= 1 && |lock| == Rounds(n) + 1
    && forall r :: 0 <= r < |lock| ==> |lock[r]| == n && Square(lock[r])
  }

  predicate Succeeds(arith: Arith, n: nat, lock: seq<Buffers>, r: nat)
    requires History(n, lock) && r < Rounds(n)
  {
    lock[r + 1] == RingRound(arith, lock[r], r)
  }

  /** The whole run of RingAt as one sequence. */
  function RingHistory(arith: Arith, init: Buffers): (lock: seq<Buffers>)
    requires Square(init) && |init| >= 1
    ensures History(|init|, lock) && lock[0] == init
    ensures forall r {:trigger lock[r]} :: 0 <= r <= Rounds(|init|) ==> lock[r] == RingAt(arith, init, r)
    ensures forall r :: 0 <= r < Rounds(|init|) ==> Succeeds(arith, |init|, lock, r)
  {
    seq(Rounds(|init|) + 1, r requires 0 <= r <= Rounds(|init|) => RingAt(arith, init, r))
  }

  /** The sum of block b over GPUs lo..hi-1. */
  function ColumnSum(init: Buffers, b: nat, lo: nat, hi: nat): real
    requires Square(init) && b < |init| && lo <= hi <= |init|
    decreases hi
  {
    if lo == hi then 0.0 else ColumnSum(init, b, lo, hi - 1) + init[hi - 1][b]
  }

  /** The AllReduce answer for block b. */
  function Total(init: Buffers, b: nat): real
    requires Square(init) && b < |init|
  {
    ColumnSum(init, b, 0, |init|)
  }

  /** The whole AllReduce answer. */
  function Totals(init: Buffers): (buf: seq<real>)
    requires Square(init)
    ensures |buf| == |init|
  {
    seq(|init|, b requires 0 <= b < |init| => Total(init, b))
  }

  /** How many hops from GPU b forward to GPU i. */
  function Dist(n: nat, b: nat, i: nat): (d: nat)
    requires b < n && i < n
    ensures d < n && i == Wrap(n, b + d)
  {
    if i >= b then i - b else i - b + n
  }

  /**
   The initial values of block b on GPUs b, b+1, ..., b+d around the ring, each added to the sum that arrives there.
   */
  function ArcSum(arith: Arith, init: Buffers, b: nat, d: nat): real
    requires Square(init) && b < |init| && d < |init|
  {
    var own := init[Wrap(|init|, b + d)][b];
    if d == 0 then own else Sum(arith, own, ArcSum(arith, init, b, d - 1))
  }

  /** Once around the ring, starting at GPU b. */
  function FullArc(arith: Arith, init: Buffers, b: nat): real
    requires Square(init) && b < |init|
  {
    ArcSum(arith, init, b, |init| - 1)
  }

  function FullArcs(arith: Arith, init: Buffers): (buf: seq<real>)
    requires Square(init)
    ensures |buf| == |init|
  {
    seq(|init|, b requires 0 <= b < |init| => FullArc(arith, init, b))
  }

  lemma {:induction false} ColumnSplit(init: Buffers, b: nat, lo: nat, mid: nat, hi: nat)
    requires Square(init) && b < |init| && lo <= mid <= hi <= |init|
    ensures ColumnSum(init, b, lo, hi) == ColumnSum(init, b, lo, mid) + ColumnSum(init, b, mid, hi)
    decreases hi
  {
    if mid < hi {
      ColumnSplit(init, b, lo, mid, hi - 1);
    }
  }

  /** An arc is one or two straight stretches of the column. */
  lemma {:induction false} ArcIsRotation(init: Buffers, b: nat, d: nat)
    requires Square(init) && b < |init| && d < |init|
    ensures ArcSum(Exact, init, b, d) ==
            if b + d < |init| then ColumnSum(init, b, b, b + d + 1)
            else ColumnSum(init, b, b, |init|) + ColumnSum(init, b, 0, b + d - |init| + 1)
  {
    if d == 0 {
      assert ColumnSum(init, b, b, b) == 0.0;
    } else {
      ArcIsRotation(init, b, d - 1);
      if b + d == |init| {
        assert ColumnSum(init, b, 0, 0) == 0.0;
      }
    }
  }

  /** Once around the ring from any start is the whole column. */
  lemma {:induction false} FullArcIsTotal(init: Buffers, b: nat)
    requires Square(init) && b < |init|
    ensures FullArc(Exact, init, b) == Total(init, b)
  {
    var n := |init|;
    ArcIsRotation(init, b, n - 1);
    ColumnSplit(init, b, 0, b, n);
    if b == 0 {
      assert ColumnSum(init, b, 0, 0) == 0.0;
    }
  }

  /** The formulas simulator.go writes for its two phases are this index, and both walk one diagonal. */
  lemma SendIdxIsPosMod(n: nat, i: nat, r: nat)
    requires i < n && r < Rounds(n)
    ensures r < n - 1 ==> SendIdx(n, i, r) == PosMod(i - r, n)
    ensures r >= n - 1 ==> SendIdx(n, i, r) == PosMod(i + 1 - (r - (n - 1)), n)
    ensures SendIdx(n, i, r) == (i - r) % n
  {
    if r < n - 1 {
      PosModIsWrap(n, i - r);
    } else {
      var x := i + 1 - (r - (n - 1));
      PosModIsWrap(n, x);
      ModUnique(x, n, (i - r) / n + 1, (i - r) % n);
    }
  }

  /** Block b of GPU i after r reduce-scatter rounds: the arc b..i once that many hops have been walked. */
  function ScatterCell(arith: Arith, init: Buffers, r: nat, i: nat, b: nat): real
    requires Square(init) && i < |init| && b < |init|
  {
    var d := Dist(|init|, b, i);
    if d <= r then ArcSum(arith, init, b, d) else init[i][b]
  }

  /** How many all-gather rounds GPU i waits for the finished block b. */
  function GatherDelay(n: nat, i: nat, b: nat): nat
    requires i < n && b < n
  {
    Dist(n, b, Next(n, i))
  }

  /** Block b of GPU i after t all-gather rounds: complete after its delay, the arc b..i before it. */
  function GatherCell(arith: Arith, init: Buffers, t: nat, i: nat, b: nat): real
    requires Square(init) && i < |init| && b < |init|
  {
    if GatherDelay(|init|, i, b) <= t then FullArc(arith, init, b) else ArcSum(arith, init, b, Dist(|init|, b, i))
  }

  /** The closed form of every cell after r rounds of either phase. */
  function Cell(arith: Arith, init: Buffers, r: nat, i: nat, b: nat): real
    requires Square(init) && i < |init| && b < |init|
  {
    if r < |init| then ScatterCell(arith, init, r, i, b) else GatherCell(arith, init, r - (|init| - 1), i, b)
  }

  predicate InPhase(arith: Arith, init: Buffers, bufs: Buffers, r: nat)
    requires Square(init)
  {
    && Square(bufs) && |bufs| == |init|
    && forall i, b {:trigger Cell(arith, init, r, i, b)} :: 0 <= i < |init| && 0 <= b < |init| ==>
         bufs[i][b] == Cell(arith, init, r, i, b)
  }

  /** The block received in reduce-scatter round r is the one r+1 hops behind. */
  lemma ScatterDiagonal(n: nat, r: nat, i: nat, b: nat)
    requires i < n && b < n && r < n - 1
    ensures var src := Prev(n, i);
            var sent := SendIdx(n, src, r);
            && (b == sent <==> Dist(n, b, i) == r + 1)
            && Dist(n, sent, src) == r
  {
  }

  /** The block received in all-gather round t is the one whose delay is t+1. */
  lemma GatherDiagonal(n: nat, t: nat, i: nat, b: nat)
    requires i < n && b < n && t < n - 1
    ensures var src := Prev(n, i);
            var sent := SendIdx(n, src, n - 1 + t);
            && (b == sent <==> GatherDelay(n, i, b) == t + 1)
            && GatherDelay(n, src, sent) == t
  {
  }

  lemma ScatterStep(arith: Arith, init: Buffers, bufs: Buffers, r: nat, i: nat, b: nat)
    requires Square(init) && InPhase(arith, init, bufs, r)
    requires i < |init| && b < |init| && r < |init| - 1
    ensures RingUpdate(arith, bufs, r, i)[b] == ScatterCell(arith, init, r + 1, i, b)
  {
    hide Sum;
    var src := Prev(|init|, i);
    ScatterDiagonal(|init|, r, i, b);
    assert bufs[i][b] == Cell(arith, init, r, i, b);
    assert bufs[src][b] == Cell(arith, init, r, src, b);
  }

  /** The two closed forms agree where the phases meet. */
  lemma PhasesMeet(arith: Arith, init: Buffers, i: nat, b: nat)
    requires Square(init) && i < |init| && b < |init|
    ensures ScatterCell(arith, init, |init| - 1, i, b) == GatherCell(arith, init, 0, i, b)
  {
  }

  lemma GatherStep(arith: Arith, init: Buffers, bufs: Buffers, r: nat, i: nat, b: nat)
    requires Square(init) && InPhase(arith, init, bufs, r)
    requires i < |init| && b < |init| && |init| - 1 <= r < Rounds(|init|)
    ensures RingUpdate(arith, bufs, r, i)[b] == GatherCell(arith, init, r + 1 - (|init| - 1), i, b)
  {
    hide Sum;
    var n, t := |init|, r - (|init| - 1);
    var src := Prev(n, i);
    GatherDiagonal(n, t, i, b);
    PhasesMeet(arith, init, i, b);
    PhasesMeet(arith, init, src, b);
    assert bufs[i][b] == Cell(arith, init, r, i, b);
    assert bufs[src][b] == Cell(arith, init, r, src, b);
  }

  /** One lock-step round carries the closed form of its phase to the next. */
  lemma PhaseStep(arith: Arith, init: Buffers, bufs: Buffers, r: nat)
    requires Square(init) && |init| >= 1 && r < Rounds(|init|) && InPhase(arith, init, bufs, r)
    ensures InPhase(arith, init, RingRound(arith, bufs, r), r + 1)
  {
    forall i, b | 0 <= i < |init| && 0 <= b < |init|
      ensures RingUpdate(arith, bufs, r, i)[b] == Cell(arith, init, r + 1, i, b)
    {
      if r + 1 < |init| {
        ScatterStep(arith, init, bufs, r, i, b);
      } else {
        GatherStep(arith, init, bufs, r, i, b);
      }
    }
  }

  lemma StartInPhase(arith: Arith, init: Buffers)
    requires Square(init) && |init| >= 1
    ensures InPhase(arith, init, init, 0)
  {
  }

  lemma {:induction false} HistoryInPhase(arith: Arith, init: Buffers, lock: seq<Buffers>, r: nat)
    requires Square(init) && History(|init|, lock) && lock[0] == init && r <= Rounds(|init|)
    requires forall k :: 0 <= k < Rounds(|init|) ==> Succeeds(arith, |init|, lock, k)
    ensures InPhase(arith, init, lock[r], r)
  {
    if r == 0 {
      StartInPhase(arith, init);
    } else {
      HistoryInPhase(arith, init, lock, r - 1);
      assert Succeeds(arith, |init|, lock, r - 1);
      PhaseStep(arith, init, lock[r - 1], r - 1);
    }
  }

  /** Every lock-step state has the closed form, in both phases. */
  lemma {:induction false} RingInPhase(arith: Arith, init: Buffers, r: nat)
    requires Square(init) && |init| >= 1 && r <= Rounds(|init|)
    ensures InPhase(arith, init, RingAt(arith, init, r), r)
  {
    HistoryInPhase(arith, init, RingHistory(arith, init), r);
  }

  /** After the last round every block is the sum once around the ring, starting at the block's own GPU. */
  lemma {:induction false} LastIsFullArc(arith: Arith, init: Buffers, last: Buffers)
    requires Square(init) && |init| >= 1 && InPhase(arith, init, last, Rounds(|init|))
    ensures forall i, b :: 0 <= i < |init| && 0 <= b < |init| ==> last[i][b] == FullArc(arith, init, b)
  {
    forall i, b | 0 <= i < |init| && 0 <= b < |init| ensures last[i][b] == FullArc(arith, init, b) {
      assert last[i][b] == Cell(arith, init, Rounds(|init|), i, b);
      PhasesMeet(arith, init, i, b);
    }
  }

  /** In either arithmetic, all GPUs end with the same buffer. */
  lemma {:induction false} RingOutcome(arith: Arith, init: Buffers, i: nat, b: nat)
    requires Square(init) && i < |init| && b < |init|
    ensures RingAt(arith, init, Rounds(|init|))[i][b] == FullArc(arith, init, b)
  {
    RingInPhase(arith, init, Rounds(|init|));
    LastIsFullArc(arith, init, RingAt(arith, init, Rounds(|init|)));
  }

  /** Ring AllReduce is correct for every n and every data. */
  lemma {:induction false} RingCorrect(init: Buffers, i: nat, b: nat)
    requires Square(init) && i < |init| && b < |init|
    ensures RingAt(Exact, init, Rounds(|init|))[i][b] == Total(init, b)
  {
    RingOutcome(Exact, init, i, b);
    FullArcIsTotal(init, b);
  }

  // ---------- the reference sum ----------

  /** Block b added up over GPUs 0..hi-1, from zero, as the expected result is computed. */
  function RunningSum(arith: Arith, init: Buffers, b: nat, hi: nat): real
    requires Square(init) && b < |init| && hi <= |init|
  {
    if hi == 0 then 0.0 else Sum(arith, RunningSum(arith, init, b, hi - 1), init[hi - 1][b])
  }

  lemma {:induction false} ExactRunningSum(init: Buffers, b: nat, hi: nat)
    requires Square(init) && b < |init| && hi <= |init|
    ensures RunningSum(Exact, init, b, hi) == ColumnSum(init, b, 0, hi)
  {
    if hi > 0 {
      ExactRunningSum(init, b, hi - 1);
    }
  }
}

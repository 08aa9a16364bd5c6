/** What a GPU of simulator.go does in one step: whom it messages, whom it hears from, what it adds up. */
module Collective {
  import opened Arithmetic
  import opened Counting
  import opened Exactness
  import opened Float64
  import opened HeapTree
  import opened RingSpec
  import opened TreeSpec

  datatype Topology = Ring | Tree

  /** values is one block (ring) or a whole buffer (tree); block is only meaningful in the ring. */
  datatype BlockMsg = BlockMsg(sender: nat, receiver: nat, block: nat, values: seq<real>, step: nat)

  function MaxSteps(top: Topology, n: nat): nat
    requires n >= 1
  {
    match top
    case Ring => Rounds(n)
    case Tree => 2 * MaxDepth(n)
  }

  /** The GPUs that GPU g messages in a step, in order. */
  function Targets(top: Topology, n: nat, g: nat, step: nat): (ts: seq<nat>)
    requires g < n && step < MaxSteps(top, n)
    ensures |ts| <= 2 && forall t :: t in ts ==> t < n
  {
    match top
    case Ring => [Next(n, g)]
    case Tree =>
      if step < MaxDepth(n) then
        if g > 0 && Depth(g) == MaxDepth(n) - step then [Parent(g)] else []
      else
        if Depth(g) == step - MaxDepth(n) then Children(n, g) else []
  }

  /** The GPUs that GPU g must hear from in a step. */
  function Sources(top: Topology, n: nat, g: nat, step: nat): (ss: seq<nat>)
    requires g < n && step < MaxSteps(top, n)
    ensures |ss| <= 2 && forall s :: s in ss ==> s < n
  {
    match top
    case Ring => [Prev(n, g)]
    case Tree =>
      if step < MaxDepth(n) then
        if Depth(g) == MaxDepth(n) - step - 1 then Children(n, g) else []
      else
        if g > 0 && Depth(g) == step - MaxDepth(n) + 1 then [Parent(g)] else []
  }

  /** In the tree, a GPU hears from all of its children in one step going up, and from its parent in one going down. */
  lemma {:induction false} SourceCount(n: nat, g: nat, step: nat)
    requires g < n && step < MaxSteps(Tree, n)
    ensures step < MaxDepth(n) ==>
              |Sources(Tree, n, g, step)| == if Depth(g) == MaxDepth(n) - step - 1 then |Children(n, g)| else 0
    ensures step >= MaxDepth(n) ==>
              |Sources(Tree, n, g, step)| == if Depth(g) == step - MaxDepth(n) + 1 then 1 else 0
  {
    assert g == 0 ==> Depth(g) == 0;
  }

  /** Every message sent is expected, and every message expected is sent. */
  lemma LinksMatch(top: Topology, n: nat, src: nat, dst: nat, step: nat)
    requires src < n && dst < n && step < MaxSteps(top, n)
    ensures dst in Targets(top, n, src, step) <==> src in Sources(top, n, dst, step)
    ensures Distinct(Targets(top, n, src, step)) && Distinct(Sources(top, n, dst, step))
  {
    if dst > 0 {
      assert Depth(dst) == Depth(Parent(dst)) + 1;
    }
    if src > 0 {
      assert Depth(src) == Depth(Parent(src)) + 1;
    }
  }

  predicate GoodMsg(top: Topology, n: nat, msg: BlockMsg) {
    msg.block < n && |msg.values| == if top == Ring then 1 else n
  }

  /** The message GPU src sends to dst, given src's buffer. */
  function MsgOf(top: Topology, n: nat, buf: seq<real>, src: nat, dst: nat, step: nat): (msg: BlockMsg)
    requires src < n && |buf| == n && step < MaxSteps(top, n)
    ensures GoodMsg(top, n, msg)
  {
    match top
    case Ring => BlockMsg(src, dst, SendIdx(n, src, step), [buf[SendIdx(n, src, step)]], step)
    case Tree => BlockMsg(src, dst, 0, buf, step)
  }

  /** What a receiver does with a message: reduce it into the buffer, or in the second phase overwrite with it. */
  function AbsorbMsg(arith: Arith, top: Topology, n: nat, step: nat, buf: seq<real>, msg: BlockMsg): (res: seq<real>)
    requires n >= 1 && |buf| == n && GoodMsg(top, n, msg) && step < MaxSteps(top, n)
    ensures |res| == n
  {
    match top
    case Ring =>
      if step < n - 1 then buf[msg.block := Sum(arith, buf[msg.block], msg.values[0])]
      else buf[msg.block := msg.values[0]]
    case Tree =>
      if step < MaxDepth(n) then seq(n, k requires 0 <= k < n => Sum(arith, buf[k], msg.values[k])) else msg.values
  }

  function AbsorbAll(
    arith: Arith, top: Topology, n: nat, step: nat, buf: seq<real>, msgs: seq<BlockMsg>): (res: seq<real>)
    requires n >= 1 && |buf| == n && step < MaxSteps(top, n) && forall m :: m in msgs ==> GoodMsg(top, n, m)
    ensures |res| == n
  {
    if msgs == [] then buf
    else
      var k := |msgs| - 1;
      AbsorbMsg(arith, top, n, step, AbsorbAll(arith, top, n, step, buf, msgs[..k]), msgs[k])
  }

  /** One barrier-to-barrier step of all GPUs. A tree parent hears its first child first. */
  function Round(arith: Arith, top: Topology, bufs: Buffers, step: nat): (res: Buffers)
    requires Square(bufs) && |bufs| >= 1 && step < MaxSteps(top, |bufs|)
    ensures Square(res) && |res| == |bufs|
  {
    match top
    case Ring => RingRound(arith, bufs, step)
    case Tree => TreeRound(arith, bufs, step)
  }

  /** Two more summands come to the same in either order. */
  predicate EitherWay(arith: Arith, sum: real, x: real, y: real) {
    Sum(arith, Sum(arith, sum, x), y) == Sum(arith, Sum(arith, sum, y), x)
  }

  /** If node g hears from two children in this step, it may hear them either way round. */
  predicate OrderFreeAt(arith: Arith, bufs: Buffers, step: nat, g: nat)
    requires Square(bufs) && g < |bufs| && step < MaxDepth(|bufs|)
  {
    Depth(g) == MaxDepth(|bufs|) - step - 1 && 2 * g + 2 < |bufs| ==>
      forall b :: 0 <= b < |bufs| ==> EitherWay(arith, bufs[g][b], bufs[2 * g + 1][b], bufs[2 * g + 2][b])
  }

  /** Wherever two values are added in one step, both orders of the two additions agree. */
  predicate OrderFree(arith: Arith, top: Topology, bufs: Buffers, step: nat)
    requires Square(bufs) && |bufs| >= 1 && step < MaxSteps(top, |bufs|)
  {
    top == Tree && step < MaxDepth(|bufs|) ==> forall g :: 0 <= g < |bufs| ==> OrderFreeAt(arith, bufs, step, g)
  }

  /** All buffers after s steps. */
  function At(arith: Arith, top: Topology, init: Buffers, s: nat): (res: Buffers)
    requires Square(init) && |init| >= 1 && s <= MaxSteps(top, |init|)
    ensures Square(res) && |res| == |init|
  {
    match top
    case Ring => RingAt(arith, init, s)
    case Tree => TreeAt(arith, init, s)
  }

  /** In no step of the run does the order of arrival matter. */
  predicate OrderNeverMatters(arith: Arith, top: Topology, init: Buffers)
    requires Square(init) && |init| >= 1
  {
    forall s :: 0 <= s < MaxSteps(top, |init|) ==> OrderFree(arith, top, At(arith, top, init, s), s)
  }

  /** The buffers before step 0, 1, ..., MaxSteps of a run without interference. */
  predicate LockStep(arith: Arith, top: Topology, n: nat, lock: seq<Buffers>) {
    && n >= 1 && |lock| == MaxSteps(top, n) + 1
    && (forall s :: 0 <= s < |lock| ==> |lock[s]| == n && Square(lock[s]))
    && (forall s :: 0 <= s < MaxSteps(top, n) ==> Follows(arith, top, lock, s))
  }

  predicate Follows(arith: Arith, top: Topology, lock: seq<Buffers>, s: nat)
    requires s + 1 < |lock| && Square(lock[s]) && |lock[s]| >= 1 && s < MaxSteps(top, |lock[s]|)
  {
    lock[s + 1] == Round(arith, top, lock[s], s) && OrderFree(arith, top, lock[s], s)
  }

  /** The whole run of At as one sequence. */
  function LockStepRun(arith: Arith, top: Topology, init: Buffers): (lock: seq<Buffers>)
    requires Square(init) && |init| >= 1
    ensures |lock| == MaxSteps(top, |init|) + 1 && lock[0] == init
    ensures forall s {:trigger lock[s]} :: 0 <= s <= MaxSteps(top, |init|) ==> lock[s] == At(arith, top, init, s)
  {
    seq(MaxSteps(top, |init|) + 1, s requires 0 <= s <= MaxSteps(top, |init|) => At(arith, top, init, s))
  }

  lemma {:induction false} AtNext(arith: Arith, top: Topology, init: Buffers, s: nat)
    requires Square(init) && |init| >= 1 && s < MaxSteps(top, |init|)
    ensures At(arith, top, init, s + 1) == Round(arith, top, At(arith, top, init, s), s)
  {
  }

  lemma {:induction false} LockStepRunIsLockStep(arith: Arith, top: Topology, init: Buffers)
    requires Square(init) && |init| >= 1 && OrderNeverMatters(arith, top, init)
    ensures LockStep(arith, top, |init|, LockStepRun(arith, top, init))
  {
    var lock := LockStepRun(arith, top, init);
    forall s | 0 <= s < MaxSteps(top, |init|) ensures Follows(arith, top, lock, s) {
      AtNext(arith, top, init, s);
    }
  }

  /** All buffers after the last step. */
  function Outcome(arith: Arith, top: Topology, init: Buffers): (res: Buffers)
    requires Square(init) && |init| >= 1
    ensures Square(res) && |res| == |init|
  {
    At(arith, top, init, MaxSteps(top, |init|))
  }

  /** The sums in the order the topology adds them up: around the ring, or up the tree. */
  function Answer(arith: Arith, top: Topology, init: Buffers): (buf: seq<real>)
    requires Square(init)
    ensures |buf| == |init|
  {
    match top
    case Ring => FullArcs(arith, init)
    case Tree => RootSums(arith, init)
  }

  /** In either arithmetic all GPUs end with the same buffer, these sums. */
  lemma {:induction false} OutcomeIsAnswer(arith: Arith, top: Topology, init: Buffers, g: nat)
    requires Square(init) && g < |init|
    ensures Outcome(arith, top, init)[g] == Answer(arith, top, init)
  {
    forall b | 0 <= b < |init| ensures Outcome(arith, top, init)[g][b] == Answer(arith, top, init)[b] {
      match top
      case Ring => RingOutcome(arith, init, g, b);
      case Tree => TreeOutcome(arith, init, g, b);
    }
  }

  /** They are the sums over all GPUs, in exact arithmetic and on moderate data in binary64. */
  lemma {:induction false} AnswerIsTotals(arith: Arith, top: Topology, init: Buffers)
    requires Square(init) && (arith == Exact || Moderate(init))
    ensures Answer(arith, top, init) == Totals(init)
  {
    forall b | 0 <= b < |init| ensures Answer(arith, top, init)[b] == Total(init, b) {
      match top
      case Ring => ModerateArcIsTotal(arith, init, b);
      case Tree => ModerateRootIsTotal(arith, init, b);
    }
  }

  /**
   Both topologies end with the sum over all GPUs everywhere, in exact arithmetic and on moderate data in binary64.
   */
  lemma {:induction false} AllReduceCorrect(arith: Arith, top: Topology, init: Buffers, g: nat)
    requires Square(init) && g < |init| && (arith == Exact || Moderate(init))
    ensures Outcome(arith, top, init)[g] == Totals(init)
  {
    OutcomeIsAnswer(arith, top, init, g);
    AnswerIsTotals(arith, top, init);
  }

  /** Ring and tree end with identical buffers if and only if their two orders of summation come to the same. */
  lemma TopologiesAgreeExactly(arith: Arith, init: Buffers)
    requires Square(init) && |init| >= 1
    ensures Outcome(arith, Ring, init) == Outcome(arith, Tree, init) <==>
            Answer(arith, Ring, init) == Answer(arith, Tree, init)
  {
    var r, t := Outcome(arith, Ring, init), Outcome(arith, Tree, init);
    forall g | 0 <= g < |init| ensures r[g] == Answer(arith, Ring, init) && t[g] == Answer(arith, Tree, init) {
      OutcomeIsAnswer(arith, Ring, init, g);
      OutcomeIsAnswer(arith, Tree, init, g);
    }
    assert r[0] == Answer(arith, Ring, init) && t[0] == Answer(arith, Tree, init);
  }

  /** They do in exact arithmetic, and on moderate data in binary64. */
  lemma TopologiesAgree(arith: Arith, init: Buffers)
    requires Square(init) && |init| >= 1 && (arith == Exact || Moderate(init))
    ensures Outcome(arith, Ring, init) == Outcome(arith, Tree, init)
  {
    AnswerIsTotals(arith, Ring, init);
    AnswerIsTotals(arith, Tree, init);
    TopologiesAgreeExactly(arith, init);
  }

  // ---------- a full inbox, in any order ----------

  /** msgs holds exactly one genuine message from each source of g, in some order. */
  predicate FullInbox(top: Topology, bufs: Buffers, step: nat, g: nat, msgs: seq<BlockMsg>)
    requires Square(bufs) && g < |bufs| && step < MaxSteps(top, |bufs|)
  {
    && |msgs| == |Sources(top, |bufs|, g, step)|
    && (forall k :: 0 <= k < |msgs| ==>
          && msgs[k].sender in Sources(top, |bufs|, g, step)
          && msgs[k] == MsgOf(top, |bufs|, bufs[msgs[k].sender], msgs[k].sender, g, step))
    && forall j, k :: 0 <= j < k < |msgs| ==> msgs[j].sender != msgs[k].sender
  }

  lemma {:induction false} AbsorbAtMostTwo(
    arith: Arith, top: Topology, n: nat, step: nat, buf: seq<real>, msgs: seq<BlockMsg>)
    requires n >= 1 && |buf| == n && step < MaxSteps(top, n) && |msgs| <= 2
    requires forall m :: m in msgs ==> GoodMsg(top, n, m)
    ensures AbsorbAll(arith, top, n, step, buf, msgs) ==
            if |msgs| == 0 then buf
            else if |msgs| == 1 then AbsorbMsg(arith, top, n, step, buf, msgs[0])
            else AbsorbMsg(arith, top, n, step, AbsorbMsg(arith, top, n, step, buf, msgs[0]), msgs[1])
    decreases |msgs|
  {
    if |msgs| == 2 {
      AbsorbAtMostTwo(arith, top, n, step, buf, msgs[..1]);
    } else if |msgs| == 1 {
      assert msgs[..0] == [];
    }
  }

  lemma {:induction false} RingHears(arith: Arith, bufs: Buffers, step: nat, g: nat, msgs: seq<BlockMsg>)
    requires Square(bufs) && g < |bufs| && step < MaxSteps(Ring, |bufs|)
    requires FullInbox(Ring, bufs, step, g, msgs)
    ensures AbsorbAll(arith, Ring, |bufs|, step, bufs[g], msgs) == RingUpdate(arith, bufs, step, g)
  {
    AbsorbAtMostTwo(arith, Ring, |bufs|, step, bufs[g], msgs);
  }

  /** Block b of a reducing parent after at most two messages. */
  lemma {:induction false} ParentSums(arith: Arith, n: nat, step: nat, buf: seq<real>, msgs: seq<BlockMsg>, b: nat)
    requires |buf| == n && b < n && step < MaxDepth(n) && |msgs| <= 2
    requires forall k :: 0 <= k < |msgs| ==> GoodMsg(Tree, n, msgs[k])
    ensures AbsorbAll(arith, Tree, n, step, buf, msgs)[b] ==
            if |msgs| == 0 then buf[b]
            else if |msgs| == 1 then Sum(arith, buf[b], msgs[0].values[b])
            else Sum(arith, Sum(arith, buf[b], msgs[0].values[b]), msgs[1].values[b])
  {
    AbsorbAtMostTwo(arith, Tree, n, step, buf, msgs);
  }

  /** What its children bring: their buffers, each once. */
  lemma ChildrenInbox(bufs: Buffers, step: nat, g: nat, msgs: seq<BlockMsg>)
    requires Square(bufs) && g < |bufs| && step < MaxDepth(|bufs|) && FullInbox(Tree, bufs, step, g, msgs)
    ensures |msgs| <= 2 && forall k :: 0 <= k < |msgs| ==> GoodMsg(Tree, |bufs|, msgs[k])
    ensures |msgs| == |Sources(Tree, |bufs|, g, step)|
    ensures |msgs| == 1 ==> 2 * g + 1 < |bufs| <= 2 * g + 2 && msgs[0].values == bufs[2 * g + 1]
    ensures |msgs| == 2 ==>
              && 2 * g + 2 < |bufs|
              && ((msgs[0].values == bufs[2 * g + 1] && msgs[1].values == bufs[2 * g + 2]) ||
                  (msgs[0].values == bufs[2 * g + 2] && msgs[1].values == bufs[2 * g + 1]))
  {
    var cs := Sources(Tree, |bufs|, g, step);
    if |cs| == 2 {
      assert cs == [2 * g + 1, 2 * g + 2];
    } else if |cs| == 1 {
      assert cs == [2 * g + 1];
    }
  }

  /** What the step makes of a node, by the number of nodes it hears from. */
  lemma ParentUpdate(arith: Arith, bufs: Buffers, step: nat, g: nat, b: nat)
    requires Square(bufs) && g < |bufs| && b < |bufs| && step < MaxDepth(|bufs|)
    ensures var cs, sum := |Sources(Tree, |bufs|, g, step)|, TreeRound(arith, bufs, step)[g][b];
            && sum == TreeUpdate(arith, bufs, step, g)[b]
            && (cs == 0 ==> sum == bufs[g][b])
            && (cs == 1 && 2 * g + 1 < |bufs| ==> sum == Sum(arith, bufs[g][b], bufs[2 * g + 1][b]))
            && (cs == 2 && 2 * g + 2 < |bufs| ==>
                  sum == Sum(arith, Sum(arith, bufs[g][b], bufs[2 * g + 1][b]), bufs[2 * g + 2][b]))
  {
  }

  lemma {:induction false} ParentHears(arith: Arith, bufs: Buffers, step: nat, g: nat, msgs: seq<BlockMsg>, b: nat)
    requires Square(bufs) && g < |bufs| && b < |bufs| && step < MaxDepth(|bufs|)
    requires OrderFreeAt(arith, bufs, step, g) && FullInbox(Tree, bufs, step, g, msgs)
    ensures forall m :: m in msgs ==> GoodMsg(Tree, |bufs|, m)
    ensures AbsorbAll(arith, Tree, |bufs|, step, bufs[g], msgs)[b] == TreeRound(arith, bufs, step)[g][b]
  {
    ChildrenInbox(bufs, step, g, msgs);
    ParentSums(arith, |bufs|, step, bufs[g], msgs, b);
    ParentUpdate(arith, bufs, step, g, b);
    assert |msgs| == 2 ==> EitherWay(arith, bufs[g][b], bufs[2 * g + 1][b], bufs[2 * g + 2][b]);
  }

  lemma {:induction false} ChildHears(arith: Arith, bufs: Buffers, step: nat, g: nat, msgs: seq<BlockMsg>)
    requires Square(bufs) && g < |bufs| && MaxDepth(|bufs|) <= step < 2 * MaxDepth(|bufs|)
    requires FullInbox(Tree, bufs, step, g, msgs)
    ensures AbsorbAll(arith, Tree, |bufs|, step, bufs[g], msgs) == TreeUpdate(arith, bufs, step, g)
  {
    AbsorbAtMostTwo(arith, Tree, |bufs|, step, bufs[g], msgs);
  }

  /** Where both orders agree, the order in which a GPU hears from its sources does not matter. */
  lemma {:induction false} AnyOrder(arith: Arith, top: Topology, bufs: Buffers, step: nat, g: nat, msgs: seq<BlockMsg>)
    requires Square(bufs) && g < |bufs| && step < MaxSteps(top, |bufs|)
    requires OrderFree(arith, top, bufs, step) && FullInbox(top, bufs, step, g, msgs)
    ensures AbsorbAll(arith, top, |bufs|, step, bufs[g], msgs) == Round(arith, top, bufs, step)[g]
  {
    match top {
      case Ring =>
        RingHears(arith, bufs, step, g, msgs);
      case Tree =>
        if step < MaxDepth(|bufs|) {
          forall b | 0 <= b < |bufs|
            ensures AbsorbAll(arith, Tree, |bufs|, step, bufs[g], msgs)[b] == TreeRound(arith, bufs, step)[g][b]
          {
            ParentHears(arith, bufs, step, g, msgs, b);
          }
        } else {
          ChildHears(arith, bufs, step, g, msgs);
        }
    }
  }

  /** GPU g's buffer after hearing from its sources in some order. */
  ghost predicate Heard(arith: Arith, top: Topology, bufs: Buffers, step: nat, g: nat, buf: seq<real>)
    requires Square(bufs) && g < |bufs| && step < MaxSteps(top, |bufs|)
  {
    exists msgs :: FullInbox(top, bufs, step, g, msgs) && buf == AbsorbAll(arith, top, |bufs|, step, bufs[g], msgs)
  }

  /** All buffers after one step, each GPU hearing from its sources in some order. */
  ghost predicate SomeRound(arith: Arith, top: Topology, bufs: Buffers, step: nat, next: Buffers)
    requires Square(bufs) && |bufs| >= 1 && step < MaxSteps(top, |bufs|)
  {
    |next| == |bufs| && forall g :: 0 <= g < |bufs| ==> Heard(arith, top, bufs, step, g, next[g])
  }

  lemma {:induction false} SomeRoundIsRound(arith: Arith, top: Topology, bufs: Buffers, step: nat, next: Buffers)
    requires Square(bufs) && |bufs| >= 1 && step < MaxSteps(top, |bufs|)
    requires SomeRound(arith, top, bufs, step, next) && OrderFree(arith, top, bufs, step)
    ensures next == Round(arith, top, bufs, step)
  {
    hide AbsorbAll, OrderFree, Round;
    forall g | 0 <= g < |bufs| ensures next[g] == Round(arith, top, bufs, step)[g] {
      assert Heard(arith, top, bufs, step, g, next[g]);
      var msgs :| FullInbox(top, bufs, step, g, msgs)
        && next[g] == AbsorbAll(arith, top, |bufs|, step, bufs[g], msgs);
      AnyOrder(arith, top, bufs, step, g, msgs);
    }
  }

  /** Whatever the order in which GPUs hear from their sources, the step comes to the same. */
  ghost predicate OrderIrrelevant(arith: Arith, top: Topology, bufs: Buffers, step: nat)
    requires Square(bufs) && |bufs| >= 1 && step < MaxSteps(top, |bufs|)
  {
    forall g: nat, msgs :: g < |bufs| && FullInbox(top, bufs, step, g, msgs) ==>
      AbsorbAll(arith, top, |bufs|, step, bufs[g], msgs) == Round(arith, top, bufs, step)[g]
  }

  /** The messages of the two children of node g, child c's first. */
  function TwoMessages(bufs: Buffers, step: nat, g: nat, c: nat): (msgs: seq<BlockMsg>)
    requires Square(bufs) && 2 * g + 2 < |bufs| && step < MaxDepth(|bufs|) && 2 * g + 1 <= c <= 2 * g + 2
    ensures forall m :: m in msgs ==> GoodMsg(Tree, |bufs|, m)
  {
    var other := 4 * g + 3 - c;
    [MsgOf(Tree, |bufs|, bufs[c], c, g, step), MsgOf(Tree, |bufs|, bufs[other], other, g, step)]
  }

  lemma {:induction false} TwoMessagesAreFull(bufs: Buffers, step: nat, g: nat, c: nat)
    requires Square(bufs) && 2 * g + 2 < |bufs| && step < MaxDepth(|bufs|) && 2 * g + 1 <= c <= 2 * g + 2
    requires Depth(g) == MaxDepth(|bufs|) - step - 1
    ensures FullInbox(Tree, bufs, step, g, TwoMessages(bufs, step, g, c))
  {
    var msgs := TwoMessages(bufs, step, g, c);
    assert Sources(Tree, |bufs|, g, step) == [2 * g + 1, 2 * g + 2];
    assert msgs[0].sender == c && msgs[1].sender == 4 * g + 3 - c;
  }

  lemma {:induction false} TwoMessagesSum(arith: Arith, bufs: Buffers, step: nat, g: nat, c: nat, b: nat)
    requires Square(bufs) && 2 * g + 2 < |bufs| && b < |bufs| && step < MaxDepth(|bufs|) && 2 * g + 1 <= c <= 2 * g + 2
    ensures AbsorbAll(arith, Tree, |bufs|, step, bufs[g], TwoMessages(bufs, step, g, c))[b] ==
            Sum(arith, Sum(arith, bufs[g][b], bufs[c][b]), bufs[4 * g + 3 - c][b])
  {
    hide Sum;
    ParentSums(arith, |bufs|, step, bufs[g], TwoMessages(bufs, step, g, c), b);
  }

  lemma {:induction false} IrrelevantEitherWay(arith: Arith, bufs: Buffers, step: nat, g: nat, b: nat)
    requires Square(bufs) && 2 * g + 2 < |bufs| && b < |bufs| && step < MaxDepth(|bufs|)
    requires Depth(g) == MaxDepth(|bufs|) - step - 1 && OrderIrrelevant(arith, Tree, bufs, step)
    ensures EitherWay(arith, bufs[g][b], bufs[2 * g + 1][b], bufs[2 * g + 2][b])
  {
    hide Sum, AbsorbAll, FullInbox, TwoMessages;
    TwoMessagesAreFull(bufs, step, g, 2 * g + 2);
    TwoMessagesSum(arith, bufs, step, g, 2 * g + 2, b);
    ParentUpdate(arith, bufs, step, g, b);
  }

  /** The order of arrival does not matter in a step if and only if both orders agree wherever two values are added. */
  lemma {:induction false} OrderFreeExactly(arith: Arith, top: Topology, bufs: Buffers, step: nat)
    requires Square(bufs) && |bufs| >= 1 && step < MaxSteps(top, |bufs|)
    ensures OrderIrrelevant(arith, top, bufs, step) <==> OrderFree(arith, top, bufs, step)
  {
    hide Sum, AbsorbAll, AbsorbMsg;
    if OrderFree(arith, top, bufs, step) {
      forall g: nat, msgs | g < |bufs| && FullInbox(top, bufs, step, g, msgs)
        ensures AbsorbAll(arith, top, |bufs|, step, bufs[g], msgs) == Round(arith, top, bufs, step)[g]
      {
        AnyOrder(arith, top, bufs, step, g, msgs);
      }
    }
    if OrderIrrelevant(arith, top, bufs, step) && top == Tree && step < MaxDepth(|bufs|) {
      forall g | 0 <= g < |bufs| ensures OrderFreeAt(arith, bufs, step, g) {
        if Depth(g) == MaxDepth(|bufs|) - step - 1 && 2 * g + 2 < |bufs| {
          forall b | 0 <= b < |bufs|
            ensures EitherWay(arith, bufs[g][b], bufs[2 * g + 1][b], bufs[2 * g + 2][b])
          {
            IrrelevantEitherWay(arith, bufs, step, g, b);
          }
        }
      }
    }
  }

  // ---------- where no order matters ----------

  lemma WholeEitherWay(arith: Arith, x: real, y: real, z: real)
    requires Whole(x) && Whole(y) && Whole(z) && x + y + z <= LIMIT as real
    ensures EitherWay(arith, x, y, z)
  {
    hide Add;
    SumWhole(arith, x, y);
    SumWhole(arith, x + y, z);
    SumWhole(arith, x, z);
    SumWhole(arith, x + z, y);
  }

  /** What a parent of two holds, and its children bring, before it reduces. */
  lemma {:induction false} BeforeReducing(arith: Arith, init: Buffers, bufs: Buffers, s: nat, g: nat, b: nat)
    requires Square(init) && InTreePhase(arith, init, bufs, s)
    requires 2 * g + 2 < |init| && b < |init| && s < MaxDepth(|init|) && Depth(g) == MaxDepth(|init|) - s - 1
    ensures bufs[g][b] == init[g][b]
    ensures bufs[2 * g + 1][b] == SubtreeSum(arith, init, b, 2 * g + 1)
    ensures bufs[2 * g + 2][b] == SubtreeSum(arith, init, b, 2 * g + 2)
  {
    hide Sum;
    assert bufs[g][b] == TreeCell(arith, init, s, g, b);
    ChildSums(arith, init, bufs, s, g, b, 2 * g + 1);
    ChildSums(arith, init, bufs, s, g, b, 2 * g + 2);
  }

  lemma {:induction false} ModerateParts(init: Buffers, b: nat, g: nat)
    requires Square(init) && Moderate(init) && b < |init| && g < |init|
    ensures EitherWay(Rounded, init[g][b], SubtreeSum(Exact, init, b, 2 * g + 1), SubtreeSum(Exact, init, b, 2 * g + 2))
  {
    hide Add;
    SubtreeParts(init, b, g);
    WholeEitherWay(Rounded, init[g][b], SubtreeSum(Exact, init, b, 2 * g + 1), SubtreeSum(Exact, init, b, 2 * g + 2));
  }

  lemma {:induction false} ModerateEitherWay(init: Buffers, bufs: Buffers, s: nat, g: nat, b: nat)
    requires Square(init) && Moderate(init) && InTreePhase(Rounded, init, bufs, s)
    requires 2 * g + 2 < |init| && b < |init| && s < MaxDepth(|init|) && Depth(g) == MaxDepth(|init|) - s - 1
    ensures EitherWay(Rounded, bufs[g][b], bufs[2 * g + 1][b], bufs[2 * g + 2][b])
  {
    hide Add;
    BeforeReducing(Rounded, init, bufs, s, g, b);
    RoundedSubtreeIsExact(init, b, 2 * g + 1);
    RoundedSubtreeIsExact(init, b, 2 * g + 2);
    ModerateParts(init, b, g);
  }

  lemma {:induction false} ModerateIsOrderFree(init: Buffers, bufs: Buffers, s: nat)
    requires Square(init) && |init| >= 1 && Moderate(init) && InTreePhase(Rounded, init, bufs, s)
    requires s < 2 * MaxDepth(|init|)
    ensures OrderFree(Rounded, Tree, bufs, s)
  {
    hide Add;
    forall g | 0 <= g < |bufs| && s < MaxDepth(|bufs|) ensures OrderFreeAt(Rounded, bufs, s, g) {
      if Depth(g) == MaxDepth(|bufs|) - s - 1 && 2 * g + 2 < |bufs| {
        forall b | 0 <= b < |bufs| ensures EitherWay(Rounded, bufs[g][b], bufs[2 * g + 1][b], bufs[2 * g + 2][b]) {
          ModerateEitherWay(init, bufs, s, g, b);
        }
      }
    }
  }

  /** In the ring, in exact arithmetic and on moderate data. */
  lemma {:induction false} ModerateOrderNeverMatters(arith: Arith, top: Topology, init: Buffers)
    requires Square(init) && |init| >= 1 && (top == Ring || arith == Exact || Moderate(init))
    ensures OrderNeverMatters(arith, top, init)
  {
    if top == Tree && arith == Rounded {
      forall s | 0 <= s < MaxSteps(Tree, |init|) ensures OrderFree(arith, top, At(arith, top, init, s), s) {
        TreeInPhase(Rounded, init, s);
        ModerateIsOrderFree(init, TreeAt(Rounded, init, s), s);
      }
    }
  }

  // ---------- where it does ----------

  lemma OneThenTwo()
    ensures Sum(Rounded, Sum(Rounded, LIMIT as real, 1.0), 2.0) == (LIMIT + 2) as real
  {
    hide Add;
    AddIntegers(LIMIT, 1);
    AddIntegers(LIMIT, 2);
  }

  lemma TwoThenOne()
    ensures Sum(Rounded, Sum(Rounded, LIMIT as real, 2.0), 1.0) == (LIMIT + 4) as real
  {
    hide Add;
    AddIntegers(LIMIT, 2);
    AddIntegers(LIMIT + 2, 1);
  }

  /** In binary64, 2^53 + 1 + 2 and 2^53 + 2 + 1 differ. */
  lemma OrderMatters()
    ensures !EitherWay(Rounded, LIMIT as real, 1.0, 2.0)
  {
    hide Add;
    OneThenTwo();
    TwoThenOne();
  }

}

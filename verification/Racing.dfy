/**
 When the outcome of a barrier step depends on the schedule: exactly when the order of two additions can show. A tree
 parent adds its two children's buffers in the order they arrive.
 */
module Racing {
  import opened Arithmetic
  import opened Barrier
  import opened Collective
  import opened Float64
  import opened HeapTree
  import opened RingSpec

  // ---------- runs ----------

  lemma {:induction false} RunAppends(p: Plan, s: State, actions: seq<Action>, t: State, more: seq<Action>, u: State)
    requires WellFormed(p, s) && IsRun(p, s, actions, t) && WellFormed(p, t) && IsRun(p, t, more, u)
    ensures IsRun(p, s, actions + more, u)
    decreases |actions|
  {
    hide Enabled, Do;
    if actions == [] {
      assert [] + more == more;
    } else {
      RunAppends(p, Do(p, s, actions[0]), actions[1..], t, more, u);
      assert (actions + more)[1..] == actions[1..] + more;
    }
  }

  lemma {:induction false} OneAction(p: Plan, s: State, a: Action)
    requires WellFormed(p, s) && Enabled(p, s, a)
    ensures IsRun(p, s, [a], Do(p, s, a))
  {
    assert IsRun(p, Do(p, s, a), [a][1..], Do(p, s, a));
  }

  /** One more operation at the end of a run. */
  lemma {:induction false} RunGoesOn(p: Plan, bufs: Buffers, s: State, actions: seq<Action>, u: State, a: Action)
    requires WellFormed(p, s) && IsRun(p, s, actions, u) && Inv(p, bufs, u) && Enabled(p, u, a)
    ensures IsRun(p, s, actions + [a], Do(p, u, a)) && Inv(p, bufs, Do(p, u, a))
  {
    hide Enabled, Do;
    StepKeepsInv(p, bufs, u, a);
    OneAction(p, u, a);
    RunAppends(p, s, actions, u, [a], Do(p, u, a));
  }

  /** Every run can be carried on until Step returns. */
  lemma {:induction false} RunsToCompletion(p: Plan, bufs: Buffers, s: State) returns (actions: seq<Action>, t: State)
    requires Inv(p, bufs, s)
    ensures IsRun(p, s, actions, t) && Inv(p, bufs, t) && Completed(p, t)
    decreases Measure(p, s)
  {
    if Completed(p, s) {
      actions, t := [], s;
    } else {
      var a := Progress(p, bufs, s);
      StepKeepsInv(p, bufs, s, a);
      EachOperationCounts(p, bufs, s, a);
      LeftNonNegative(p, bufs, s, p.n);
      PigeonholeCollected(p, bufs, s);
      var rest;
      rest, t := RunsToCompletion(p, bufs, Do(p, s, a));
      OneAction(p, s, a);
      RunAppends(p, s, [a], Do(p, s, a), rest, t);
      actions := [a] + rest;
    }
  }

  /** What has been delivered to a GPU stays delivered, in that order. */
  lemma InboxExtends(p: Plan, bufs: Buffers, s: State, a: Action, i: nat)
    requires Inv(p, bufs, s) && Enabled(p, s, a) && i < p.n
    ensures Inbox(p, s, i) <= Inbox(p, Do(p, s, a), i)
  {
    hide AbsorbAll, AbsorbMsg, MsgOf;
    assert WorkerOk(p, s, i);
    if a.Recv? && a.i == i {
      assert s.rx[i] == [s.rx[i][0]] + s.rx[i][1..];
    }
  }

  lemma {:induction false} InboxPersists(p: Plan, bufs: Buffers, s: State, actions: seq<Action>, t: State, i: nat)
    requires Inv(p, bufs, s) && IsRun(p, s, actions, t) && i < p.n
    ensures Inv(p, bufs, t) && Inbox(p, s, i) <= Inbox(p, t, i)
    decreases |actions|
  {
    if actions != [] {
      StepKeepsInv(p, bufs, s, actions[0]);
      InboxExtends(p, bufs, s, actions[0], i);
      InboxPersists(p, bufs, Do(p, s, actions[0]), actions[1..], t, i);
    }
  }

  // ---------- a schedule that lets one child go first ----------

  /** The coordinator triggers the first k GPUs before anything else happens. */
  lemma {:induction false} TriggersFirst(p: Plan, bufs: Buffers, s: State, k: nat)
    returns (actions: seq<Action>, t: State)
    requires Ready(p, bufs, s) && k <= p.n
    ensures IsRun(p, s, actions, t) && Inv(p, bufs, t)
    ensures t.triggered == k && t.workers == s.workers && t.rx == s.rx
  {
    if k == 0 {
      ReadyInv(p, bufs, s);
      actions, t := [], s;
    } else {
      var before, u := TriggersFirst(p, bufs, s, k - 1);
      assert WorkerOk(p, u, k - 1);
      RunGoesOn(p, bufs, s, before, u, Trigger);
      actions, t := before + [Trigger], Do(p, u, Trigger);
    }
  }

  /** Then one child wakes and sends, so that its parent's channel holds its message alone. */
  lemma {:induction false} SendsFirst(p: Plan, bufs: Buffers, s: State, g: nat, c: nat)
    returns (actions: seq<Action>, t: State)
    requires Ready(p, bufs, s) && g < p.n && c < p.n && p.targets[c] == [g]
    ensures IsRun(p, s, actions, t) && Inv(p, bufs, t)
    ensures Inbox(p, t, g) == [MsgOf(p.top, p.n, bufs[c], c, g, p.step)]
  {
    hide AbsorbAll, AbsorbMsg, MsgOf, Inv, IsRun;
    var before, u := TriggersFirst(p, bufs, s, p.n);
    assert WorkerOk(p, u, c);
    var v := Do(p, u, Wake(c));
    RunGoesOn(p, bufs, s, before, u, Wake(c));
    RunGoesOn(p, bufs, s, before + [Wake(c)], v, Send(c));
    actions, t := before + [Wake(c)] + [Send(c)], Do(p, v, Send(c));
  }

  /** Node g adds up two children's buffers in this step. */
  predicate AddsTwo(bufs: Buffers, step: nat, g: nat)
    requires Square(bufs) && |bufs| >= 1
  {
    2 * g + 2 < |bufs| && step < MaxDepth(|bufs|) && Depth(g) == MaxDepth(|bufs|) - step - 1
  }

  lemma {:induction false} InboxIsTwoMessages(bufs: Buffers, step: nat, g: nat, c: nat, got: seq<BlockMsg>)
    requires Square(bufs) && |bufs| >= 1 && AddsTwo(bufs, step, g) && 2 * g + 1 <= c <= 2 * g + 2
    requires FullInbox(Tree, bufs, step, g, got) && got != [] && got[0].sender == c
    ensures got == TwoMessages(bufs, step, g, c)
  {
    assert Sources(Tree, |bufs|, g, step) == [2 * g + 1, 2 * g + 2];
    assert got[1].sender == 4 * g + 3 - c;
  }

  /** A schedule of the step from its beginning until Step returns. */
  predicate Completes(p: Plan, s: State, actions: seq<Action>, t: State)
    requires WellFormed(p, s)
  {
    IsRun(p, s, actions, t) && WellFormed(p, t) && Completed(p, t)
  }

  /** Either child may be heard first. */
  lemma {:induction false} ChildFirst(arith: Arith, bufs: Buffers, step: nat, g: nat, c: nat, s: State)
    returns (actions: seq<Action>, t: State)
    requires Square(bufs) && |bufs| >= 1 && AddsTwo(bufs, step, g) && 2 * g + 1 <= c <= 2 * g + 2
    requires Ready(PlanOf(arith, Tree, |bufs|, step), bufs, s)
    ensures Completes(PlanOf(arith, Tree, |bufs|, step), s, actions, t)
    ensures t.workers[g].buf == AbsorbAll(arith, Tree, |bufs|, step, bufs[g], TwoMessages(bufs, step, g, c))
  {
    hide AbsorbAll, AbsorbMsg, MaxDepth;
    var p := PlanOf(arith, Tree, |bufs|, step);
    assert Depth(c) == Depth(g) + 1 && Parent(c) == g;
    assert p.targets[c] == [g];
    var before, u := SendsFirst(p, bufs, s, g, c);
    var rest;
    rest, t := RunsToCompletion(p, bufs, u);
    RunAppends(p, s, before, u, rest, t);
    actions := before + rest;
    InboxPersists(p, bufs, u, rest, t, g);
    CompletedHeard(p, bufs, t);
    assert HeardAll(p, bufs, t.workers[g], g);
    var got := t.workers[g].got;
    assert Inbox(p, t, g) == got;
    assert Inbox(p, u, g)[0] == got[0];
    InboxIsTwoMessages(bufs, step, g, c, got);
  }

  // ---------- exactly when ----------

  /** All schedules of the step leave the same buffers. */
  ghost predicate OneOutcome(p: Plan, s: State)
    requires WellFormed(p, s)
  {
    forall x, t, y, u, i: nat :: Completes(p, s, x, t) && Completes(p, s, y, u) && i < p.n ==>
      t.workers[i].buf == u.workers[i].buf
  }

  lemma {:induction false} RaceShows(arith: Arith, bufs: Buffers, step: nat, g: nat, b: nat, s: State)
    requires Square(bufs) && |bufs| >= 1 && AddsTwo(bufs, step, g) && b < |bufs|
    requires Ready(PlanOf(arith, Tree, |bufs|, step), bufs, s) && OneOutcome(PlanOf(arith, Tree, |bufs|, step), s)
    ensures EitherWay(arith, bufs[g][b], bufs[2 * g + 1][b], bufs[2 * g + 2][b])
  {
    hide AbsorbAll, Sum, MaxDepth, IsRun, Completed, Ready, TwoMessages;
    var x, t := ChildFirst(arith, bufs, step, g, 2 * g + 1, s);
    var y, u := ChildFirst(arith, bufs, step, g, 2 * g + 2, s);
    assert t.workers[g].buf == u.workers[g].buf;
    TwoMessagesSum(arith, bufs, step, g, 2 * g + 1, b);
    TwoMessagesSum(arith, bufs, step, g, 2 * g + 2, b);
  }

  /**
   From empty channels, all schedules of a step leave the same buffers, if and only if both orders of the two additions
   agree wherever a GPU adds two children's buffers.
   */
  lemma {:induction false} OneOutcomeExactly(arith: Arith, top: Topology, bufs: Buffers, step: nat, s: State)
    requires Square(bufs) && |bufs| >= 1 && step < MaxSteps(top, |bufs|)
    requires Ready(PlanOf(arith, top, |bufs|, step), bufs, s)
    ensures OneOutcome(PlanOf(arith, top, |bufs|, step), s) <==> OrderFree(arith, top, bufs, step)
  {
    var p := PlanOf(arith, top, |bufs|, step);
    if OrderFree(arith, top, bufs, step) {
      forall x, t, y, u, i: nat | Completes(p, s, x, t) && Completes(p, s, y, u) && i < p.n
        ensures t.workers[i].buf == u.workers[i].buf
      {
        StepIsConfluent(arith, top, bufs, step, s, x, t);
        StepIsConfluent(arith, top, bufs, step, s, y, u);
      }
    }
    if OneOutcome(p, s) && top == Tree && step < MaxDepth(|bufs|) {
      forall g | 0 <= g < |bufs| ensures OrderFreeAt(arith, bufs, step, g) {
        if AddsTwo(bufs, step, g) {
          forall b | 0 <= b < |bufs|
            ensures EitherWay(arith, bufs[g][b], bufs[2 * g + 1][b], bufs[2 * g + 2][b])
          {
            RaceShows(arith, bufs, step, g, b, s);
          }
        }
      }
    }
  }

  /** With three GPUs holding 2^53, 1 and 2 in block 0, binary64 sums depend on which child the root hears first. */
  lemma {:induction false} ThreeGPUsRace(bufs: Buffers, s: State)
    requires Square(bufs) && |bufs| == 3
    requires bufs[0][0] == LIMIT as real && bufs[1][0] == 1.0 && bufs[2][0] == 2.0
    ensures MaxDepth(3) == 1
    ensures Ready(PlanOf(Rounded, Tree, 3, 0), bufs, s) ==> !OneOutcome(PlanOf(Rounded, Tree, 3, 0), s)
  {
    hide Sum;
    assert Depth(0) == 0 && MaxDepth(3) == 1;
    OrderMatters();
    assert !OrderFreeAt(Rounded, bufs, 0, 0);
    if Ready(PlanOf(Rounded, Tree, 3, 0), bufs, s) {
      OneOutcomeExactly(Rounded, Tree, bufs, 0, s);
    }
  }
}

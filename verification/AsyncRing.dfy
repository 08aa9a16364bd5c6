/** The free-running ring of main.go as a transition system whose steps are single channel operations. */
module AsyncRing {
  import opened Arithmetic
  import opened Modular
  import opened RingSpec

  const CAPACITY := 1

  datatype Message = Message(step: nat, chunk: nat, value: real)

  /** One goroutine. It is about to send when sent == recvd and about to receive when sent == recvd + 1. */
  datatype Gpu = Gpu(sent: nat, recvd: nat, data: seq<real>)

  /** n goroutines without a barrier; chans[i] is the capacity-1 input channel of GPU i, oldest message first. */
  datatype State = State(arith: Arith, gpus: seq<Gpu>, chans: seq<seq<Message>>)

  datatype Action = Send(i: nat) | Recv(i: nat)

  /** The loop variable `step`, which restarts at 0 in the second phase. */
  function LocalStep(n: nat, r: nat): nat
    requires n >= 1 && r < Rounds(n)
  {
    if r < n - 1 then r else r - (n - 1)
  }

  /** cSend, as each phase computes it. */
  function CSend(n: nat, id: nat, r: nat): (c: nat)
    requires id < n && r < Rounds(n)
    ensures c < n
  {
    var step := LocalStep(n, r);
    if r < n - 1 then (id - step + n) % n else (id + 1 - step + n) % n
  }

  /** cRecv, as each phase computes it. */
  function CRecv(n: nat, id: nat, r: nat): (c: nat)
    requires id < n && r < Rounds(n)
    ensures c < n
  {
    var step := LocalStep(n, r);
    if r < n - 1 then (id - step - 1 + n) % n else (id - step + n) % n
  }

  /** The chunk a goroutine sends. */
  lemma ChunkSent(n: nat, id: nat, r: nat)
    requires id < n && r < Rounds(n)
    ensures CSend(n, id, r) == SendIdx(n, id, r)
  {
    var step := LocalStep(n, r);
    if r < n - 1 {
      PosModIsWrap(n, id - step + n);
    } else if id + 1 - step + n == 2 * n {
      ModUnique(2 * n, n, 2, 0);
    } else {
      PosModIsWrap(n, id + 1 - step + n);
    }
  }

  /** The chunk a goroutine expects is the chunk its predecessor sends in the same round. */
  lemma ChunksAgree(n: nat, id: nat, r: nat)
    requires id < n && r < Rounds(n)
    ensures CSend(n, id, r) == SendIdx(n, id, r)
    ensures CRecv(n, id, r) == CSend(n, Prev(n, id), r) == SendIdx(n, Prev(n, id), r)
  {
    var step := LocalStep(n, r);
    ChunkSent(n, id, r);
    ChunkSent(n, Prev(n, id), r);
    PosModIsWrap(n, id - step + n - if r < n - 1 then 1 else 0);
  }

  lemma SuccessorIsNext(n: nat, i: nat)
    requires i < n
    ensures (i + 1) % n == Next(n, i)
  {
    PosModIsWrap(n, i + 1);
  }

  predicate WellFormed(s: State) {
    && |s.gpus| == |s.chans|
    && forall i :: 0 <= i < |s.gpus| ==> |s.gpus[i].data| == |s.gpus|
  }

  /** Whether goroutine i can perform its next operation without blocking. */
  predicate Enabled(s: State, a: Action)
    requires WellFormed(s)
  {
    var n := |s.gpus|;
    && a.i < n
    && var g := s.gpus[a.i];
       match a
       case Send(i) => g.sent == g.recvd < Rounds(n) && |s.chans[Next(n, i)]| < CAPACITY
       case Recv(i) => g.sent == g.recvd + 1 <= Rounds(n) && s.chans[i] != []
  }

  function SendMessage(n: nat, i: nat, g: Gpu): Message
    requires i < n && g.sent < Rounds(n) && |g.data| == n
  {
    var c := SendIdx(n, i, g.sent);
    Message(LocalStep(n, g.sent), c, g.data[c])
  }

  function Do(s: State, a: Action): (s': State)
    requires WellFormed(s) && Enabled(s, a)
    ensures WellFormed(s') && |s'.gpus| == |s.gpus| && s'.arith == s.arith
  {
    var n, i := |s.gpus|, a.i;
    var g := s.gpus[i];
    match a
    case Send(_) =>
      var to := Next(n, i);
      State(s.arith, s.gpus[i := g.(sent := g.sent + 1)], s.chans[to := s.chans[to] + [SendMessage(n, i, g)]])
    case Recv(_) =>
      var data := Absorb(s.arith, n, i, g.recvd, g.data, s.chans[i][0].value);
      State(s.arith, s.gpus[i := Gpu(g.sent, g.recvd + 1, data)], s.chans[i := s.chans[i][1..]])
  }

  function Start(arith: Arith, init: Buffers): (s: State)
    requires Square(init)
    ensures WellFormed(s) && |s.gpus| == |init| && s.arith == arith
  {
    State(arith, seq(|init|, i requires 0 <= i < |init| => Gpu(0, 0, init[i])), seq(|init|, i => []))
  }

  /** Performing the actions in order leads from s to t. */
  predicate IsRun(s: State, actions: seq<Action>, t: State)
    requires WellFormed(s)
    decreases |actions|
  {
    if actions == [] then s == t
    else Enabled(s, actions[0]) && IsRun(Do(s, actions[0]), actions[1..], t)
  }

  predicate Finished(s: State)
    requires |s.gpus| >= 1
  {
    forall i :: 0 <= i < |s.gpus| ==> s.gpus[i].recvd == Rounds(|s.gpus|)
  }

  predicate Stuck(s: State)
    requires WellFormed(s)
  {
    forall i :: 0 <= i < |s.gpus| ==> !Enabled(s, Send(i)) && !Enabled(s, Recv(i))
  }

  // ---------- control: counters and channel lengths ----------

  /** GPU i alternates sends and receives, and channel i holds what its predecessor is ahead by: at most one message. */
  predicate ControlAt(s: State, i: nat)
    requires WellFormed(s) && i < |s.gpus|
  {
    var n := |s.gpus|;
    var src, g := s.gpus[Prev(n, i)], s.gpus[i];
    && g.recvd <= g.sent <= g.recvd + 1 && g.sent <= Rounds(n)
    && g.recvd <= src.sent <= g.recvd + 1
    && |s.chans[i]| == src.sent - g.recvd
  }

  predicate Control(s: State) {
    WellFormed(s) && |s.gpus| >= 1 && forall i :: 0 <= i < |s.gpus| ==> ControlAt(s, i)
  }

  lemma StepKeepsControl(s: State, a: Action)
    requires Control(s) && Enabled(s, a)
    ensures Control(Do(s, a))
  {
    assert ControlAt(s, a.i) && ControlAt(s, Next(|s.gpus|, a.i));
    forall j | 0 <= j < |s.gpus| ensures ControlAt(Do(s, a), j) {
      assert ControlAt(s, j);
    }
  }

  /** A GPU that has completed the fewest rounds. */
  lemma {:induction false} Slowest(s: State, k: nat) returns (m: nat)
    requires 1 <= k <= |s.gpus|
    ensures m < k && forall i :: 0 <= i < k ==> s.gpus[m].recvd <= s.gpus[i].recvd
  {
    m := 0;
    if k > 1 {
      m := Slowest(s, k - 1);
      if s.gpus[k - 1].recvd < s.gpus[m].recvd {
        m := k - 1;
      }
    }
  }

  /**
   No unfinished state is stuck: the slowest GPU can send, or can receive, or waits only for a
   predecessor that is itself free to send.
   */
  lemma DeadlockFree(s: State) returns (a: Action)
    requires Control(s) && !Finished(s)
    ensures Enabled(s, a)
  {
    var n := |s.gpus|;
    var m := Slowest(s, n);
    var j :| 0 <= j < n && s.gpus[j].recvd != Rounds(n);
    assert ControlAt(s, j) && ControlAt(s, m) && ControlAt(s, Next(n, m)) && ControlAt(s, Prev(n, m));
    if s.gpus[m].sent == s.gpus[m].recvd {
      a := Send(m);
    } else if s.chans[m] != [] {
      a := Recv(m);
    } else {
      a := Send(Prev(n, m));
    }
  }

  // ---------- data: every buffer and message is a lock-step one ----------

  /** What GPU i sends in round r of a lock-step history. */
  function LockStepMessage(n: nat, lock: seq<Buffers>, i: nat, r: nat): Message
    requires History(n, lock) && i < n && r < Rounds(n)
  {
    var b := SendIdx(n, i, r);
    Message(LocalStep(n, r), b, lock[r][i][b])
  }

  predicate DataAt(lock: seq<Buffers>, s: State, i: nat)
    requires Control(s) && History(|s.gpus|, lock) && i < |s.gpus|
  {
    var n, r := |s.gpus|, s.gpus[i].recvd;
    && r <= Rounds(n) && s.gpus[i].data == lock[r][i]
    && (s.chans[i] != [] ==> r < Rounds(n) && s.chans[i][0] == LockStepMessage(n, lock, Prev(n, i), r))
  }

  predicate Inv(lock: seq<Buffers>, s: State) {
    && Control(s) && History(|s.gpus|, lock)
    && (forall r :: 0 <= r < Rounds(|s.gpus|) ==> Succeeds(s.arith, |s.gpus|, lock, r))
    && (forall i :: 0 <= i < |s.gpus| ==> DataAt(lock, s, i))
  }

  lemma StartInv(arith: Arith, init: Buffers)
    requires Square(init) && |init| >= 1
    ensures Inv(RingHistory(arith, init), Start(arith, init))
  {
    var s, lock := Start(arith, init), RingHistory(arith, init);
    assert forall i :: 0 <= i < |init| ==> ControlAt(s, i);
    assert forall i :: 0 <= i < |init| ==> DataAt(lock, s, i);
  }

  lemma SendKeepsInv(lock: seq<Buffers>, s: State, i: nat)
    requires Inv(lock, s) && Enabled(s, Send(i))
    ensures Inv(lock, Do(s, Send(i)))
  {
    var t, to := Do(s, Send(i)), Next(|s.gpus|, i);
    StepKeepsControl(s, Send(i));
    assert DataAt(lock, s, i) && DataAt(lock, s, to) && ControlAt(s, to);
    forall j | 0 <= j < |s.gpus| ensures DataAt(lock, t, j) {
      assert DataAt(lock, s, j);
    }
  }

  lemma RecvKeepsInv(lock: seq<Buffers>, s: State, i: nat)
    requires Inv(lock, s) && Enabled(s, Recv(i))
    ensures Inv(lock, Do(s, Recv(i)))
  {
    var t, r := Do(s, Recv(i)), s.gpus[i].recvd;
    StepKeepsControl(s, Recv(i));
    assert t.gpus[i].data == lock[r + 1][i] by {
      assert DataAt(lock, s, i) && Succeeds(s.arith, |s.gpus|, lock, r);
    }
    assert t.chans[i] == [] by {
      assert ControlAt(s, i);
    }
    forall j | 0 <= j < |s.gpus| ensures DataAt(lock, t, j) {
      assert DataAt(lock, s, j);
    }
  }

  /** Any operation of any goroutine keeps the invariant, and a received message is of the receiver's own round. */
  lemma StepKeepsInv(lock: seq<Buffers>, s: State, a: Action)
    requires Inv(lock, s) && Enabled(s, a)
    ensures Inv(lock, Do(s, a))
    ensures a.Recv? ==> s.chans[a.i][0].step == LocalStep(|s.gpus|, s.gpus[a.i].recvd)
  {
    match a {
      case Send(i) => SendKeepsInv(lock, s, i);
      case Recv(i) =>
        RecvKeepsInv(lock, s, i);
        assert DataAt(lock, s, i);
    }
  }

  /** Every state of every interleaving is in step with the lock-step history. */
  lemma {:induction false} RunKeepsInv(lock: seq<Buffers>, s: State, actions: seq<Action>, t: State)
    requires Inv(lock, s) && IsRun(s, actions, t)
    ensures Inv(lock, t) && |t.gpus| == |s.gpus| && t.arith == s.arith
    decreases |actions|
  {
    if actions != [] {
      StepKeepsInv(lock, s, actions[0]);
      RunKeepsInv(lock, Do(s, actions[0]), actions[1..], t);
    }
  }

  // ---------- counting operations ----------

  function Performed(gpus: seq<Gpu>): nat {
    if gpus == [] then 0 else Performed(gpus[..|gpus| - 1]) + gpus[|gpus| - 1].sent + gpus[|gpus| - 1].recvd
  }

  lemma {:induction false} PerformedUpdate(gpus: seq<Gpu>, i: nat, g: Gpu)
    requires i < |gpus|
    ensures Performed(gpus[i := g]) ==
            Performed(gpus) - gpus[i].sent - gpus[i].recvd + g.sent + g.recvd
  {
    var k := |gpus| - 1;
    if i == k {
      assert gpus[i := g][..k] == gpus[..k];
    } else {
      assert gpus[i := g][..k] == gpus[..k][i := g];
      PerformedUpdate(gpus[..k], i, g);
    }
  }

  lemma {:induction false} PerformedAtMost(gpus: seq<Gpu>, r: nat)
    requires forall i :: 0 <= i < |gpus| ==> gpus[i].sent <= r && gpus[i].recvd <= r
    ensures Performed(gpus) <= 2 * (r * |gpus|)
    ensures (forall i :: 0 <= i < |gpus| ==> gpus[i].sent == gpus[i].recvd == r) ==>
              Performed(gpus) == 2 * (r * |gpus|)
  {
    if gpus != [] {
      PerformedAtMost(gpus[..|gpus| - 1], r);
      assert r * |gpus| == r * (|gpus| - 1) + r;
    }
  }

  lemma OneMorePerformed(s: State, a: Action)
    requires WellFormed(s) && Enabled(s, a)
    ensures Performed(Do(s, a).gpus) == Performed(s.gpus) + 1
  {
    PerformedUpdate(s.gpus, a.i, Do(s, a).gpus[a.i]);
  }

  /** Every operation advances the count by one, so no run repeats or wastes work. */
  lemma {:induction false} RunLength(s: State, actions: seq<Action>, t: State)
    requires WellFormed(s) && IsRun(s, actions, t)
    ensures |actions| == Performed(t.gpus) - Performed(s.gpus)
    decreases |actions|
  {
    if actions != [] {
      OneMorePerformed(s, actions[0]);
      RunLength(Do(s, actions[0]), actions[1..], t);
    }
  }

  /** Two channel operations per GPU and round. */
  function OperationTotal(n: nat): (k: nat)
    requires n >= 1
    ensures k == 4 * n * (n - 1)
  {
    assert (2 * (n - 1)) * n == 2 * (n * (n - 1));
    2 * (Rounds(n) * n)
  }

  lemma {:induction false} NothingPerformed(gpus: seq<Gpu>)
    requires forall i :: 0 <= i < |gpus| ==> gpus[i].sent == gpus[i].recvd == 0
    ensures Performed(gpus) == 0
  {
    if gpus != [] {
      NothingPerformed(gpus[..|gpus| - 1]);
    }
  }

  lemma OperationCount(s: State)
    requires Control(s)
    ensures Performed(s.gpus) <= OperationTotal(|s.gpus|)
    ensures Finished(s) ==> Performed(s.gpus) == OperationTotal(|s.gpus|)
  {
    forall i | 0 <= i < |s.gpus| ensures s.gpus[i].recvd <= s.gpus[i].sent <= Rounds(|s.gpus|) {
      assert ControlAt(s, i);
    }
    PerformedAtMost(s.gpus, Rounds(|s.gpus|));
  }

  // ---------- main results ----------

  lemma StateInStep(lock: seq<Buffers>, s: State, i: nat)
    requires Inv(lock, s) && i < |s.gpus|
    ensures |s.chans[i]| <= CAPACITY
    ensures s.gpus[i].recvd <= Rounds(|s.gpus|) && s.gpus[i].data == lock[s.gpus[i].recvd][i]
    ensures s.chans[i] != [] ==>
              var r := s.gpus[i].recvd;
              && r < Rounds(|s.gpus|)
              && s.chans[i][0].step == LocalStep(|s.gpus|, r)
              && s.chans[i][0].chunk == CRecv(|s.gpus|, i, r)
              && s.chans[i][0].value == lock[r][Prev(|s.gpus|, i)][CRecv(|s.gpus|, i, r)]
    ensures var ahead := s.gpus[i].recvd - s.gpus[Next(|s.gpus|, i)].recvd; -1 <= ahead <= 1
  {
    assert ControlAt(s, i) && DataAt(lock, s, i) && ControlAt(s, Next(|s.gpus|, i));
    if s.chans[i] != [] {
      ChunksAgree(|s.gpus|, i, s.gpus[i].recvd);
    }
  }

  /**
   Refinement, FIFO agreement and skew, in every state reachable under any interleaving. In binary64 too, a run
   computes what the lock-step run computes, rounding included.
   */
  lemma {:induction false} Refinement(arith: Arith, init: Buffers, actions: seq<Action>, s: State, i: nat)
    requires Square(init) && i < |init| && IsRun(Start(arith, init), actions, s)
    ensures |s.gpus| == |s.chans| == |init| && |s.chans[i]| <= CAPACITY
    ensures s.gpus[i].recvd <= Rounds(|init|) && s.gpus[i].data == RingAt(arith, init, s.gpus[i].recvd)[i]
    ensures s.chans[i] != [] ==>
              var r := s.gpus[i].recvd;
              && r < Rounds(|init|)
              && s.chans[i][0].step == LocalStep(|init|, r)
              && s.chans[i][0].chunk == CRecv(|init|, i, r)
              && s.chans[i][0].value == RingAt(arith, init, r)[Prev(|init|, i)][CRecv(|init|, i, r)]
    ensures var ahead := s.gpus[i].recvd - s.gpus[Next(|init|, i)].recvd; -1 <= ahead <= 1
  {
    var lock := RingHistory(arith, init);
    StartInv(arith, init);
    RunKeepsInv(lock, Start(arith, init), actions, s);
    StateInStep(lock, s, i);
  }

  /**
   When every goroutine has finished, the channels are empty and the buffers are those of the last lock-step round.
   */
  lemma FinishedOutcome(lock: seq<Buffers>, s: State)
    requires Inv(lock, s) && Finished(s)
    ensures forall i :: 0 <= i < |s.gpus| ==> s.chans[i] == [] && s.gpus[i].data == lock[Rounds(|s.gpus|)][i]
  {
    forall i | 0 <= i < |s.gpus| ensures s.chans[i] == [] && s.gpus[i].data == lock[Rounds(|s.gpus|)][i] {
      assert ControlAt(s, i) && DataAt(lock, s, i);
    }
  }

  /** That is the sum once around the ring, the same on every GPU; in exact arithmetic, the sum over all GPUs. */
  lemma FinishedIsCorrect(init: Buffers, s: State)
    requires Square(init) && |init| >= 1 && |s.gpus| == |init|
    requires Inv(RingHistory(s.arith, init), s) && Finished(s)
    ensures forall i, b :: 0 <= i < |init| && 0 <= b < |init| ==> s.gpus[i].data[b] == FullArc(s.arith, init, b)
    ensures s.arith == Exact ==>
              forall i, b :: 0 <= i < |init| && 0 <= b < |init| ==> s.gpus[i].data[b] == Total(init, b)
  {
    FinishedOutcome(RingHistory(s.arith, init), s);
    forall i, b | 0 <= i < |init| && 0 <= b < |init|
      ensures s.gpus[i].data[b] == FullArc(s.arith, init, b) && FullArc(Exact, init, b) == Total(init, b)
    {
      RingOutcome(s.arith, init, i, b);
      FullArcIsTotal(init, b);
    }
  }

  /**
   Termination and outcome: no run exceeds 4n(n-1) channel operations; a run that cannot be extended has performed
   exactly that many, has drained every channel, and has left the same buffer in every GPU, whatever the interleaving
   and in either arithmetic: block b is the sum once around the ring from GPU b.
   */
  lemma {:induction false} EveryScheduleCompletes(arith: Arith, init: Buffers, actions: seq<Action>, s: State)
    requires Square(init) && |init| >= 1 && IsRun(Start(arith, init), actions, s)
    ensures WellFormed(s) && |s.gpus| == |init| && |actions| <= 4 * |init| * (|init| - 1)
    ensures Stuck(s) ==> |actions| == 4 * |init| * (|init| - 1) && forall i :: 0 <= i < |init| ==> s.chans[i] == []
    ensures Stuck(s) ==>
              forall i, b :: 0 <= i < |init| && 0 <= b < |init| ==> s.gpus[i].data[b] == FullArc(arith, init, b)
    ensures Stuck(s) && arith == Exact ==>
              forall i, b :: 0 <= i < |init| && 0 <= b < |init| ==> s.gpus[i].data[b] == Total(init, b)
  {
    var lock := RingHistory(arith, init);
    StartInv(arith, init);
    RunKeepsInv(lock, Start(arith, init), actions, s);
    RunLength(Start(arith, init), actions, s);
    NothingPerformed(Start(arith, init).gpus);
    OperationCount(s);
    if Stuck(s) {
      if !Finished(s) {
        var a := DeadlockFree(s);
        assert false;
      }
      FinishedOutcome(lock, s);
      FinishedIsCorrect(init, s);
    }
  }
}

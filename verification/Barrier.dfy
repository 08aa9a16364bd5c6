/**
 One call of Simulator.Step as a transition system: the coordinator triggers every GPU and then collects n completions,
 interleaved in any way with the GPU goroutines.
 */
module Barrier {
  import opened Arithmetic
  import opened Collective
  import opened Counting
  import opened RingSpec

  /** Who messages whom in the step at hand. */
  datatype Plan = Plan(
    arith: Arith, top: Topology, n: nat, step: nat, targets: seq<seq<nat>>, sources: seq<seq<nat>>)

  predicate ValidPlan(p: Plan) {
    && p.n >= 1 && p.step < MaxSteps(p.top, p.n)
    && |p.targets| == |p.sources| == p.n
    && (forall i, k :: 0 <= i < p.n && 0 <= k < |p.targets[i]| ==> p.targets[i][k] < p.n)
    && (forall i, k :: 0 <= i < p.n && 0 <= k < |p.sources[i]| ==> p.sources[i][k] < p.n)
    && (forall i :: 0 <= i < p.n ==> Distinct(p.targets[i]))
    && (forall i :: 0 <= i < p.n ==> Distinct(p.sources[i]))
    && (forall i :: 0 <= i < p.n ==> |p.sources[i]| <= 2 * p.n)
    && (forall i, j :: 0 <= i < p.n && 0 <= j < p.n ==> (j in p.targets[i] <==> i in p.sources[j]))
  }

  function PlanOf(arith: Arith, top: Topology, n: nat, step: nat): (p: Plan)
    requires n >= 1 && step < MaxSteps(top, n)
  {
    Plan(arith, top, n, step,
         seq(n, i requires 0 <= i < n => Targets(top, n, i, step)),
         seq(n, i requires 0 <= i < n => Sources(top, n, i, step)))
  }

  lemma PlanIsValid(arith: Arith, top: Topology, n: nat, step: nat)
    requires n >= 1 && step < MaxSteps(top, n)
    ensures ValidPlan(PlanOf(arith, top, n, step))
  {
    var p := PlanOf(arith, top, n, step);
    forall i, j | 0 <= i < n && 0 <= j < n
      ensures (j in p.targets[i] <==> i in p.sources[j]) && Distinct(p.targets[i]) && Distinct(p.sources[j])
    {
      LinksMatch(top, n, i, j, step);
    }
  }

  /**
   Where a goroutine stands in the step: not yet woken, inside it, or finished with it. Waiting and
   Returned are the same program point, the receive at the top of the loop.
   */
  datatype Status = Waiting | Working | Returned

  /** got is the history of messages absorbed in this step. */
  datatype Worker = Worker(buf: seq<real>, status: Status, sent: nat, got: seq<BlockMsg>)

  /** collected is the history of ids the coordinator has read from the done channel. */
  datatype State = State(
    workers: seq<Worker>, rx: seq<seq<BlockMsg>>, start: seq<seq<nat>>, done: seq<nat>,
    triggered: nat, collected: seq<nat>)

  datatype Action = Trigger | Collect | Wake(i: nat) | Send(i: nat) | Recv(i: nat) | Finish(i: nat)

  predicate WellFormed(p: Plan, s: State) {
    && ValidPlan(p)
    && |s.workers| == |s.rx| == |s.start| == p.n
    && (forall i :: 0 <= i < p.n ==> |s.workers[i].buf| == p.n)
    && (forall i, k :: 0 <= i < p.n && 0 <= k < |s.rx[i]| ==> GoodMsg(p.top, p.n, s.rx[i][k]))
  }

  function RxCapacity(p: Plan): nat { 2 * p.n }

  const START_CAPACITY := 1

  /** Whether the coordinator or goroutine i can perform its next channel operation without blocking. */
  predicate Enabled(p: Plan, s: State, a: Action)
    requires WellFormed(p, s)
  {
    match a
    case Trigger => s.triggered < p.n && |s.start[s.triggered]| < START_CAPACITY
    case Collect => s.triggered == p.n && |s.collected| < p.n && s.done != []
    case Wake(i) => i < p.n && s.workers[i].status != Working && s.start[i] != []
    case Send(i) =>
      && i < p.n && s.workers[i].status == Working && s.workers[i].sent < |p.targets[i]|
      && |s.rx[p.targets[i][s.workers[i].sent]]| < RxCapacity(p)
    case Recv(i) =>
      && i < p.n && s.workers[i].status == Working && s.workers[i].sent >= |p.targets[i]|
      && |s.workers[i].got| < |p.sources[i]| && s.rx[i] != []
    case Finish(i) =>
      && i < p.n && s.workers[i].status == Working && s.workers[i].sent >= |p.targets[i]|
      && |s.workers[i].got| >= |p.sources[i]| && |s.done| < p.n
  }

  function Do(p: Plan, s: State, a: Action): (t: State)
    requires WellFormed(p, s) && Enabled(p, s, a)
    ensures WellFormed(p, t)
  {
    match a
    case Trigger => s.(start := s.start[s.triggered := s.start[s.triggered] + [p.step]], triggered := s.triggered + 1)
    case Collect => s.(done := s.done[1..], collected := s.collected + [s.done[0]])
    case Wake(i) =>
      s.(start := s.start[i := s.start[i][1..]],
         workers := s.workers[i := s.workers[i].(status := Working, sent := 0, got := [])])
    case Send(i) =>
      var w := s.workers[i];
      var to := p.targets[i][w.sent];
      s.(rx := s.rx[to := s.rx[to] + [MsgOf(p.top, p.n, w.buf, i, to, p.step)]],
         workers := s.workers[i := w.(sent := w.sent + 1)])
    case Recv(i) =>
      var w, msg := s.workers[i], s.rx[i][0];
      s.(rx := s.rx[i := s.rx[i][1..]],
         workers := s.workers[i := w.(buf := AbsorbMsg(p.arith, p.top, p.n, p.step, w.buf, msg), got := w.got + [msg])])
    case Finish(i) =>
      s.(done := s.done + [i], workers := s.workers[i := s.workers[i].(status := Returned)])
  }

  /** Step is about to trigger the first GPU: every goroutine waits and every channel is empty. */
  predicate Ready(p: Plan, bufs: Buffers, s: State) {
    && WellFormed(p, s) && Square(bufs) && |bufs| == p.n
    && s.triggered == 0 && s.collected == [] && s.done == []
    && forall i :: 0 <= i < p.n ==>
         s.workers[i] == Worker(bufs[i], Waiting, 0, []) && s.rx[i] == [] && s.start[i] == []
  }

  /** The coordinator has collected n completions, so Step returns. */
  predicate Completed(p: Plan, s: State) {
    |s.collected| == p.n
  }

  predicate IsRun(p: Plan, s: State, actions: seq<Action>, t: State)
    requires WellFormed(p, s)
    decreases |actions|
  {
    if actions == [] then s == t
    else Enabled(p, s, actions[0]) && IsRun(p, Do(p, s, actions[0]), actions[1..], t)
  }

  // ---------- the invariant ----------

  function Senders(msgs: seq<BlockMsg>): (ids: seq<nat>)
    ensures |ids| == |msgs| && forall k :: 0 <= k < |msgs| ==> ids[k] == msgs[k].sender
  {
    seq(|msgs|, k requires 0 <= k < |msgs| => msgs[k].sender)
  }

  /** Everything delivered to GPU i in this step, absorbed or still in its channel. */
  function Inbox(p: Plan, s: State, i: nat): seq<BlockMsg>
    requires WellFormed(p, s) && i < p.n
  {
    s.workers[i].got + s.rx[i]
  }

  predicate HasSent(p: Plan, s: State, src: nat, dst: nat)
    requires WellFormed(p, s) && src < p.n
  {
    s.workers[src].sent <= |p.targets[src]| && dst in p.targets[src][..s.workers[src].sent]
  }

  /** The goroutine's program point agrees with its counters and its start channel. */
  predicate WorkerOk(p: Plan, s: State, i: nat)
    requires WellFormed(p, s) && i < p.n
  {
    var w := s.workers[i];
    && w.sent <= |p.targets[i]| && |w.got| <= |p.sources[i]|
    && (w.got != [] ==> w.sent == |p.targets[i]|)
    && s.start[i] == (if w.status == Waiting && i < s.triggered then [p.step] else [])
    && (w.status == Waiting ==> w.sent == 0 && w.got == [])
    && (w.status != Waiting ==> i < s.triggered)
    && (w.status == Returned ==> w.sent == |p.targets[i]| && |w.got| == |p.sources[i]|)
  }

  /** One genuine message from each source that has sent, and nothing else. */
  predicate InboxOk(p: Plan, bufs: Buffers, s: State, i: nat)
    requires WellFormed(p, s) && Square(bufs) && |bufs| == p.n && i < p.n
  {
    var box := Inbox(p, s, i);
    && (forall k :: 0 <= k < |box| ==>
          && box[k].sender < p.n
          && box[k].sender in p.sources[i]
          && HasSent(p, s, box[k].sender, i)
          && box[k] == MsgOf(p.top, p.n, bufs[box[k].sender], box[k].sender, i, p.step))
    && Distinct(Senders(box))
    && (forall src :: 0 <= src < p.n && HasSent(p, s, src, i) ==> src in Senders(box))
  }

  /** The buffer is the initial one with the absorbed messages folded in, in arrival order. */
  predicate BufferOk(p: Plan, bufs: Buffers, s: State, i: nat)
    requires WellFormed(p, s) && Square(bufs) && |bufs| == p.n && i < p.n
  {
    && (forall m :: m in s.workers[i].got ==> GoodMsg(p.top, p.n, m))
    && s.workers[i].buf == AbsorbAll(p.arith, p.top, p.n, p.step, bufs[i], s.workers[i].got)
  }

  /** The completions reported so far, each by a goroutine that has returned, each once. */
  predicate ReportsOk(p: Plan, s: State)
    requires WellFormed(p, s)
  {
    var log := s.collected + s.done;
    && s.triggered <= p.n && Distinct(log)
    && (forall k :: 0 <= k < |log| ==> log[k] < p.n)
    && (forall i :: 0 <= i < p.n ==> (s.workers[i].status == Returned <==> i in log))
  }

  predicate Inv(p: Plan, bufs: Buffers, s: State) {
    && WellFormed(p, s) && Square(bufs) && |bufs| == p.n
    && (forall i :: 0 <= i < p.n ==> WorkerOk(p, s, i))
    && (forall i :: 0 <= i < p.n ==> InboxOk(p, bufs, s, i))
    && (forall i :: 0 <= i < p.n ==> BufferOk(p, bufs, s, i))
    && ReportsOk(p, s)
  }

  lemma ReadyInv(p: Plan, bufs: Buffers, s: State)
    requires Ready(p, bufs, s)
    ensures Inv(p, bufs, s)
  {
    forall i | 0 <= i < p.n ensures WorkerOk(p, s, i) && InboxOk(p, bufs, s, i) && BufferOk(p, bufs, s, i) {
    }
  }

  /** A transition that sends nothing to anyone and absorbs nothing at i leaves i's inbox as it was. */
  lemma SameInbox(p: Plan, bufs: Buffers, s: State, t: State, i: nat)
    requires WellFormed(p, s) && WellFormed(p, t) && Square(bufs) && |bufs| == p.n && i < p.n
    requires InboxOk(p, bufs, s, i) && Inbox(p, t, i) == Inbox(p, s, i)
    requires forall j :: 0 <= j < p.n ==> t.workers[j].sent == s.workers[j].sent
    ensures InboxOk(p, bufs, t, i)
  {
    assert forall src :: 0 <= src < p.n ==> HasSent(p, t, src, i) == HasSent(p, s, src, i);
  }

  lemma TriggerKeepsInv(p: Plan, bufs: Buffers, s: State)
    requires Inv(p, bufs, s) && Enabled(p, s, Trigger)
    ensures Inv(p, bufs, Do(p, s, Trigger))
  {
    hide AbsorbAll, AbsorbMsg, MsgOf;
    var t := Do(p, s, Trigger);
    forall i | 0 <= i < p.n ensures WorkerOk(p, t, i) && InboxOk(p, bufs, t, i) && BufferOk(p, bufs, t, i) {
      assert WorkerOk(p, s, i) && InboxOk(p, bufs, s, i) && BufferOk(p, bufs, s, i);
      SameInbox(p, bufs, s, t, i);
    }
  }

  lemma CollectKeepsInv(p: Plan, bufs: Buffers, s: State)
    requires Inv(p, bufs, s) && Enabled(p, s, Collect)
    ensures Inv(p, bufs, Do(p, s, Collect))
  {
    hide AbsorbAll, AbsorbMsg, MsgOf;
    var t := Do(p, s, Collect);
    assert t.collected + t.done == s.collected + s.done;
    forall i | 0 <= i < p.n ensures WorkerOk(p, t, i) && InboxOk(p, bufs, t, i) && BufferOk(p, bufs, t, i) {
      assert WorkerOk(p, s, i) && InboxOk(p, bufs, s, i) && BufferOk(p, bufs, s, i);
      SameInbox(p, bufs, s, t, i);
    }
  }

  lemma WakeKeepsInv(p: Plan, bufs: Buffers, s: State, a: Action)
    requires Inv(p, bufs, s) && a.Wake? && Enabled(p, s, a)
    ensures Inv(p, bufs, Do(p, s, a))
  {
    hide AbsorbAll, AbsorbMsg, MsgOf;
    var t, g := Do(p, s, a), a.i;
    assert WorkerOk(p, s, g) && InboxOk(p, bufs, s, g) && BufferOk(p, bufs, s, g);
    assert s.workers[g].got == [];
    forall i | 0 <= i < p.n ensures WorkerOk(p, t, i) && InboxOk(p, bufs, t, i) && BufferOk(p, bufs, t, i) {
      assert WorkerOk(p, s, i) && InboxOk(p, bufs, s, i) && BufferOk(p, bufs, s, i);
      SameInbox(p, bufs, s, t, i);
    }
  }

  lemma FinishKeepsInv(p: Plan, bufs: Buffers, s: State, a: Action)
    requires Inv(p, bufs, s) && a.Finish? && Enabled(p, s, a)
    ensures Inv(p, bufs, Do(p, s, a))
  {
    hide AbsorbAll, AbsorbMsg, MsgOf;
    var t, g := Do(p, s, a), a.i;
    assert t.collected + t.done == s.collected + s.done + [g];
    forall i | 0 <= i < p.n ensures WorkerOk(p, t, i) && InboxOk(p, bufs, t, i) && BufferOk(p, bufs, t, i) {
      assert WorkerOk(p, s, i) && InboxOk(p, bufs, s, i) && BufferOk(p, bufs, s, i);
      SameInbox(p, bufs, s, t, i);
    }
  }

  lemma RecvKeepsInv(p: Plan, bufs: Buffers, s: State, a: Action)
    requires Inv(p, bufs, s) && a.Recv? && Enabled(p, s, a)
    ensures Inv(p, bufs, Do(p, s, a))
  {
    hide AbsorbMsg, MsgOf;
    var t, g := Do(p, s, a), a.i;
    var msg := s.rx[g][0];
    assert s.rx[g] == [msg] + t.rx[g];
    assert Inbox(p, t, g) == Inbox(p, s, g);
    forall i | 0 <= i < p.n ensures WorkerOk(p, t, i) && InboxOk(p, bufs, t, i) && BufferOk(p, bufs, t, i) {
      assert WorkerOk(p, s, i) && InboxOk(p, bufs, s, i) && BufferOk(p, bufs, s, i);
      SameInbox(p, bufs, s, t, i);
    }
  }

  lemma SendExtendsHasSent(p: Plan, s: State, a: Action, src: nat, dst: nat)
    requires WellFormed(p, s) && a.Send? && Enabled(p, s, a) && src < p.n
    ensures var to := p.targets[a.i][s.workers[a.i].sent];
            HasSent(p, Do(p, s, a), src, dst) <==> HasSent(p, s, src, dst) || (src == a.i && dst == to)
  {
    var w := s.workers[a.i];
    var ts := p.targets[a.i];
    assert ts[..w.sent + 1] == ts[..w.sent] + [ts[w.sent]];
  }

  /** A goroutine that is still sending has absorbed nothing, so it sends its initial buffer, and to a new target. */
  lemma SendsItsOwn(p: Plan, bufs: Buffers, s: State, g: nat)
    requires Inv(p, bufs, s) && Enabled(p, s, Send(g))
    ensures s.workers[g].buf == bufs[g] && !HasSent(p, s, g, p.targets[g][s.workers[g].sent])
  {
    assert WorkerOk(p, s, g) && BufferOk(p, bufs, s, g);
    assert Distinct(p.targets[g]);
  }

  lemma Delivered(p: Plan, bufs: Buffers, s: State, a: Action)
    requires Inv(p, bufs, s) && a.Send? && Enabled(p, s, a)
    ensures InboxOk(p, bufs, Do(p, s, a), p.targets[a.i][s.workers[a.i].sent])
  {
    hide AbsorbAll, AbsorbMsg;
    var t, g, w := Do(p, s, a), a.i, s.workers[a.i];
    var to := p.targets[g][w.sent];
    var msg := MsgOf(p.top, p.n, w.buf, g, to, p.step);
    SendsItsOwn(p, bufs, s, g);
    assert InboxOk(p, bufs, s, to) && Inbox(p, t, to) == Inbox(p, s, to) + [msg];
    assert Senders(Inbox(p, t, to)) == Senders(Inbox(p, s, to)) + [g];
    forall src | 0 <= src < p.n ensures HasSent(p, t, src, to) <==> HasSent(p, s, src, to) || src == g {
      SendExtendsHasSent(p, s, a, src, to);
    }
  }

  lemma NotDelivered(p: Plan, bufs: Buffers, s: State, a: Action, i: nat)
    requires Inv(p, bufs, s) && a.Send? && Enabled(p, s, a)
    requires i < p.n && i != p.targets[a.i][s.workers[a.i].sent]
    ensures InboxOk(p, bufs, Do(p, s, a), i)
  {
    hide AbsorbAll, AbsorbMsg, MsgOf;
    var t := Do(p, s, a);
    assert InboxOk(p, bufs, s, i);
    assert Inbox(p, t, i) == Inbox(p, s, i);
    forall src | 0 <= src < p.n ensures HasSent(p, t, src, i) == HasSent(p, s, src, i) {
      SendExtendsHasSent(p, s, a, src, i);
    }
  }

  lemma SendKeepsInv(p: Plan, bufs: Buffers, s: State, a: Action)
    requires Inv(p, bufs, s) && a.Send? && Enabled(p, s, a)
    ensures Inv(p, bufs, Do(p, s, a))
  {
    hide AbsorbAll, AbsorbMsg, MsgOf;
    var t, g := Do(p, s, a), a.i;
    var to := p.targets[g][s.workers[g].sent];
    forall i | 0 <= i < p.n ensures WorkerOk(p, t, i) && BufferOk(p, bufs, t, i) {
      assert WorkerOk(p, s, i) && BufferOk(p, bufs, s, i) && WorkerOk(p, s, g);
    }
    forall i | 0 <= i < p.n ensures InboxOk(p, bufs, t, i) {
      assert InboxOk(p, bufs, s, i);
      if i == to {
        Delivered(p, bufs, s, a);
      } else {
        NotDelivered(p, bufs, s, a, i);
      }
    }
  }

  /** Every operation of every interleaving keeps the invariant. */
  lemma StepKeepsInv(p: Plan, bufs: Buffers, s: State, a: Action)
    requires Inv(p, bufs, s) && Enabled(p, s, a)
    ensures Inv(p, bufs, Do(p, s, a))
  {
    match a
    case Trigger => TriggerKeepsInv(p, bufs, s);
    case Collect => CollectKeepsInv(p, bufs, s);
    case Wake(_) => WakeKeepsInv(p, bufs, s, a);
    case Send(_) => SendKeepsInv(p, bufs, s, a);
    case Recv(_) => RecvKeepsInv(p, bufs, s, a);
    case Finish(_) => FinishKeepsInv(p, bufs, s, a);
  }

  lemma {:induction false} RunKeepsInv(p: Plan, bufs: Buffers, s: State, actions: seq<Action>, t: State)
    requires Inv(p, bufs, s) && IsRun(p, s, actions, t)
    ensures Inv(p, bufs, t)
    decreases |actions|
  {
    if actions != [] {
      StepKeepsInv(p, bufs, s, actions[0]);
      RunKeepsInv(p, bufs, Do(p, s, actions[0]), actions[1..], t);
    }
  }

  /**
   Every message a GPU has received or is about to receive is addressed to it, of this step, and from a GPU it hears
   from in this step. In the ring it carries block (sender - step) mod n of the sender's buffer as it was before the
   step, in the tree all of that buffer.
   */
  lemma MessagesAreGenuine(p: Plan, bufs: Buffers, s: State, i: nat, k: nat)
    requires Inv(p, bufs, s) && i < p.n && k < |Inbox(p, s, i)|
    ensures var msg := Inbox(p, s, i)[k];
            && msg.receiver == i && msg.step == p.step && msg.sender in p.sources[i] && msg.sender < p.n
            && (p.top == Ring ==>
                  msg.block == (msg.sender - p.step) % p.n && msg.values == [bufs[msg.sender][msg.block]])
            && (p.top == Tree ==> msg.values == bufs[msg.sender])
  {
    assert InboxOk(p, bufs, s, i);
    if p.top == Ring {
      SendIdxIsPosMod(p.n, Inbox(p, s, i)[k].sender, p.step);
    }
  }

  // ---------- no blocking ----------

  /** A GPU's inbox never holds more than its sources send, so channels of that capacity never fill. */
  lemma InboxBounded(p: Plan, bufs: Buffers, s: State, i: nat)
    requires Inv(p, bufs, s) && i < p.n
    ensures |s.workers[i].got| + |s.rx[i]| <= |p.sources[i]| <= RxCapacity(p)
  {
    assert InboxOk(p, bufs, s, i);
    Pigeonhole(Senders(Inbox(p, s, i)), p.sources[i]);
  }

  /** Once every source has sent, a GPU still short of messages finds one in its channel. */
  lemma MessageWaiting(p: Plan, bufs: Buffers, s: State, i: nat)
    requires Inv(p, bufs, s) && i < p.n
    requires forall j :: 0 <= j < p.n ==> s.workers[j].sent == |p.targets[j]|
    requires |s.workers[i].got| < |p.sources[i]|
    ensures s.rx[i] != []
  {
    assert InboxOk(p, bufs, s, i);
    var ids := Senders(Inbox(p, s, i));
    forall k | 0 <= k < |p.sources[i]| ensures p.sources[i][k] in ids {
      var src := p.sources[i][k];
      assert p.targets[src][..s.workers[src].sent] == p.targets[src];
      assert i in p.targets[src];
      assert HasSent(p, s, src, i);
    }
    Pigeonhole(p.sources[i], ids);
  }

  /** A goroutine about to send never finds its target's channel full. */
  lemma NeverBlocksOnSend(p: Plan, bufs: Buffers, s: State, i: nat)
    requires Inv(p, bufs, s) && i < p.n && s.workers[i].status == Working && s.workers[i].sent < |p.targets[i]|
    ensures Enabled(p, s, Send(i))
  {
    var to := p.targets[i][s.workers[i].sent];
    var ids := Senders(Inbox(p, s, to));
    assert InboxOk(p, bufs, s, to);
    assert i !in ids by {
      assert Distinct(p.targets[i]);
    }
    assert i in p.sources[to];
    assert Distinct(ids + [i]);
    Pigeonhole(ids + [i], p.sources[to]);
  }

  /** A goroutine about to report never finds the done channel full. */
  lemma NeverBlocksOnReport(p: Plan, bufs: Buffers, s: State, i: nat)
    requires Inv(p, bufs, s) && i < p.n && s.workers[i].status != Returned
    ensures |s.done| < p.n
  {
    var log := s.collected + s.done;
    assert Distinct(log + [i]);
    PigeonholeRange(log + [i], p.n);
  }

  lemma ChannelsBounded(p: Plan, bufs: Buffers, s: State)
    requires Inv(p, bufs, s)
    ensures forall i :: 0 <= i < p.n ==> |s.rx[i]| <= RxCapacity(p) && |s.start[i]| <= START_CAPACITY
  {
    forall i | 0 <= i < p.n ensures |s.rx[i]| <= RxCapacity(p) && |s.start[i]| <= START_CAPACITY {
      InboxBounded(p, bufs, s, i);
      assert WorkerOk(p, s, i);
    }
  }

  lemma PigeonholeCollected(p: Plan, bufs: Buffers, s: State)
    requires Inv(p, bufs, s)
    ensures |s.collected| + |s.done| <= p.n
    ensures |s.collected| + |s.done| == p.n ==> forall i :: 0 <= i < p.n ==> s.workers[i].status == Returned
    ensures (forall i :: 0 <= i < p.n ==> s.workers[i].status == Returned) ==> |s.collected| + |s.done| == p.n
  {
    var log := s.collected + s.done;
    PigeonholeRange(log, p.n);
    if forall i :: 0 <= i < p.n ==> s.workers[i].status == Returned {
      forall k | 0 <= k < p.n ensures Range(p.n)[k] in log {
      }
      Pigeonhole(Range(p.n), log);
    }
  }

  /** Deadlock freedom: until Step returns, the coordinator or some goroutine can move. */
  lemma Progress(p: Plan, bufs: Buffers, s: State) returns (a: Action)
    requires Inv(p, bufs, s) && !Completed(p, s)
    ensures Enabled(p, s, a)
  {
    hide AbsorbAll, AbsorbMsg, MsgOf;
    PigeonholeCollected(p, bufs, s);
    if s.triggered < p.n {
      assert WorkerOk(p, s, s.triggered);
      a := Trigger;
    } else if i :| 0 <= i < p.n && s.workers[i].status == Waiting {
      assert WorkerOk(p, s, i);
      a := Wake(i);
    } else if i :| 0 <= i < p.n && s.workers[i].status == Working && s.workers[i].sent < |p.targets[i]| {
      NeverBlocksOnSend(p, bufs, s, i);
      a := Send(i);
    } else {
      forall j | 0 <= j < p.n ensures s.workers[j].sent == |p.targets[j]| {
        assert WorkerOk(p, s, j);
      }
      if i :| 0 <= i < p.n && s.workers[i].status == Working {
        assert WorkerOk(p, s, i);
        if |s.workers[i].got| < |p.sources[i]| {
          MessageWaiting(p, bufs, s, i);
          a := Recv(i);
        } else {
          NeverBlocksOnReport(p, bufs, s, i);
          a := Finish(i);
        }
      } else {
        a := Collect;
      }
    }
  }

  // ---------- the outcome ----------

  /** GPU i has absorbed exactly one genuine message from each of its sources, in some order. */
  predicate HeardAll(p: Plan, bufs: Buffers, w: Worker, i: nat)
    requires ValidPlan(p) && Square(bufs) && |bufs| == p.n && i < p.n
  {
    && FullInbox(p.top, bufs, p.step, i, w.got) && (forall m :: m in w.got ==> GoodMsg(p.top, p.n, m))
    && w.buf == AbsorbAll(p.arith, p.top, p.n, p.step, bufs[i], w.got)
  }

  /** When Step returns, every channel is empty again and every GPU has heard from all its sources. */
  lemma CompletedHeard(p: Plan, bufs: Buffers, s: State)
    requires Inv(p, bufs, s) && Completed(p, s) && p == PlanOf(p.arith, p.top, p.n, p.step)
    ensures s.done == [] && forall i :: 0 <= i < p.n ==> s.start[i] == [] && s.rx[i] == []
    ensures forall i :: 0 <= i < p.n ==> HeardAll(p, bufs, s.workers[i], i)
  {
    hide AbsorbAll, AbsorbMsg, Round;
    PigeonholeCollected(p, bufs, s);
    forall i | 0 <= i < p.n
      ensures s.start[i] == [] && s.rx[i] == [] && HeardAll(p, bufs, s.workers[i], i)
    {
      assert WorkerOk(p, s, i) && InboxOk(p, bufs, s, i) && BufferOk(p, bufs, s, i);
      InboxBounded(p, bufs, s, i);
      var got := s.workers[i].got;
      assert Inbox(p, s, i) == got;
      assert forall k :: 0 <= k < |got| ==> Senders(got)[k] == got[k].sender;
    }
  }

  /** Unless the order of rounded additions could show, every buffer is then the lock-step one. */
  lemma CompletedOutcome(p: Plan, bufs: Buffers, s: State)
    requires Inv(p, bufs, s) && Completed(p, s) && p == PlanOf(p.arith, p.top, p.n, p.step)
    requires OrderFree(p.arith, p.top, bufs, p.step)
    ensures s.done == [] && forall i :: 0 <= i < p.n ==> s.start[i] == [] && s.rx[i] == []
    ensures forall i :: 0 <= i < p.n ==> s.workers[i].buf == Round(p.arith, p.top, bufs, p.step)[i]
  {
    CompletedHeard(p, bufs, s);
    forall i | 0 <= i < p.n ensures s.workers[i].buf == Round(p.arith, p.top, bufs, p.step)[i] {
      assert HeardAll(p, bufs, s.workers[i], i);
      AnyOrder(p.arith, p.top, bufs, p.step, i, s.workers[i].got);
    }
  }

  // ---------- counting operations ----------

  /** How many operations goroutine i still has to perform in this step. */
  function Left(p: Plan, w: Worker, i: nat): int
    requires i < |p.targets| && i < |p.sources|
  {
    match w.status
    case Waiting => 2 + |p.targets[i]| + |p.sources[i]|
    case Working => 1 + |p.targets[i]| - w.sent + |p.sources[i]| - |w.got|
    case Returned => 0
  }

  function TotalLeft(p: Plan, ws: seq<Worker>, k: nat): int
    requires k <= |ws| && k <= |p.targets| && k <= |p.sources|
  {
    if k == 0 then 0 else TotalLeft(p, ws, k - 1) + Left(p, ws[k - 1], k - 1)
  }

  function Measure(p: Plan, s: State): int
    requires WellFormed(p, s)
  {
    p.n - s.triggered + p.n - |s.collected| + TotalLeft(p, s.workers, p.n)
  }

  lemma {:induction false} TotalLeftUpdate(p: Plan, ws: seq<Worker>, i: nat, w: Worker, k: nat)
    requires k <= |ws| && k <= |p.targets| && k <= |p.sources| && i < |ws|
    ensures TotalLeft(p, ws[i := w], k) ==
            TotalLeft(p, ws, k) + if i < k then Left(p, w, i) - Left(p, ws[i], i) else 0
  {
    if k > 0 {
      TotalLeftUpdate(p, ws, i, w, k - 1);
    }
  }

  /** Each operation is one of the finitely many the step consists of. */
  lemma EachOperationCounts(p: Plan, bufs: Buffers, s: State, a: Action)
    requires Inv(p, bufs, s) && Enabled(p, s, a)
    ensures Measure(p, Do(p, s, a)) == Measure(p, s) - 1
  {
    var t := Do(p, s, a);
    if !a.Trigger? && !a.Collect? {
      assert WorkerOk(p, s, a.i);
      TotalLeftUpdate(p, s.workers, a.i, t.workers[a.i], p.n);
    }
  }

  lemma {:induction false} LeftNonNegative(p: Plan, bufs: Buffers, s: State, k: nat)
    requires Inv(p, bufs, s) && k <= p.n
    ensures TotalLeft(p, s.workers, k) >= 0
    ensures (forall i :: 0 <= i < k ==> s.workers[i].status == Returned) ==> TotalLeft(p, s.workers, k) == 0
  {
    if k > 0 {
      LeftNonNegative(p, bufs, s, k - 1);
      assert WorkerOk(p, s, k - 1);
    }
  }

  lemma {:induction false} RunLength(p: Plan, bufs: Buffers, s: State, actions: seq<Action>, t: State)
    requires Inv(p, bufs, s) && IsRun(p, s, actions, t)
    ensures Inv(p, bufs, t) && |actions| == Measure(p, s) - Measure(p, t)
    decreases |actions|
  {
    if actions != [] {
      StepKeepsInv(p, bufs, s, actions[0]);
      EachOperationCounts(p, bufs, s, actions[0]);
      RunLength(p, bufs, Do(p, s, actions[0]), actions[1..], t);
    }
  }

  ghost predicate Stuck(p: Plan, s: State)
    requires WellFormed(p, s)
  {
    forall a :: !Enabled(p, s, a)
  }

  lemma CompletedIsStuck(p: Plan, bufs: Buffers, s: State)
    requires Inv(p, bufs, s) && Completed(p, s)
    ensures Measure(p, s) == 0
  {
    PigeonholeCollected(p, bufs, s);
    LeftNonNegative(p, bufs, s, p.n);
    assert WorkerOk(p, s, p.n - 1);
  }

  /**
   Barrier confluence. From any state with empty channels, every interleaving of the coordinator with the goroutines is
   bounded; one that cannot be extended has made Step return, has left every channel empty, and every GPU has absorbed
   one message from each of its sources. The buffers are then the same whatever the interleaving, unless the order of
   two rounded additions can show.
   */
  lemma {:induction false} StepIsConfluent(
    arith: Arith, top: Topology, bufs: Buffers, step: nat, s: State, actions: seq<Action>, t: State)
    requires Square(bufs) && |bufs| >= 1 && step < MaxSteps(top, |bufs|)
    requires var p := PlanOf(arith, top, |bufs|, step); Ready(p, bufs, s) && IsRun(p, s, actions, t)
    ensures var p := PlanOf(arith, top, |bufs|, step);
            && WellFormed(p, t)
            && |actions| <= Measure(p, s)
            && (Stuck(p, t) ==> Completed(p, t))
            && (Completed(p, t) ==>
                  && |actions| == Measure(p, s)
                  && t.done == [] && (forall i :: 0 <= i < p.n ==> t.start[i] == [] && t.rx[i] == [])
                  && (forall i :: 0 <= i < p.n ==> HeardAll(p, bufs, t.workers[i], i)))
            && (Completed(p, t) && OrderFree(arith, top, bufs, step) ==>
                  forall i :: 0 <= i < p.n ==> t.workers[i].buf == Round(arith, top, bufs, step)[i])
            && |t.done| <= p.n
            && (forall i :: 0 <= i < p.n ==> |t.rx[i]| <= RxCapacity(p) && |t.start[i]| <= START_CAPACITY)
  {
    hide OrderFree, Round, AbsorbAll;
    var p := PlanOf(arith, top, |bufs|, step);
    ReadyInv(p, bufs, s);
    RunLength(p, bufs, s, actions, t);
    LeftNonNegative(p, bufs, t, p.n);
    PigeonholeCollected(p, bufs, t);
    ChannelsBounded(p, bufs, t);
    if Completed(p, t) {
      CompletedIsStuck(p, bufs, t);
      CompletedHeard(p, bufs, t);
      if OrderFree(arith, top, bufs, step) {
        CompletedOutcome(p, bufs, t);
      }
    } else {
      var a := Progress(p, bufs, t);
    }
  }
}

/** main.go as a program: goroutines over arrays that any scheduler may drive. */
module RingProgram {
  import opened Arithmetic
  import opened Exactness
  import opened RingSpec
  import opened Seeding
  import opened Sixteen
  import A = AsyncRing

  /** One goroutine's GPU. Its program counter is the number of sends and receives it has performed. */
  class GPUNode {
    const id: nat
    const data: array<real>
    var sent: nat
    var recvd: nat

    constructor (id: nat, initial: seq<real>)
      ensures this.id == id && sent == 0 && recvd == 0
      ensures fresh(data) && data[..] == initial
    {
      this.id := id;
      data := new real[|initial|](k requires 0 <= k < |initial| => initial[k]);
      sent, recvd := 0, 0;
    }

    ghost function View(): A.Gpu
      reads this, data
    {
      A.Gpu(sent, recvd, data[..])
    }
  }

  class Ring {
    const arith: Arith
    const gpus: seq<GPUNode>
    /** channels[i] is the input channel to GPU i; GPU i sends to channels[(i+1)%n]. */
    var channels: seq<seq<A.Message>>
    /** How often the "Sync issues" branch has been taken. */
    var syncErrors: nat

    ghost predicate Valid()
      reads this, gpus
    {
      && |gpus| >= 1 && |channels| == |gpus|
      && (forall i :: 0 <= i < |gpus| ==> gpus[i].id == i && gpus[i].data.Length == |gpus|)
      && (forall i, j :: 0 <= i < j < |gpus| ==> gpus[i] != gpus[j] && gpus[i].data != gpus[j].data)
    }

    ghost function View(): (s: A.State)
      reads this, gpus, set g | g in gpus :: g.data
      requires Valid()
      ensures A.WellFormed(s) && |s.gpus| == |gpus| && s.arith == arith
    {
      A.State(
        arith,
        seq(|gpus|, i requires 0 <= i < |gpus| reads gpus, set g | g in gpus :: g.data => gpus[i].View()),
        channels)
    }

    constructor (arith: Arith, init: Buffers)
      requires Square(init) && |init| >= 1
      ensures Valid() && fresh(this) && fresh(gpus) && (forall g | g in gpus :: fresh(g.data))
      ensures View() == A.Start(arith, init) && syncErrors == 0
    {
      var nodes: seq<GPUNode> := [];
      for i := 0 to |init|
        invariant |nodes| == i && fresh(nodes) && forall g | g in nodes :: fresh(g.data)
        invariant forall k :: 0 <= k < i ==>
                    nodes[k].id == k && nodes[k].sent == nodes[k].recvd == 0 && nodes[k].data[..] == init[k]
        invariant forall j, k :: 0 <= j < k < i ==> nodes[j] != nodes[k] && nodes[j].data != nodes[k].data
      {
        var g := new GPUNode(i, init[i]);
        nodes := nodes + [g];
      }
      this.arith := arith;
      gpus := nodes;
      channels := seq(|init|, i => []);
      syncErrors := 0;
    }

    predicate CanSend(i: nat)
      requires Valid() && i < |gpus|
      reads this, gpus
      ensures CanSend(i) <==> A.Enabled(View(), A.Send(i))
    {
      gpus[i].sent == gpus[i].recvd < Rounds(|gpus|) && |channels[Next(|gpus|, i)]| < A.CAPACITY
    }

    predicate CanRecv(i: nat)
      requires Valid() && i < |gpus|
      reads this, gpus
      ensures CanRecv(i) <==> A.Enabled(View(), A.Recv(i))
    {
      gpus[i].sent == gpus[i].recvd + 1 <= Rounds(|gpus|) && channels[i] != []
    }

    /** Read the chunk to send and put it on the successor's channel. */
    method Send(i: nat)
      requires Valid() && i < |gpus| && CanSend(i)
      modifies this`channels, gpus[i]
      ensures Valid() && View() == A.Do(old(View()), A.Send(i))
    {
      var gpu, n := gpus[i], |gpus|;
      var step, cSend, _ := Indices(n, gpu.id, gpu.sent);
      var to := (gpu.id + 1) % n;
      A.SuccessorIsNext(n, i);
      channels := channels[to := channels[to] + [A.Message(step, cSend, gpu.data[cSend])]];
      gpu.sent := gpu.sent + 1;
      assert View().gpus == A.Do(old(View()), A.Send(i)).gpus;
    }

    /** Take the predecessor's message and accumulate it, or overwrite with it in the second phase. */
    method Recv(i: nat)
      requires Valid() && i < |gpus| && CanRecv(i)
      modifies this, gpus[i], gpus[i].data
      ensures Valid() && View() == A.Do(old(View()), A.Recv(i))
      ensures syncErrors == old(syncErrors) +
              if gpus[i].recvd < |gpus| && old(channels[i][0]).step != A.LocalStep(|gpus|, old(gpus[i].recvd)) then 1
              else 0
    {
      hide Sum;
      var gpu, n := gpus[i], |gpus|;
      var step, _, cRecv := Indices(n, gpu.id, gpu.recvd);
      var msg := channels[i][0];
      channels := channels[i := channels[i][1..]];
      if gpu.recvd < n - 1 {
        if msg.step != step {
          syncErrors := syncErrors + 1;
        }
        gpu.data[cRecv] := Sum(arith, gpu.data[cRecv], msg.value);
      } else {
        gpu.data[cRecv] := msg.value;
      }
      gpu.recvd := gpu.recvd + 1;
      assert View().gpus == A.Do(old(View()), A.Recv(i)).gpus;
    }

    /** wg.Wait() has returned. */
    predicate AllDone()
      requires Valid()
      reads this, gpus, set g | g in gpus :: g.data
      ensures AllDone() <==> A.Finished(View())
    {
      assert forall i :: 0 <= i < |gpus| ==> View().gpus[i] == gpus[i].View();
      forall i :: 0 <= i < |gpus| ==> gpus[i].recvd == Rounds(|gpus|)
    }
  }

  /** The phase-relative step and the chunks a goroutine sends and receives in its r-th round. */
  method Indices(n: nat, id: nat, r: nat) returns (step: nat, cSend: nat, cRecv: nat)
    requires id < n && r < Rounds(n)
    ensures step == A.LocalStep(n, r)
    ensures cSend == SendIdx(n, id, r) && cRecv == SendIdx(n, Prev(n, id), r)
  {
    if r < n - 1 {
      step := r;
      cSend, cRecv := (id - step + n) % n, (id - step - 1 + n) % n;
    } else {
      step := r - (n - 1);
      cSend, cRecv := (id + 1 - step + n) % n, (id - step + n) % n;
    }
    A.ChunksAgree(n, id, r);
  }

  /** The sequential reference of main.go: column sums of the seed data. */
  method ExpectedSum(arith: Arith, gpuData: Buffers) returns (expected: seq<real>)
    requires Square(gpuData)
    ensures |expected| == |gpuData|
    ensures forall b :: 0 <= b < |gpuData| ==> expected[b] == RunningSum(arith, gpuData, b, |gpuData|)
  {
    expected := [];
    for j := 0 to |gpuData|
      invariant |expected| == j
      invariant forall b :: 0 <= b < j ==> expected[b] == RunningSum(arith, gpuData, b, |gpuData|)
    {
      var sum := 0.0;
      for i := 0 to |gpuData|
        invariant sum == RunningSum(arith, gpuData, j, i)
      {
        sum := Sum(arith, sum, gpuData[i][j]);
      }
      expected := expected + [sum];
    }
  }

  /** One scheduling decision: some goroutine that is able to move performs its next operation. */
  method Schedule(ring: Ring, ghost lock: seq<Buffers>)
    requires ring.Valid() && A.Inv(lock, ring.View()) && !A.Finished(ring.View())
    modifies ring, ring.gpus, set g | g in ring.gpus :: g.data
    ensures ring.Valid() && A.Inv(lock, ring.View()) && ring.syncErrors == old(ring.syncErrors)
    ensures exists a :: A.Enabled(old(ring.View()), a) && ring.View() == A.Do(old(ring.View()), a)
    ensures A.Performed(ring.View().gpus) == A.Performed(old(ring.View().gpus)) + 1
  {
    ghost var s := ring.View();
    ghost var a := A.DeadlockFree(s);
    assert if a.Send? then ring.CanSend(a.i) else ring.CanRecv(a.i);
    if {
      case i :| 0 <= i < |ring.gpus| && ring.CanSend(i) =>
        a := A.Send(i);
        ring.Send(i);
      case i :| 0 <= i < |ring.gpus| && ring.CanRecv(i) =>
        a := A.Recv(i);
        A.StepKeepsInv(lock, s, a);
        ring.Recv(i);
    }
    A.StepKeepsInv(lock, s, a);
    A.OneMorePerformed(s, a);
  }

  lemma {:induction false} LastRoundIsFullArcs(arith: Arith, init: Buffers, i: nat)
    requires Square(init) && i < |init|
    ensures RingAt(arith, init, Rounds(|init|))[i] == FullArcs(arith, init)
  {
    forall b | 0 <= b < |init| ensures RingAt(arith, init, Rounds(|init|))[i][b] == FullArc(arith, init, b) {
      RingOutcome(arith, init, i, b);
    }
  }

  /**
   The goroutines under any scheduler, until wg.Wait() returns: in either arithmetic, the outcome is that of lock
   step.
   */
  method RunAll(ring: Ring, ghost init: Buffers) returns (operations: nat)
    requires Square(init) && |init| >= 1
    requires ring.Valid() && ring.View() == A.Start(ring.arith, init) && ring.syncErrors == 0
    modifies ring, ring.gpus, set g | g in ring.gpus :: g.data
    ensures ring.Valid() && ring.syncErrors == 0 && |ring.gpus| == |init|
    ensures forall i :: 0 <= i < |init| ==> ring.channels[i] == []
    ensures forall i :: 0 <= i < |init| ==> ring.gpus[i].data[..] == FullArcs(ring.arith, init)
    ensures operations == A.OperationTotal(|init|)
  {
    ghost var lock := RingHistory(ring.arith, init);
    A.StartInv(ring.arith, init);
    A.NothingPerformed(ring.View().gpus);
    operations := 0;
    while !ring.AllDone()
      invariant ring.Valid() && A.Inv(lock, ring.View()) && ring.syncErrors == 0
      invariant operations == A.Performed(ring.View().gpus)
      decreases A.OperationTotal(|init|) - operations
    {
      Schedule(ring, lock);
      operations := operations + 1;
      A.OperationCount(ring.View());
    }
    A.OperationCount(ring.View());
    A.FinishedOutcome(lock, ring.View());
    forall i | 0 <= i < |init| ensures ring.gpus[i].data[..] == FullArcs(ring.arith, init) && ring.channels[i] == [] {
      LastRoundIsFullArcs(ring.arith, init, i);
      assert ring.View().gpus[i] == ring.gpus[i].View();
    }
  }

  method CompareRow(data: array<real>, expected: seq<real>) returns (matches: bool)
    requires data.Length == |expected|
    ensures matches <==> forall j :: 0 <= j < |expected| ==> data[j] == expected[j]
  {
    matches := true;
    for j := 0 to |expected|
      invariant matches <==> forall k :: 0 <= k < j ==> data[k] == expected[k]
    {
      if data[j] != expected[j] {
        matches := false;
      }
    }
  }

  /** The final comparison of every GPU's data with the expected sums. */
  method Verify(gpus: seq<GPUNode>, expected: seq<real>) returns (allSucceeded: bool)
    requires forall i :: 0 <= i < |gpus| ==> gpus[i].data.Length == |expected|
    ensures allSucceeded <==>
              forall i, j :: 0 <= i < |gpus| && 0 <= j < |expected| ==> gpus[i].data[j] == expected[j]
  {
    allSucceeded := true;
    for i := 0 to |gpus|
      invariant allSucceeded <==> forall k, j :: 0 <= k < i && 0 <= j < |expected| ==> gpus[k].data[j] == expected[j]
    {
      var matches := CompareRow(gpus[i].data, expected);
      if !matches {
        allSucceeded := false;
      }
    }
  }

  /** What Verify finds when every GPU holds the ring-order sums. */
  lemma {:induction false} VerdictIsAgreement(gpus: seq<GPUNode>, expected: seq<real>, arith: Arith, init: Buffers)
    requires Square(init) && 1 <= |init| == |gpus| == |expected|
    requires forall b :: 0 <= b < |init| ==> expected[b] == RunningSum(arith, init, b, |init|)
    requires forall i :: 0 <= i < |init| ==> gpus[i].data.Length == |init| && gpus[i].data[..] == FullArcs(arith, init)
    ensures OrdersAgree(arith, init) <==>
              forall i, j :: 0 <= i < |gpus| && 0 <= j < |expected| ==> gpus[i].data[j] == expected[j]
  {
    forall i, j | 0 <= i < |init| && 0 <= j < |init| ensures gpus[i].data[j] == FullArc(arith, init, j) {
      assert gpus[i].data[j] == gpus[i].data[..][j];
    }
    if forall i, j :: 0 <= i < |gpus| && 0 <= j < |expected| ==> gpus[i].data[j] == expected[j] {
      forall b | 0 <= b < |init| ensures FullArc(arith, init, b) == RunningSum(arith, init, b, |init|) {
        assert gpus[0].data[b] == expected[b];
      }
    }
  }

  lemma {:induction false} ModerateArcsAreTotals(arith: Arith, init: Buffers)
    requires Square(init) && (arith == Exact || Moderate(init))
    ensures OrdersAgree(arith, init) && FullArcs(arith, init) == Totals(init)
  {
    ModerateOrdersAgree(arith, init);
    forall b | 0 <= b < |init| ensures FullArc(arith, init, b) == Total(init, b) {
      ModerateArcIsTotal(arith, init, b);
    }
  }

  /**
   The program on any data, in either arithmetic and under any scheduler: it never blocks forever, performs 4n(n-1)
   channel operations, never reports a sync error and leaves the same sums in every GPU. Its final comparison succeeds
   exactly when adding the data up in ring order and from GPU 0 give the same. They do in exact arithmetic, and in
   binary64 on moderate data.
   */
  method AllReduce(arith: Arith, gpuData: Buffers) returns (ring: Ring, operations: nat, allSucceeded: bool)
    requires Square(gpuData) && |gpuData| >= 1
    ensures ring.Valid() && ring.syncErrors == 0 && |ring.gpus| == |gpuData|
    ensures operations == A.OperationTotal(|gpuData|)
    ensures forall i :: 0 <= i < |gpuData| ==> ring.gpus[i].data[..] == FullArcs(arith, gpuData)
    ensures allSucceeded <==> OrdersAgree(arith, gpuData)
    ensures arith == Exact || Moderate(gpuData) ==>
              allSucceeded && forall i :: 0 <= i < |gpuData| ==> ring.gpus[i].data[..] == Totals(gpuData)
  {
    var expected := ExpectedSum(arith, gpuData);
    ring := new Ring(arith, gpuData);
    operations := RunAll(ring, gpuData);
    allSucceeded := Verify(ring.gpus, expected);
    VerdictIsAgreement(ring.gpus, expected, arith, gpuData);
    if arith == Exact || Moderate(gpuData) {
      ModerateArcsAreTotals(arith, gpuData);
    }
  }

  /**
   main on its own seeds, in binary64: the comparison succeeds under every schedule up to 15 GPUs, and fails for 16.
   */
  method Demonstrate(numGPUs: nat) returns (ring: Ring, allSucceeded: bool)
    requires numGPUs >= 2
    ensures ring.syncErrors == 0 && |ring.gpus| == numGPUs
    ensures forall i, k :: 0 <= i < k < numGPUs ==> ring.gpus[i].data[..] == ring.gpus[k].data[..]
    ensures numGPUs <= 15 ==> allSucceeded
    ensures numGPUs == 16 ==> !allSucceeded
  {
    var gpuData := SeedData(numGPUs);
    if numGPUs <= 15 {
      FewGPUs(gpuData);
    } else if numGPUs == 16 {
      SixteenGPUs(gpuData);
    }
    var operations;
    ring, operations, allSucceeded := AllReduce(Rounded, gpuData);
  }
}

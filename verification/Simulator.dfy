/** simulator.go as a program over GPU objects and channels, with a Step that any scheduler may run. */
module Simulator {
  import opened Arithmetic
  import opened Collective
  import opened Counting
  import opened Exactness
  import opened HeapTree
  import opened Modular
  import opened RingSpec
  import opened Seeding
  import B = Barrier

  class GPU {
    const id: nat
    const buffer: array<real>
    const initialBuffer: array<real>
    ghost const seed: seq<real>
    var parent: int
    var children: seq<nat>
    var depth: nat

    constructor (id: nat, buf: seq<real>)
      ensures this.id == id && parent == -1 && children == [] && depth == 0 && seed == buf
      ensures fresh(buffer) && fresh(initialBuffer) && buffer != initialBuffer
      ensures buffer[..] == buf && initialBuffer[..] == buf
    {
      this.id, seed := id, buf;
      var b := new real[|buf|](k requires 0 <= k < |buf| => buf[k]);
      var c := new real[|buf|](k requires 0 <= k < |buf| => buf[k]);
      buffer, initialBuffer := b, c;
      parent, children, depth := -1, [], 0;
    }
  }

  /**
   The execution state of one goroutine running loop(): where it stands, and its sends and receives so far in this
   step.
   */
  class Goroutine {
    var status: B.Status
    /** The step received from the start channel. */
    var step: nat
    var sent: nat
    var received: nat
    ghost var got: seq<BlockMsg>

    constructor ()
      ensures status == B.Waiting && sent == 0 && received == 0 && got == []
    {
      status, step, sent, received, got := B.Waiting, 0, 0, 0, [];
    }
  }

  /** A published view of one GPU. The slices are references to arrays. */
  datatype GPUState = GPUState(
    id: nat, buffer: array<real>, initialBuffer: array<real>,
    lastSentTo: int, lastReceivedFrom: int, activeBlockIdx: int)

  datatype SimulationState = SimulationState(step: nat, maxSteps: int, finished: bool, gpus: seq<GPUState>)

  /** The lock-step run has these buffers after s steps. */
  ghost predicate Predicts(arith: Arith, topology: Topology, n: nat, lock: seq<Buffers>, s: nat, bufs: Buffers) {
    LockStep(arith, topology, n, lock) && s < |lock| && bufs == lock[s]
  }

  lemma PredictsNext(
    arith: Arith, topology: Topology, n: nat, lock: seq<Buffers>, s: nat, bufs: Buffers, bufs': Buffers)
    requires Predicts(arith, topology, n, lock, s, bufs) && s < MaxSteps(topology, n)
    requires SomeRound(arith, topology, bufs, s, bufs')
    ensures Predicts(arith, topology, n, lock, s + 1, bufs')
  {
    assert Follows(arith, topology, lock, s);
    SomeRoundIsRound(arith, topology, bufs, s, bufs');
  }

  class Simulator {
    const arith: Arith
    const topology: Topology
    const gpus: seq<GPU>
    const loops: seq<Goroutine>
    var gpuChans: seq<seq<BlockMsg>>
    var startChans: seq<seq<nat>>
    var doneChan: seq<nat>
    var maxDepth: nat
    var nodesByDepth: map<nat, seq<nat>>
    var step: nat
    var maxSteps: int
    var finished: bool
    var states: seq<GPUState>
    /** The coordinator's two loop counters inside Step. */
    var triggered: nat
    var collectedCount: nat
    ghost var collected: seq<nat>

    // ---------- structure ----------

    ghost predicate Objects() {
      Separate(gpus, loops)
    }

    ghost predicate Linked(i: nat)
      requires i < |gpus|
      reads gpus
    {
      if topology == Tree then
        && gpus[i].parent == (if i == 0 then -1 else Parent(i))
        && gpus[i].children == Children(|gpus|, i)
      else gpus[i].parent == -1 && gpus[i].children == []
    }

    /** The links, depths, height and level table that NewSimulator computes. */
    ghost predicate Built()
      reads this`maxDepth, this`nodesByDepth, this`maxSteps, gpus
    {
      && |gpus| >= 1
      && (forall i :: 0 <= i < |gpus| ==> Linked(i))
      && (topology == Tree ==>
            && (forall i :: 0 <= i < |gpus| ==> gpus[i].depth == Depth(i))
            && maxDepth == MaxDepth(|gpus|)
            && nodesByDepth == Grouped(map[], Preorder(|gpus|, 0)))
      && maxSteps == MaxSteps(topology, |gpus|)
    }

    ghost function LiveBuffers(): set<array<real>>
    {
      set g | g in gpus :: g.buffer
    }

    ghost function Bufs(): (bufs: Buffers)
      reads LiveBuffers()
      ensures |bufs| == |gpus| && forall i :: 0 <= i < |gpus| ==> bufs[i] == gpus[i].buffer[..]
    {
      seq(|gpus|, i requires 0 <= i < |gpus| reads LiveBuffers() => gpus[i].buffer[..])
    }

    ghost function Worker(i: nat): B.Worker
      requires i < |gpus| && |loops| == |gpus|
      reads loops[i], gpus[i].buffer
    {
      B.Worker(gpus[i].buffer[..], loops[i].status, loops[i].sent, loops[i].got)
    }

    ghost function View(): (s: B.State)
      requires |loops| == |gpus|
      reads this, loops, LiveBuffers()
      ensures |s.workers| == |gpus| && forall i :: 0 <= i < |gpus| ==> s.workers[i] == Worker(i)
    {
      B.State(seq(|gpus|, i requires 0 <= i < |gpus| reads loops, LiveBuffers() => Worker(i)),
              gpuChans, startChans, doneChan, triggered, collected)
    }

    /** The real loop counters agree with the histories, and a working goroutine is in the simulator's step. */
    ghost predicate Counters()
      reads this`step, this`collectedCount, this`collected, loops
    {
      && collectedCount == |collected|
      && forall i :: 0 <= i < |loops| ==>
           loops[i].received == |loops[i].got| && (loops[i].status == B.Working ==> loops[i].step == step)
    }

    /** The initial buffers are as they were seeded. */
    ghost predicate Seeded()
      reads set g | g in gpus :: g.initialBuffer
    {
      forall i :: 0 <= i < |gpus| ==> gpus[i].initialBuffer[..] == gpus[i].seed
    }

    // ---------- construction ----------

    /** NewSimulator: seed the buffers, build the tree when the topology asks for it, publish the initial state. */
    constructor (arith: Arith, topology: Topology, numGPUs: nat)
      requires numGPUs >= 1
      ensures Valid() && fresh(loops) && fresh(gpus) && fresh(LiveBuffers())
      ensures this.arith == arith && this.topology == topology && |gpus| == numGPUs && step == 0
      ensures Bufs() == Seeds(numGPUs) && forall i :: 0 <= i < numGPUs ==> gpus[i].seed == SeedBuffer(numGPUs, i)
    {
      var nodes, workers := NewGPUs(numGPUs);
      this.arith, this.topology := arith, topology;
      gpus, loops := nodes, workers;
      gpuChans := seq(numGPUs, i => []);
      startChans := seq(numGPUs, i => []);
      doneChan := [];
      maxDepth, nodesByDepth, step, maxSteps, finished, states := 0, map[], 0, 0, false, [];
      triggered, collectedCount, collected := 0, 0, [];
      new;
      Launch();
    }

    method Launch()
      requires Objects() && |gpus| >= 1 && AllLinkedUpTo(0) && maxDepth == 0 && nodesByDepth == map[]
      requires Seeded() && step == 0 && !finished && |gpuChans| == |startChans| == |gpus| && doneChan == []
      requires forall i :: 0 <= i < |gpus| ==> gpuChans[i] == [] && startChans[i] == [] && loops[i].status == B.Waiting
      requires forall i :: 0 <= i < |gpus| ==> gpus[i].buffer[..] == gpus[i].seed == SeedBuffer(|gpus|, i)
      modifies this, gpus
      ensures Valid() && step == 0 && Bufs() == Seeds(|gpus|)
    {
      assert Bufs() == Seeds(|gpus|);
      Build();
      UpdateState();
    }

    /** Links, depths, height and step count for the topology. */
    method Build()
      requires Objects() && |gpus| >= 1 && AllLinkedUpTo(0) && maxDepth == 0 && nodesByDepth == map[]
      modifies this`maxDepth, this`nodesByDepth, this`maxSteps, gpus
      ensures Built()
    {
      if topology == Tree {
        BuildTree();
        maxSteps := 2 * maxDepth;
      } else {
        forall i | 0 <= i < |gpus| ensures Linked(i) {
          assert LinkedUpTo(0, i);
        }
        maxSteps := 2 * (|gpus| - 1);
      }
    }

    lemma {:induction false} TreeRecorded(depths: seq<nat>, visited: seq<nat>)
      requires topology == Tree && Objects() && |gpus| >= 1 && AllLinkedUpTo(|gpus|)
      requires visited == Preorder(|gpus|, 0) && HasRecorded(map[], 0, depths, visited)
      ensures maxDepth == MaxDepth(|gpus|) && nodesByDepth == Grouped(map[], visited)
      ensures forall i :: 0 <= i < |gpus| ==> Linked(i) && gpus[i].depth == Depth(i)
    {
      var deepest: nat := 0;
      if maxDepth != 0 {
        deepest :| deepest < |gpus| && maxDepth == Depth(deepest);
      }
      RecordedAll(|gpus|, Depths(), nodesByDepth, maxDepth, visited, deepest);
      forall i | 0 <= i < |gpus| ensures Linked(i) && gpus[i].depth == Depth(i) {
        assert LinkedUpTo(|gpus|, i) && Depths()[i] == Depth(i);
      }
    }

    method BuildTree()
      requires topology == Tree
      requires Objects() && |gpus| >= 1 && AllLinkedUpTo(0) && maxDepth == 0 && nodesByDepth == map[]
      modifies this`maxDepth, this`nodesByDepth, gpus
      ensures maxDepth == MaxDepth(|gpus|) && nodesByDepth == Grouped(map[], Preorder(|gpus|, 0))
      ensures forall i :: 0 <= i < |gpus| ==> Linked(i) && gpus[i].depth == Depth(i)
    {
      LinkTree();
      ghost var depths := Depths();
      ghost var visited := ComputeDepth(0, 0);
      TreeRecorded(depths, visited);
    }

    /** GPU k's links once the first i GPUs have been linked. */
    ghost predicate LinkedUpTo(i: nat, k: nat)
      requires k < |gpus|
      reads (set g: GPU | g in gpus)`parent, (set g: GPU | g in gpus)`children
    {
      gpus[k].parent == (if 0 < k < i then Parent(k) else -1) && gpus[k].children == Children(i, k)
    }

    ghost predicate AllLinkedUpTo(i: nat)
      reads (set g: GPU | g in gpus)`parent, (set g: GPU | g in gpus)`children
    {
      forall k :: 0 <= k < |gpus| ==> LinkedUpTo(i, k)
    }

    /** Parent of i is (i-1)/2; append i to its parent's children. */
    method LinkTree()
      requires Objects() && AllLinkedUpTo(0)
      modifies (set g: GPU | g in gpus)`parent, (set g: GPU | g in gpus)`children
      ensures AllLinkedUpTo(|gpus|)
    {
      for i := 0 to |gpus|
        invariant AllLinkedUpTo(i)
      {
        LinkNode(i, i + 1);
      }
    }

    method LinkNode(i: nat, ghost next: nat)
      requires Objects() && i < |gpus| && AllLinkedUpTo(i) && next == i + 1
      modifies (set g: GPU | g in gpus)`parent, (set g: GPU | g in gpus)`children
      ensures AllLinkedUpTo(next)
    {
      assert LinkedUpTo(i, i);
      if i > 0 {
        var p := (i - 1) / 2;
        assert LinkedUpTo(i, p);
        gpus[i].parent := p;
        gpus[p].children := gpus[p].children + [i];
      }
      forall k | 0 <= k < |gpus| ensures LinkedUpTo(next, k) {
        assert old(LinkedUpTo(i, k));
        ChildrenGrow(i, k);
      }
    }

    ghost function Depths(): (ds: seq<nat>)
      reads gpus
      ensures |ds| == |gpus| && forall i :: 0 <= i < |gpus| ==> ds[i] == gpus[i].depth
    {
      seq(|gpus|, i requires 0 <= i < |gpus| reads gpus => gpus[i].depth)
    }

    /**
     Since the table, height and depths were the given ones, everything visited has been recorded, the
     height is still the depth of some node, and no recorded depth has been replaced by a wrong one.
     */
    ghost predicate HasRecorded(table: map<nat, seq<nat>>, height: nat, depths: seq<nat>, visited: seq<nat>)
      reads this`maxDepth, this`nodesByDepth, gpus
    {
      && Recorded(|gpus|, Depths(), nodesByDepth, maxDepth, table, visited)
      && maxDepth >= height && (maxDepth == height || exists j :: 0 <= j < |gpus| && maxDepth == Depth(j))
      && |depths| == |gpus| && forall i :: 0 <= i < |gpus| ==> Depths()[i] == depths[i] || Depths()[i] == Depth(i)
    }

    method RecordNode(id: nat, d: nat)
      requires Objects() && id < |gpus| && d == Depth(id)
      modifies this`maxDepth, this`nodesByDepth, (set g: GPU | g in gpus)`depth
      ensures HasRecorded(old(nodesByDepth), old(maxDepth), old(Depths()), [id])
    {
      gpus[id].depth := d;
      nodesByDepth := nodesByDepth[d := (if d in nodesByDepth then nodesByDepth[d] else []) + [id]];
      if d > maxDepth {
        maxDepth := d;
      }
      RecordedOne(|gpus|, Depths(), nodesByDepth, maxDepth, old(nodesByDepth), id);
    }

    /** Record the depth of id and, recursively, of everything below it. */
    method ComputeDepth(id: nat, d: nat) returns (ghost visited: seq<nat>)
      requires Objects() && AllLinkedUpTo(|gpus|) && id < |gpus| && d == Depth(id)
      modifies this`maxDepth, this`nodesByDepth, (set g: GPU | g in gpus)`depth
      ensures visited == Preorder(|gpus|, id)
      ensures HasRecorded(old(nodesByDepth), old(maxDepth), old(Depths()), visited)
      decreases |gpus| - id
    {
      ghost var table, height, depths := nodesByDepth, maxDepth, Depths();
      RecordNode(id, d);
      visited := VisitChildren(id, d, table, height, depths);
    }

    /** The loop over the children of a node already recorded. */
    method VisitChildren(id: nat, d: nat, ghost table: map<nat, seq<nat>>, ghost height: nat, ghost depths: seq<nat>)
      returns (ghost visited: seq<nat>)
      requires Objects() && AllLinkedUpTo(|gpus|) && id < |gpus| && d == Depth(id)
      requires HasRecorded(table, height, depths, [id])
      modifies this`maxDepth, this`nodesByDepth, (set g: GPU | g in gpus)`depth
      ensures visited == Preorder(|gpus|, id) && HasRecorded(table, height, depths, visited)
      decreases |gpus| - id, 1
    {
      assert LinkedUpTo(|gpus|, id);
      visited := [id];
      var children := gpus[id].children;
      ghost var first: seq<nat>, second: seq<nat> := [], [];
      for k := 0 to |children|
        invariant AllLinkedUpTo(|gpus|)
        invariant visited == [id] + first + second
        invariant first == (if k >= 1 then Preorder(|gpus|, children[0]) else [])
        invariant (k == 0 ==> first == []) && (k <= 1 ==> second == [])
        invariant second == (if k >= 2 then Preorder(|gpus|, children[1]) else [])
        invariant HasRecorded(table, height, depths, visited)
      {
        ghost var below := VisitChild(id, k, children[k], d, table, height, depths, visited);
        NextPart(id, first, second, below);
        visited := visited + below;
        if k == 0 {
          first := below;
        } else {
          second := below;
        }
      }
      PreorderByChildren(|gpus|, id, first, second);
    }

    method VisitChild(
      id: nat, k: nat, child: nat, d: nat, ghost table: map<nat, seq<nat>>, ghost height: nat, ghost depths: seq<nat>,
      ghost visited: seq<nat>) returns (ghost below: seq<nat>)
      requires Objects() && AllLinkedUpTo(|gpus|) && id < |gpus| && d == Depth(id)
      requires k < |Children(|gpus|, id)| && child == Children(|gpus|, id)[k]
      requires HasRecorded(table, height, depths, visited)
      modifies this`maxDepth, this`nodesByDepth, (set g: GPU | g in gpus)`depth
      ensures below == Preorder(|gpus|, child)
      ensures HasRecorded(table, height, depths, visited + below) && AllLinkedUpTo(|gpus|)
      decreases |gpus| - id, 0
    {
      ghost var depths', table', height' := Depths(), nodesByDepth, maxDepth;
      below := ComputeDepth(child, d + 1);
      RecordedConcat(|gpus|, depths', table', height', table, visited, Depths(), nodesByDepth, maxDepth, below);
    }

    // ---------- what a goroutine decides from its own fields ----------

    /** The children at a given depth, as positions among the children. */
    ghost function AtDepth(cs: seq<nat>, d: nat): (js: set<nat>)
      requires forall j :: 0 <= j < |cs| ==> cs[j] < |gpus|
      reads gpus
      ensures forall j :: j in js <==> 0 <= j < |cs| && gpus[cs[j]].depth == d
    {
      set j: nat | j < |cs| && gpus[cs[j]].depth == d
    }

    /** expectedCount: how many of the children are at a given depth. */
    function ExpectedCount(cs: seq<nat>, d: nat): (k: nat)
      requires forall j :: 0 <= j < |cs| ==> cs[j] < |gpus|
      reads gpus
      ensures k == |AtDepth(cs, d)|
    {
      if cs == [] then
        assert AtDepth(cs, d) == {};
        0
      else
        var last := |cs| - 1;
        assert AtDepth(cs, d) == AtDepth(cs[..last], d) + if gpus[cs[last]].depth == d then {last} else {};
        ExpectedCount(cs[..last], d) + if gpus[cs[last]].depth == d then 1 else 0
    }

    /** All of a node's children are one level deeper. */
    lemma {:induction false} ChildrenOneDeeper(i: nat)
      requires Objects() && Built() && topology == Tree && i < |gpus|
      ensures gpus[i].children == Children(|gpus|, i)
      ensures forall j :: 0 <= j < |gpus[i].children| ==>
                gpus[i].children[j] < |gpus| && gpus[gpus[i].children[j]].depth == gpus[i].depth + 1
      ensures ExpectedCount(gpus[i].children, gpus[i].depth + 1) == |gpus[i].children|
    {
      assert Linked(i);
      var cs, d := gpus[i].children, gpus[i].depth + 1;
      assert forall c :: c in cs ==> c < |gpus| && gpus[c].depth == Depth(i) + 1;
      DistinctCount(Range(|cs|));
      forall j | 0 <= j < |cs| ensures j in Members(Range(|cs|)) {
        assert Range(|cs|)[j] == j;
      }
      assert AtDepth(cs, d) == Members(Range(|cs|));
    }

    /** Whom GPU i sends to in this step: the sending branches of runRingStep and runTreeStep. */
    function Outgoing(i: nat, step: nat): (ts: seq<nat>)
      requires Objects() && Built() && i < |gpus| && step < MaxSteps(topology, |gpus|)
      reads this`maxDepth, this`nodesByDepth, this`maxSteps, gpus
      ensures ts == Targets(topology, |gpus|, i, step)
      ensures topology == Ring ==> ts == [(i + 1) % |gpus|]
      ensures topology == Tree && step < MaxDepth(|gpus|) ==>
                ts == if i > 0 && Depth(i) == MaxDepth(|gpus|) - step then [(i - 1) / 2] else []
      ensures topology == Tree && step >= MaxDepth(|gpus|) && Depth(i) == step - MaxDepth(|gpus|) ==>
                ts == (if 2 * i + 1 < |gpus| then [2 * i + 1] else []) +
                (if 2 * i + 2 < |gpus| then [2 * i + 2] else [])
      ensures topology == Tree && step >= MaxDepth(|gpus|) && Depth(i) != step - MaxDepth(|gpus|) ==> ts == []
    {
      assert Linked(i);
      if topology == Ring then [Successor(|gpus|, gpus[i].id)]
      else if step < maxDepth then
        assert i == 0 ==> Depth(i) == 0;
        if gpus[i].depth == maxDepth - step && gpus[i].parent != -1 then [gpus[i].parent] else []
      else
        if gpus[i].depth == step - maxDepth then gpus[i].children else []
    }

    /** How many messages GPU i receives in this step: the receiving branches, tried after the sending ones. */
    function Incoming(i: nat, step: nat): (k: nat)
      requires Objects() && Built() && i < |gpus| && step < MaxSteps(topology, |gpus|)
      reads this`maxDepth, this`nodesByDepth, this`maxSteps, gpus
      ensures k == |Sources(topology, |gpus|, i, step)|
    {
      if topology == Ring then 1 else TreeIncoming(i, step)
    }

    /** The sources of the plan, in terms of what the GPU objects hold. */
    lemma {:induction false} TreeSources(i: nat, step: nat)
      requires Objects() && Built() && topology == Tree && i < |gpus| && step < MaxSteps(Tree, |gpus|)
      ensures forall j :: 0 <= j < |gpus[i].children| ==> gpus[i].children[j] < |gpus|
      ensures |Sources(Tree, |gpus|, i, step)| ==
                if step >= maxDepth then (if gpus[i].depth == step - maxDepth + 1 then 1 else 0)
                else if gpus[i].depth == maxDepth - step - 1 then ExpectedCount(gpus[i].children, maxDepth - step)
                else 0
    {
      ChildrenOneDeeper(i);
      SourceCount(|gpus|, i, step);
    }

    /** The receiving branches of runTreeStep. */
    function TreeIncoming(i: nat, step: nat): (k: nat)
      requires Objects() && Built() && topology == Tree && i < |gpus| && step < MaxSteps(Tree, |gpus|)
      reads this`maxDepth, this`nodesByDepth, this`maxSteps, gpus
      ensures k == |Sources(Tree, |gpus|, i, step)|
    {
      TreeSources(i, step);
      if step < maxDepth then
        if gpus[i].depth == maxDepth - step then 0
        else if gpus[i].depth == maxDepth - step - 1 then ExpectedCount(gpus[i].children, maxDepth - step)
        else 0
      else
        if gpus[i].depth != step - maxDepth && gpus[i].depth == step - maxDepth + 1 then 1 else 0
    }

    // ---------- the channel operations ----------

    /** p is the plan of the step at hand. */
    ghost predicate Matches(p: B.Plan)
      requires |gpus| >= 1
      reads this`step
    {
      && p.arith == arith && p.top == topology && p.n == |gpus| && p.step == step < MaxSteps(topology, |gpus|)
      && |p.targets| == |p.sources| == p.n
      && forall i :: 0 <= i < p.n ==>
           p.targets[i] == Targets(topology, p.n, i, step) && p.sources[i] == Sources(topology, p.n, i, step)
    }

    /** What no channel operation disturbs. */
    ghost predicate Structure(p: B.Plan)
      reads this`step, this`maxDepth, this`nodesByDepth, this`maxSteps, this`collectedCount, this`collected, gpus, loops
      reads set g | g in gpus :: g.initialBuffer
    {
      Objects() && Built() && Seeded() && Counters() && Matches(p)
    }

    /** A step is under way and the state is one the transition system can be in. */
    ghost predicate Running(p: B.Plan)
      reads this, gpus, loops, LiveBuffers(), set g | g in gpus :: g.initialBuffer
    {
      Structure(p) && B.WellFormed(p, View())
    }

    predicate CanTrigger()
      reads this
      requires |startChans| == |gpus|
    {
      triggered < |gpus| && |startChans[triggered]| < B.START_CAPACITY
    }

    predicate CanCollect()
      reads this
    {
      triggered == |gpus| && collectedCount < |gpus| && doneChan != []
    }

    predicate CanWake(i: nat)
      requires i < |gpus| == |loops| == |startChans|
      reads this, loops
    {
      loops[i].status != B.Working && startChans[i] != []
    }

    predicate CanSend(i: nat)
      requires Objects() && Built() && Counters() && i < |gpus| == |gpuChans| && step < MaxSteps(topology, |gpus|)
      reads this, gpus, loops
    {
      && loops[i].status == B.Working
      && var ts := Outgoing(i, loops[i].step);
         loops[i].sent < |ts| && |gpuChans[ts[loops[i].sent]]| < 2 * |gpus|
    }

    predicate CanRecv(i: nat)
      requires Objects() && Built() && Counters() && i < |gpus| == |gpuChans| && step < MaxSteps(topology, |gpus|)
      reads this, gpus, loops
    {
      && loops[i].status == B.Working && loops[i].sent >= |Outgoing(i, loops[i].step)|
      && loops[i].received < Incoming(i, loops[i].step) && gpuChans[i] != []
    }

    predicate CanFinish(i: nat)
      requires Objects() && Built() && Counters() && i < |gpus| && step < MaxSteps(topology, |gpus|)
      reads this, gpus, loops
    {
      && loops[i].status == B.Working && loops[i].sent >= |Outgoing(i, loops[i].step)|
      && loops[i].received >= Incoming(i, loops[i].step) && |doneChan| < |gpus|
    }

    /** The guards the program evaluates are the transition system's. */
    lemma GuardsAgree(p: B.Plan, i: nat)
      requires Running(p) && i < |gpus|
      ensures CanTrigger() <==> B.Enabled(p, View(), B.Trigger)
      ensures CanCollect() <==> B.Enabled(p, View(), B.Collect)
      ensures CanWake(i) <==> B.Enabled(p, View(), B.Wake(i))
      ensures CanSend(i) <==> B.Enabled(p, View(), B.Send(i))
      ensures CanRecv(i) <==> B.Enabled(p, View(), B.Recv(i))
      ensures CanFinish(i) <==> B.Enabled(p, View(), B.Finish(i))
    {
      assert View().workers[i] == Worker(i);
    }

    /** Channel operations touch neither the GPU objects nor the initial buffers. */
    twostate lemma StructureKept(p: B.Plan)
      requires old(Structure(p)) && Counters() && unchanged(this`step, this`maxDepth, this`nodesByDepth, this`maxSteps)
      requires forall g :: g in gpus ==> unchanged(g) && unchanged(g.initialBuffer)
      ensures Structure(p)
    {
      assert forall i :: 0 <= i < |gpus| ==> gpus[i] in gpus;
      forall i | 0 <= i < |gpus| ensures Linked(i) {
        assert old(Linked(i));
      }
    }

    /** startChans[i] <- step */
    method Trigger(ghost p: B.Plan)
      requires Running(p) && B.Enabled(p, View(), B.Trigger)
      modifies this`startChans, this`triggered
      ensures Structure(p) && View() == B.Do(p, old(View()), B.Trigger)
    {
      startChans := startChans[triggered := startChans[triggered] + [step]];
      triggered := triggered + 1;
      StructureKept(p);
      assert View().workers == old(View().workers);
    }

    /** <-doneChan */
    method Collect(ghost p: B.Plan)
      requires Running(p) && B.Enabled(p, View(), B.Collect)
      modifies this`doneChan, this`collectedCount, this`collected
      ensures Structure(p) && View() == B.Do(p, old(View()), B.Collect)
    {
      collected := collected + [doneChan[0]];
      collectedCount := collectedCount + 1;
      doneChan := doneChan[1..];
      StructureKept(p);
      assert View().workers == old(View().workers);
    }

    /** The receive at the top of loop(). */
    method Wake(i: nat, ghost p: B.Plan) returns (received: nat)
      requires Running(p) && i < |gpus| && B.Enabled(p, View(), B.Wake(i)) && startChans[i][0] == step
      modifies this`startChans, loops[i]
      ensures Structure(p) && View() == B.Do(p, old(View()), B.Wake(i))
      ensures received == old(startChans[i][0])
    {
      hide Linked;
      received := startChans[i][0];
      startChans := startChans[i := startChans[i][1..]];
      var g := loops[i];
      g.status, g.step, g.sent, g.received, g.got := B.Working, received, 0, 0, [];
      StructureKept(p);
      assert View().workers == B.Do(p, old(View()), B.Wake(i)).workers;
    }

    method MakeMessage(i: nat, to: nat, step: nat) returns (msg: BlockMsg)
      requires Objects() && i < |gpus| && step < MaxSteps(topology, |gpus|)
      ensures msg == MsgOf(topology, |gpus|, gpus[i].buffer[..], i, to, step)
    {
      var n, g := |gpus|, gpus[i];
      if topology == Ring {
        SendIdxIsPosMod(n, i, step);
        var sendBlockIdx: int;
        if step < n - 1 {
          sendBlockIdx := PosMod(g.id - step, n);
        } else {
          var stepAg := step - (n - 1);
          sendBlockIdx := PosMod(g.id + 1 - stepAg, n);
        }
        msg := BlockMsg(g.id, to, sendBlockIdx, [g.buffer[sendBlockIdx]], step);
      } else {
        msg := BlockMsg(g.id, to, 0, g.buffer[..], step);
      }
    }

    method NextMessage(i: nat, step: nat, sent: nat, ghost p: B.Plan) returns (to: nat, msg: BlockMsg)
      requires Objects() && Built() && Matches(p) && step == p.step && i < |gpus| && sent < |p.targets[i]|
      ensures to == p.targets[i][sent]
      ensures msg == MsgOf(p.top, p.n, gpus[i].buffer[..], i, to, p.step)
    {
      to := Outgoing(i, step)[sent];
      msg := MakeMessage(i, to, step);
    }

    /** The channel gets the message; the sender has sent one more. */
    method PutMessage(i: nat, to: nat, msg: BlockMsg)
      requires Objects() && Counters() && i < |gpus| && to < |gpuChans|
      modifies this`gpuChans, loops[i]
      ensures Counters()
      ensures View() == old(View()).(
                rx := old(gpuChans)[to := old(gpuChans)[to] + [msg]],
                workers := old(View().workers)[i := old(Worker(i)).(sent := old(loops[i].sent) + 1)])
    {
      var g := loops[i];
      gpuChans := gpuChans[to := gpuChans[to] + [msg]];
      g.sent := g.sent + 1;
      assert View().workers == old(View().workers)[i := old(Worker(i)).(sent := old(loops[i].sent) + 1)];
    }

    /** Build the message of the current branch and put it on the target's channel. */
    method Send(i: nat, ghost p: B.Plan)
      requires Running(p) && i < |gpus| && B.Enabled(p, View(), B.Send(i))
      modifies this`gpuChans, loops[i]
      ensures Structure(p) && View() == B.Do(p, old(View()), B.Send(i))
    {
      hide Linked, Targets, Sources;
      assert View().workers[i] == Worker(i);
      var to, msg := NextMessage(i, loops[i].step, loops[i].sent, p);
      PutMessage(i, to, msg);
      StructureKept(p);
    }

    method AbsorbInPlace(buffer: array<real>, msg: BlockMsg, step: nat)
      requires buffer.Length == |gpus| >= 1 && GoodMsg(topology, |gpus|, msg)
      requires step < MaxSteps(topology, |gpus|) && (topology == Tree ==> maxDepth == MaxDepth(|gpus|))
      modifies buffer
      ensures buffer[..] == AbsorbMsg(arith, topology, |gpus|, step, old(buffer[..]), msg)
    {
      if topology == Ring {
        if step < |gpus| - 1 {
          buffer[msg.block] := Sum(arith, buffer[msg.block], msg.values[0]);
        } else {
          buffer[msg.block] := msg.values[0];
        }
      } else if step < maxDepth {
        for idx := 0 to buffer.Length
          invariant forall k :: 0 <= k < idx ==> buffer[k] == Sum(arith, old(buffer[k]), msg.values[k])
          invariant forall k :: idx <= k < buffer.Length ==> buffer[k] == old(buffer[k])
        {
          buffer[idx] := Sum(arith, buffer[idx], msg.values[idx]);
        }
      } else {
        for idx := 0 to buffer.Length
          invariant forall k :: 0 <= k < idx ==> buffer[k] == msg.values[k]
        {
          buffer[idx] := msg.values[idx];
        }
      }
    }

    /** The channel loses its oldest message; the receiver has absorbed it. */
    method TakeMessage(i: nat)
      requires Objects() && Counters() && i < |gpus| && i < |gpuChans| && gpuChans[i] != []
      requires loops[i].step < MaxSteps(topology, |gpus|) && GoodMsg(topology, |gpus|, gpuChans[i][0])
      requires topology == Tree ==> maxDepth == MaxDepth(|gpus|)
      modifies this`gpuChans, loops[i], gpus[i].buffer
      ensures Counters()
      ensures View() == old(View()).(
                rx := old(gpuChans)[i := old(gpuChans[i])[1..]],
                workers := old(View().workers)[i := old(Worker(i)).(
                  buf := AbsorbMsg(
                    arith, topology, |gpus|, old(loops[i].step), old(gpus[i].buffer[..]), old(gpuChans[i][0])),
                  got := old(loops[i].got) + [old(gpuChans[i][0])])])
    {
      var g, msg := loops[i], gpuChans[i][0];
      gpuChans := gpuChans[i := gpuChans[i][1..]];
      g.received, g.got := g.received + 1, g.got + [msg];
      AbsorbInPlace(gpus[i].buffer, msg, g.step);
      assert View().workers == old(View().workers)[i := Worker(i)];
    }

    /** Take the oldest message and reduce it into, or copy it over, the buffer. */
    method Recv(i: nat, ghost p: B.Plan)
      requires Running(p) && i < |gpus| && B.Enabled(p, View(), B.Recv(i))
      modifies this`gpuChans, loops[i], gpus[i].buffer
      ensures Structure(p) && View() == B.Do(p, old(View()), B.Recv(i))
    {
      hide Linked, AbsorbMsg;
      assert View().workers[i] == Worker(i);
      TakeMessage(i);
      StructureKept(p);
    }

    /** g.doneStepChan <- g.id */
    method Finish(i: nat, ghost p: B.Plan)
      requires Running(p) && i < |gpus| && B.Enabled(p, View(), B.Finish(i))
      modifies this`doneChan, loops[i]
      ensures Structure(p) && View() == B.Do(p, old(View()), B.Finish(i))
    {
      doneChan := doneChan + [gpus[i].id];
      loops[i].status := B.Returned;
      StructureKept(p);
      assert View().workers == B.Do(p, old(View()), B.Finish(i)).workers;
    }

    // ---------- one barrier step ----------

    /** Whether goroutine i's next operation would not block. */
    predicate CanMove(i: nat)
      requires Objects() && Built() && Counters() && step < MaxSteps(topology, |gpus|)
      requires i < |gpus| == |gpuChans| == |startChans|
      reads this, gpus, loops
    {
      CanWake(i) || CanSend(i) || CanRecv(i) || CanFinish(i)
    }

    /** Goroutine i performs its next operation. */
    method MoveGoroutine(i: nat, ghost p: B.Plan) returns (ghost a: B.Action)
      requires Running(p) && i < |gpus| && CanMove(i) && (startChans[i] != [] ==> startChans[i][0] == step)
      modifies this`gpuChans, this`startChans, this`doneChan, loops[i], gpus[i].buffer
      ensures B.Enabled(p, old(View()), a) && View() == B.Do(p, old(View()), a) && Structure(p)
    {
      GuardsAgree(p, i);
      if CanWake(i) {
        a := B.Wake(i);
        var received := Wake(i, p);
      } else if CanSend(i) {
        a := B.Send(i);
        Send(i, p);
      } else if CanRecv(i) {
        a := B.Recv(i);
        Recv(i, p);
      } else {
        a := B.Finish(i);
        Finish(i, p);
      }
    }

    /** The coordinator performs its next operation. */
    method MoveCoordinator(ghost p: B.Plan) returns (ghost a: B.Action)
      requires Running(p) && (CanTrigger() || CanCollect())
      modifies this`startChans, this`doneChan, this`triggered, this`collectedCount, this`collected
      ensures B.Enabled(p, old(View()), a) && View() == B.Do(p, old(View()), a) && Structure(p)
    {
      GuardsAgree(p, 0);
      if CanTrigger() {
        a := B.Trigger;
        Trigger(p);
      } else {
        a := B.Collect;
        Collect(p);
      }
    }

    /** What waits in a start channel is the step the coordinator is in. */
    lemma StartsHoldTheStep(p: B.Plan, bufs: Buffers)
      requires Running(p) && B.Inv(p, bufs, View())
      ensures forall i :: 0 <= i < |gpus| && startChans[i] != [] ==> startChans[i][0] == step
    {
      forall i | 0 <= i < |gpus| && startChans[i] != [] ensures startChans[i][0] == step {
        assert B.WorkerOk(p, View(), i);
      }
    }

    lemma SomeoneCanMove(p: B.Plan, bufs: Buffers)
      requires Running(p) && B.Inv(p, bufs, View()) && !B.Completed(p, View())
      ensures CanTrigger() || CanCollect() || exists i :: 0 <= i < |gpus| && CanMove(i)
    {
      var a := B.Progress(p, bufs, View());
      GuardsAgree(p, if a.Trigger? || a.Collect? then 0 else a.i);
      assert !a.Trigger? && !a.Collect? ==> CanMove(a.i);
    }

    /**
     The coordinator or some goroutine, whichever the scheduler picks among those able to move, takes its next step.
     */
    method Advance(ghost p: B.Plan, ghost bufs: Buffers) returns (ghost t: B.State)
      requires Running(p) && B.Inv(p, bufs, View()) && !B.Completed(p, View())
      modifies this`gpuChans, this`startChans, this`doneChan, this`triggered, this`collectedCount, this`collected
      modifies loops, LiveBuffers()
      ensures Structure(p) && t == View() && B.Inv(p, bufs, t)
      ensures B.Measure(p, t) == B.Measure(p, old(View())) - 1
    {
      ghost var s := View();
      ghost var a;
      StartsHoldTheStep(p, bufs);
      SomeoneCanMove(p, bufs);
      if {
        case CanTrigger() || CanCollect() => a := MoveCoordinator(p);
        case i :| 0 <= i < |gpus| && CanMove(i) => a := MoveGoroutine(i, p);
      }
      B.StepKeepsInv(p, bufs, s, a);
      B.EachOperationCounts(p, bufs, s, a);
      t := B.Do(p, s, a);
    }

    // ---------- telemetry ----------

    function FirstAtDepth(cs: seq<nat>, d: nat): (c: int)
      requires forall j :: 0 <= j < |cs| ==> cs[j] < |gpus|
      reads gpus
      ensures c == -1 ==> forall j :: 0 <= j < |cs| ==> gpus[cs[j]].depth != d
      ensures c != -1 ==> exists j ::
                && 0 <= j < |cs| && c == cs[j] && gpus[cs[j]].depth == d
                && forall k :: 0 <= k < j ==> gpus[cs[k]].depth != d
    {
      if cs == [] then -1 else if gpus[cs[0]].depth == d then cs[0] else FirstAtDepth(cs[1..], d)
    }

    /** The GPU named as target is the first one messaged in the coming step, and -1 means that none is. */
    function LastSentTo(i: nat): (r: int)
      requires Objects() && Built() && i < |gpus|
      reads this`maxDepth, this`nodesByDepth, this`maxSteps, this`step, gpus
      ensures r == if step >= MaxSteps(topology, |gpus|) || Targets(topology, |gpus|, i, step) == [] then -1
                   else Targets(topology, |gpus|, i, step)[0]
      ensures step >= MaxSteps(topology, |gpus|) ==> r == -1
      ensures topology == Ring && step < MaxSteps(Ring, |gpus|) ==> r == (i + 1) % |gpus|
      ensures topology == Tree && step < MaxDepth(|gpus|) ==>
                r == if i > 0 && Depth(i) == MaxDepth(|gpus|) - step then (i - 1) / 2 else -1
      ensures topology == Tree && MaxDepth(|gpus|) <= step < 2 * MaxDepth(|gpus|) ==>
                r == if Depth(i) == step - MaxDepth(|gpus|) && 2 * i + 1 < |gpus| then 2 * i + 1 else -1
    {
      assert Linked(i);
      if topology == Ring then
        if step < 2 * (|gpus| - 1) then Successor(|gpus|, gpus[i].id) else -1
      else if step < maxDepth then
        assert i == 0 ==> Depth(i) == 0;
        if gpus[i].depth == maxDepth - step && gpus[i].parent != -1 then gpus[i].parent else -1
      else if step < 2 * maxDepth then
        if gpus[i].depth == step - maxDepth && |gpus[i].children| > 0 then gpus[i].children[0] else -1
      else -1
    }

    /** The GPU named as sender is the first one to be heard from in the coming step, and -1 means that none is. */
    function LastReceivedFrom(i: nat): (r: int)
      requires Objects() && Built() && i < |gpus|
      reads this`maxDepth, this`nodesByDepth, this`maxSteps, this`step, gpus
      ensures r == if step >= MaxSteps(topology, |gpus|) || Sources(topology, |gpus|, i, step) == [] then -1
                   else Sources(topology, |gpus|, i, step)[0]
      ensures step >= MaxSteps(topology, |gpus|) ==> r == -1
      ensures topology == Ring && step < MaxSteps(Ring, |gpus|) ==> r == (i - 1) % |gpus|
      ensures topology == Tree && step < MaxDepth(|gpus|) ==>
                r == if Depth(i) == MaxDepth(|gpus|) - step - 1 && 2 * i + 1 < |gpus| then 2 * i + 1 else -1
      ensures topology == Tree && MaxDepth(|gpus|) <= step < 2 * MaxDepth(|gpus|) ==>
                r == if i > 0 && Depth(i) == step - MaxDepth(|gpus|) + 1 then (i - 1) / 2 else -1
    {
      assert Linked(i);
      if topology == Ring then
        if step < 2 * (|gpus| - 1) then Predecessor(|gpus|, gpus[i].id) else -1
      else if step < maxDepth then
        if gpus[i].depth == maxDepth - step - 1 then
          ChildrenOneDeeper(i);
          FirstAtDepth(gpus[i].children, maxDepth - step)
        else -1
      else if step < 2 * maxDepth then
        assert i == 0 ==> Depth(i) == 0;
        if gpus[i].depth == step - maxDepth + 1 then gpus[i].parent else -1
      else -1
    }

    /** In the ring, the block of the message GPU i sends in the coming step. */
    function ActiveBlockIdx(i: nat): (r: int)
      requires Objects() && Built() && i < |gpus|
      reads this`maxDepth, this`nodesByDepth, this`maxSteps, this`step, gpus
      ensures r == if topology == Tree || step >= MaxSteps(Ring, |gpus|) then -1 else SendIdx(|gpus|, i, step)
      ensures r != -1 ==> r == (i - step) % |gpus|
    {
      if topology == Ring && step < |gpus| - 1 then
        SendIdxIsPosMod(|gpus|, i, step);
        PosMod(gpus[i].id - step, |gpus|)
      else if topology == Ring && step < 2 * (|gpus| - 1) then
        SendIdxIsPosMod(|gpus|, i, step);
        PosMod(gpus[i].id + 1 - (step - (|gpus| - 1)), |gpus|)
      else -1
    }

    // ---------- published state ----------

    /** st holds copies of GPU i's buffers, in arrays no GPU writes to, and its telemetry. */
    ghost predicate Describes(st: GPUState, i: nat)
      requires Objects() && Built() && i < |gpus|
      reads this`maxDepth, this`nodesByDepth, this`maxSteps, this`step, gpus, LiveBuffers(), st.buffer, st.initialBuffer
    {
      && st.id == i
      && st.buffer !in LiveBuffers() && st.initialBuffer !in LiveBuffers()
      && st.buffer[..] == gpus[i].buffer[..] && st.initialBuffer[..] == gpus[i].seed
      && st.lastSentTo == LastSentTo(i)
      && st.lastReceivedFrom == LastReceivedFrom(i)
      && st.activeBlockIdx == ActiveBlockIdx(i)
    }

    ghost predicate Published()
      requires Objects() && Built()
      reads this`maxDepth, this`nodesByDepth, this`maxSteps, this`step, this`states
      reads gpus, LiveBuffers(), (set st | st in states :: st.buffer), (set st | st in states :: st.initialBuffer)
    {
      |states| == |gpus| && forall i :: 0 <= i < |gpus| ==> Describes(states[i], i)
    }

    /** Every channel is empty and every goroutine is at the top of its loop. */
    ghost predicate Quiet()
      reads this`gpuChans, this`startChans, this`doneChan, loops
      requires |loops| == |gpus|
    {
      && |gpuChans| == |startChans| == |gpus| && doneChan == []
      && forall i :: 0 <= i < |gpus| ==> gpuChans[i] == [] && startChans[i] == [] && loops[i].status != B.Working
    }

    /**
     Between steps: every channel is empty, every goroutine is at the top of its loop, and what is published is
     current.
     */
    ghost predicate Valid()
      reads this, gpus, loops, LiveBuffers(), set g | g in gpus :: g.initialBuffer
      reads (set st | st in states :: st.buffer), (set st | st in states :: st.initialBuffer)
    {
      && Objects() && Built() && Seeded() && Published()
      && Quiet()
      && step <= MaxSteps(topology, |gpus|)
      && (finished <==> step == MaxSteps(topology, |gpus|))
    }

    method Describe(i: nat) returns (st: GPUState)
      requires Objects() && Built() && Seeded() && i < |gpus|
      ensures Describes(st, i) && fresh(st.buffer) && fresh(st.initialBuffer)
    {
      var buffer := CopyOf(gpus[i].buffer);
      var initialBuffer := CopyOf(gpus[i].initialBuffer);
      st := GPUState(gpus[i].id, buffer, initialBuffer, LastSentTo(i), LastReceivedFrom(i), ActiveBlockIdx(i));
    }

    /** Copy every GPU's buffers and telemetry into freshly allocated slices. */
    method UpdateState()
      requires Objects() && Built() && Seeded() && step <= MaxSteps(topology, |gpus|)
      requires finished ==> step == MaxSteps(topology, |gpus|)
      modifies this`states, this`finished
      ensures Published() && (finished <==> step == MaxSteps(topology, |gpus|))
      ensures forall st | st in states :: fresh(st.buffer) && fresh(st.initialBuffer)
    {
      hide Linked, LastSentTo, LastReceivedFrom, ActiveBlockIdx;
      var published: seq<GPUState> := [];
      for i := 0 to |gpus|
        invariant finished == old(finished)
        invariant |published| == i && forall k :: 0 <= k < i ==>
                    Describes(published[k], k) && fresh(published[k].buffer) && fresh(published[k].initialBuffer)
      {
        var st := Describe(i);
        published := published + [st];
      }
      states := published;
      UpdateFinished();
    }

    method UpdateFinished()
      requires Built() && step <= MaxSteps(topology, |gpus|)
      requires finished ==> step == MaxSteps(topology, |gpus|)
      modifies this`finished
      ensures finished <==> step == MaxSteps(topology, |gpus|)
    {
      if topology == Ring {
        if step >= |gpus| - 1 && step >= 2 * (|gpus| - 1) {
          finished := true;
        }
      } else if step >= maxDepth && step >= 2 * maxDepth {
        finished := true;
      }
    }

    /** Prepare the bookkeeping of a new step; no goroutine moves. */
    method BeginStep()
      requires Objects()
      modifies this`triggered, this`collectedCount, this`collected, loops
      ensures Counters() && triggered == 0 && collected == []
      ensures forall i :: 0 <= i < |gpus| ==> Worker(i) == B.Worker(gpus[i].buffer[..], B.Waiting, 0, [])
    {
      for k := 0 to |loops|
        invariant forall i :: 0 <= i < k ==>
                    loops[i].status == B.Waiting && loops[i].sent == loops[i].received == 0 && loops[i].got == []
      {
        loops[k].status, loops[k].sent, loops[k].received, loops[k].got := B.Waiting, 0, 0, [];
      }
      triggered, collectedCount, collected := 0, 0, [];
    }

    /** The scheduler keeps picking until the coordinator has collected every completion. */
    method RunUntilCollected(ghost p: B.Plan, ghost bufs: Buffers)
      requires Running(p) && B.Inv(p, bufs, View()) && B.Measure(p, View()) >= 0
      modifies this`gpuChans, this`startChans, this`doneChan, this`triggered, this`collectedCount, this`collected
      modifies loops, LiveBuffers()
      ensures Running(p) && B.Inv(p, bufs, View()) && collectedCount >= |gpus|
    {
      ghost var s := View();
      while collectedCount < |gpus|
        invariant Structure(p) && s == View() && B.Inv(p, bufs, s)
        decreases B.Measure(p, s)
      {
        B.LeftNonNegative(p, bufs, s, p.n);
        s := Advance(p, bufs);
      }
    }

    lemma StepReady(p: B.Plan, bufs: Buffers)
      requires Objects() && Built() && Seeded() && Counters() && step < MaxSteps(topology, |gpus|)
      requires p == B.PlanOf(arith, topology, |gpus|, step)
      requires B.ValidPlan(p) && bufs == Bufs() && triggered == 0 && collected == []
      requires |gpuChans| == |startChans| == |gpus| && doneChan == []
      requires forall i :: 0 <= i < |gpus| ==> gpuChans[i] == [] && startChans[i] == []
      requires forall i :: 0 <= i < |gpus| ==> Worker(i) == B.Worker(gpus[i].buffer[..], B.Waiting, 0, [])
      ensures Structure(p) && B.Inv(p, bufs, View()) && B.Measure(p, View()) >= 0
    {
      assert B.Ready(p, bufs, View());
      B.ReadyInv(p, bufs, View());
      B.LeftNonNegative(p, bufs, View(), p.n);
    }

    lemma StepOutcome(p: B.Plan, bufs: Buffers)
      requires Running(p) && B.Inv(p, bufs, View()) && collectedCount >= |gpus|
      requires p == B.PlanOf(arith, topology, |gpus|, step)
      ensures Quiet() && SomeRound(arith, topology, bufs, step, Bufs())
    {
      hide AbsorbAll, FullInbox;
      B.PigeonholeCollected(p, bufs, View());
      B.CompletedHeard(p, bufs, View());
      forall i | 0 <= i < |gpus|
        ensures loops[i].status != B.Working && Heard(arith, topology, bufs, step, i, Bufs()[i])
      {
        assert View().workers[i] == Worker(i);
        assert B.HeardAll(p, bufs, View().workers[i], i);
      }
    }

    /** The channel traffic of one step: trigger every GPU, then wait for all of them, under any scheduler. */
    method RunStep()
      requires Objects() && Built() && Seeded() && Quiet() && step < MaxSteps(topology, |gpus|)
      modifies this`gpuChans, this`startChans, this`doneChan, this`triggered, this`collectedCount, this`collected
      modifies loops, LiveBuffers()
      ensures Objects() && Built() && Seeded() && Quiet()
      ensures SomeRound(arith, topology, old(Bufs()), step, Bufs())
    {
      ghost var p := B.PlanOf(arith, topology, |gpus|, step);
      ghost var bufs := Bufs();
      BeginStep();
      B.PlanIsValid(arith, topology, |gpus|, step);
      StepReady(p, bufs);
      RunUntilCollected(p, bufs);
      StepOutcome(p, bufs);
    }

    /** s.state.Step++ and updateState(). */
    method AdvanceCounter()
      requires Objects() && Built() && Seeded() && Quiet() && step < MaxSteps(topology, |gpus|) && !finished
      modifies this`step, this`states, this`finished
      ensures Valid() && step == old(step) + 1
      ensures forall st | st in states :: fresh(st.buffer) && fresh(st.initialBuffer)
    {
      step := step + 1;
      UpdateState();
    }

    /** The snapshot holds these buffers and the seeds, in arrays no GPU writes to. */
    ghost predicate Shows(snapshot: SimulationState, bufs: Buffers)
      reads (set st | st in snapshot.gpus :: st.buffer), (set st | st in snapshot.gpus :: st.initialBuffer)
    {
      && |snapshot.gpus| == |gpus| == |bufs|
      && forall i :: 0 <= i < |gpus| ==>
           && snapshot.gpus[i].buffer[..] == bufs[i] && snapshot.gpus[i].buffer !in LiveBuffers()
           && snapshot.gpus[i].initialBuffer[..] == gpus[i].seed && snapshot.gpus[i].initialBuffer !in LiveBuffers()
    }

    /** A copy of the published state. The copied records share their slices with the simulator's. */
    method GetState() returns (snapshot: SimulationState)
      requires Valid()
      ensures snapshot == SimulationState(step, maxSteps, finished, states)
      ensures Shows(snapshot, Bufs())
    {
      assert forall i :: 0 <= i < |gpus| ==> Describes(states[i], i);
      snapshot := SimulationState(step, maxSteps, finished, states);
    }

    /** The buffers are those of the lock-step run. */
    ghost predicate InStep(lock: seq<Buffers>)
      reads this`step, LiveBuffers()
    {
      Predicts(arith, topology, |gpus|, lock, step, Bufs())
    }

    /** Advance the simulation by one step, and publish the result. */
    method Step() returns (more: bool)
      requires Valid()
      modifies this, loops, LiveBuffers()
      ensures Valid() && more == !finished
      ensures old(finished) ==> !more && step == old(step) && states == old(states) && Bufs() == old(Bufs())
      ensures !old(finished) ==> step == old(step) + 1
      ensures !old(finished) ==> SomeRound(arith, topology, old(Bufs()), old(step), Bufs())
      ensures !old(finished) ==> forall st | st in states :: fresh(st.buffer) && fresh(st.initialBuffer)
    {
      hide Objects, Built, Seeded, Published, Quiet, SomeRound;
      if finished {
        return false;
      }
      RunStep();
      AdvanceCounter();
      return !finished;
    }

    /** Step keeps to the lock-step run. */
    method StepInStep(ghost lock: seq<Buffers>)
      requires Valid() && !finished
      modifies this, loops, LiveBuffers()
      ensures Valid() && step == old(step) + 1
      ensures old(InStep(lock)) ==> InStep(lock)
    {
      hide Objects, Built, Seeded, Published, Quiet, SomeRound, LockStep;
      ghost var s, bufs := step, Bufs();
      var more := Step();
      if Predicts(arith, topology, |gpus|, lock, s, bufs) {
        PredictsNext(arith, topology, |gpus|, lock, s, bufs, Bufs());
      }
    }

    /** for !Finished { Step() }: from any state of a lock-step run, the run ends with its last state. */
    method RunToEnd(ghost lock: seq<Buffers>)
      requires Valid()
      modifies this, loops, LiveBuffers()
      ensures Valid() && finished
      ensures old(InStep(lock)) ==> InStep(lock)
    {
      hide Objects, Built, Seeded, Published, Quiet;
      ghost var predicted := InStep(lock);
      while !finished
        invariant Valid() && (predicted ==> InStep(lock))
        decreases MaxSteps(topology, |gpus|) - step
      {
        StepInStep(lock);
      }
    }

    lemma FinishedBuffers(init: Buffers)
      requires Valid() && finished && Square(init) && |init| == |gpus|
      requires InStep(LockStepRun(arith, topology, init))
      ensures forall i :: 0 <= i < |gpus| ==> gpus[i].buffer[..] == Outcome(arith, topology, init)[i]
    {
      forall i | 0 <= i < |gpus| ensures gpus[i].buffer[..] == Outcome(arith, topology, init)[i] {
        assert gpus[i].buffer[..] == Bufs()[i];
      }
    }

    /** Run to the end from the seeds. */
    method RunSeeded(ghost predicted: bool)
      requires Valid() && step == 0 && Bufs() == Seeds(|gpus|)
      requires predicted ==> LockStep(arith, topology, |gpus|, LockStepRun(arith, topology, Seeds(|gpus|)))
      modifies this, loops, LiveBuffers()
      ensures Valid() && finished
      ensures predicted ==>
                forall i :: 0 <= i < |gpus| ==> gpus[i].buffer[..] == Outcome(arith, topology, Seeds(|gpus|))[i]
    {
      RunToEnd(LockStepRun(arith, topology, Seeds(|gpus|)));
      if predicted {
        FinishedBuffers(Seeds(|gpus|));
      }
    }

    /** GetState at the end of a run. */
    method FinalState() returns (result: SimulationState)
      requires Valid() && finished
      ensures result.finished && result.step == MaxSteps(topology, |gpus|) && |result.gpus| == |gpus|
      ensures forall i :: 0 <= i < |gpus| ==>
                result.gpus[i].buffer[..] == gpus[i].buffer[..] && result.gpus[i].initialBuffer[..] == gpus[i].seed
    {
      result := GetState();
    }

    /** Run to the end from the seeds, then GetState. */
    method RunAndShow(ghost predicted: bool) returns (result: SimulationState)
      requires Valid() && step == 0 && Bufs() == Seeds(|gpus|)
      requires predicted ==> LockStep(arith, topology, |gpus|, LockStepRun(arith, topology, Seeds(|gpus|)))
      modifies this, loops, LiveBuffers()
      ensures result.finished && result.step == MaxSteps(topology, |gpus|) && |result.gpus| == |gpus|
      ensures forall i :: 0 <= i < |gpus| ==> result.gpus[i].initialBuffer[..] == gpus[i].seed
      ensures predicted ==>
                forall i :: 0 <= i < |gpus| ==> result.gpus[i].buffer[..] == Outcome(arith, topology, Seeds(|gpus|))[i]
    {
      RunSeeded(predicted);
      result := FinalState();
    }

    /** Stepping on does not change what a snapshot shows. */
    method RunBeside(snapshot: SimulationState, ghost bufs: Buffers, ghost lock: seq<Buffers>)
      requires Valid() && Shows(snapshot, bufs)
      modifies this, loops, LiveBuffers()
      ensures Valid() && finished && Shows(snapshot, bufs)
      ensures old(InStep(lock)) ==> InStep(lock)
    {
      RunToEnd(lock);
    }

    /** A snapshot taken at any step still shows the buffers of that step after the rest of the run. */
    method SnapshotThenRun(ghost lock: seq<Buffers>) returns (snapshot: SimulationState)
      requires Valid() && InStep(lock)
      modifies this, loops, LiveBuffers()
      ensures Valid() && finished && InStep(lock)
      ensures snapshot.step == old(step) < |lock| && Shows(snapshot, lock[snapshot.step])
    {
      snapshot := GetState();
      RunBeside(snapshot, Bufs(), lock);
    }
  }

  /** The sums of n GPUs' seeds stay within the integers a double represents exactly, or nothing is rounded. */
  ghost predicate SumsExactly(arith: Arith, n: nat) {
    arith == Exact || 6 * (n * n) + 5 * n <= Float64.LIMIT
  }

  lemma SeedOutcomes(arith: Arith, topology: Topology, n: nat)
    requires n >= 1
    ensures forall i :: 0 <= i < n ==> Outcome(arith, topology, Seeds(n))[i] == Answer(arith, topology, Seeds(n))
    ensures SumsExactly(arith, n) ==>
              OrderNeverMatters(arith, topology, Seeds(n)) && Answer(arith, topology, Seeds(n)) == Totals(Seeds(n))
  {
    forall i | 0 <= i < n ensures Outcome(arith, topology, Seeds(n))[i] == Answer(arith, topology, Seeds(n)) {
      OutcomeIsAnswer(arith, topology, Seeds(n), i);
    }
    if SumsExactly(arith, n) {
      if arith == Rounded {
        SeedsAreModerate(n);
      }
      ModerateOrderNeverMatters(arith, topology, Seeds(n));
      AnswerIsTotals(arith, topology, Seeds(n));
    }
  }

  /**
   NewSimulator, Start and stepping until finished, for every number of GPUs, either topology and either arithmetic. As
   long as the order of arrival matters in no step, as it never does in the ring, all GPUs end with the topology's sums.
   These are the exact ones while 6n^2 + 5n is at most 2^53.
   */
  method Simulate(arith: Arith, topology: Topology, numGPUs: nat) returns (result: SimulationState)
    requires numGPUs >= 1
    ensures result.finished && result.step == MaxSteps(topology, numGPUs) && |result.gpus| == numGPUs
    ensures forall i :: 0 <= i < numGPUs ==> result.gpus[i].initialBuffer[..] == SeedBuffer(numGPUs, i)
    ensures OrderNeverMatters(arith, topology, Seeds(numGPUs)) ==>
              forall i :: 0 <= i < numGPUs ==> result.gpus[i].buffer[..] == Answer(arith, topology, Seeds(numGPUs))
    ensures SumsExactly(arith, numGPUs) ==>
              forall i :: 0 <= i < numGPUs ==> result.gpus[i].buffer[..] == Totals(Seeds(numGPUs))
  {
    hide OrderNeverMatters, SumsExactly, Answer, Outcome, LockStep, Totals, MaxSteps;
    var sim := new Simulator(arith, topology, numGPUs);
    ghost var predicted := OrderNeverMatters(arith, topology, Seeds(numGPUs));
    if predicted {
      LockStepRunIsLockStep(arith, topology, Seeds(numGPUs));
    }
    SeedOutcomes(arith, topology, numGPUs);
    result := sim.RunAndShow(predicted);
  }

  function Predecessor(n: nat, i: nat): (j: nat)
    requires i < n
    ensures j == Prev(n, i) && j == (i - 1) % n
  {
    PosModIsWrap(n, i - 1);
    PosMod(i - 1, n)
  }

  /** Distinct objects, each GPU with buffers of its own. */
  predicate Separate(gpus: seq<GPU>, loops: seq<Goroutine>) {
    && |loops| == |gpus|
    && (forall i :: 0 <= i < |gpus| ==>
          gpus[i].id == i && gpus[i].buffer.Length == |gpus| && gpus[i].buffer != gpus[i].initialBuffer)
    && (forall i, j :: 0 <= i < j < |gpus| ==>
          && gpus[i] != gpus[j] && loops[i] != loops[j]
          && gpus[i].buffer != gpus[j].buffer
          && gpus[i].buffer != gpus[j].initialBuffer && gpus[i].initialBuffer != gpus[j].buffer)
  }

  method NewGPUs(n: nat) returns (gpus: seq<GPU>, loops: seq<Goroutine>)
    ensures |gpus| == n && Separate(gpus, loops) && fresh(gpus) && fresh(loops)
    ensures forall i :: 0 <= i < n ==>
              && gpus[i].parent == -1 && gpus[i].children == [] && loops[i].status == B.Waiting
              && fresh(gpus[i].buffer) && fresh(gpus[i].initialBuffer) && gpus[i].seed == SeedBuffer(n, i)
              && gpus[i].buffer[..] == gpus[i].initialBuffer[..] == gpus[i].seed
  {
    gpus, loops := [], [];
    for k := 0 to n
      invariant |gpus| == |loops| == k && fresh(gpus) && fresh(loops)
      invariant forall i :: 0 <= i < k ==>
                  && gpus[i].id == i && gpus[i].parent == -1 && gpus[i].children == [] && loops[i].status == B.Waiting
                  && fresh(gpus[i].buffer) && fresh(gpus[i].initialBuffer)
                  && gpus[i].buffer != gpus[i].initialBuffer && gpus[i].seed == SeedBuffer(n, i)
                  && gpus[i].buffer[..] == gpus[i].initialBuffer[..] == gpus[i].seed
      invariant forall i, j :: 0 <= i < j < k ==>
                  && gpus[i] != gpus[j] && loops[i] != loops[j] && gpus[i].buffer != gpus[j].buffer
                  && gpus[i].buffer != gpus[j].initialBuffer && gpus[i].initialBuffer != gpus[j].buffer
    {
      var g := new GPU(k, SeedBuffer(n, k));
      var l := new Goroutine();
      gpus, loops := gpus + [g], loops + [l];
    }
  }

  method CopyOf(a: array<real>) returns (b: array<real>)
    ensures fresh(b) && b[..] == a[..]
  {
    b := new real[a.Length](k requires 0 <= k < a.Length reads a => a[k]);
  }

  function Successor(n: nat, i: nat): (j: nat)
    requires i < n
    ensures j == Next(n, i) && j == (i + 1) % n
  {
    PosModIsWrap(n, i + 1);
    (i + 1) % n
  }
}

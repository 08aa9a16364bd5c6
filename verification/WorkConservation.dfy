/**
 Work conservation over whole runs: exactly which requests can leave a pending job that fits. A request with a negative
 count makes room for a job that has been visited before it.
 */
module WorkConservation {
  import opened Cluster
  import opened Options
  import opened Resources
  import opened Accounting
  import opened Scheduling
  import opened Lifecycle

  /** No tick, in any two orders, leaves a pending job that fits a node of its partition. */
  ghost predicate TicksConserveWork(t: Cluster) {
    forall first, second, now, id ::
      && IsOrder(t, first) && IsOrder(t, second) && id in t.jobs
      && Reconcile(t, first, second, now).jobs[id].state == Pending ==>
        Blocked(Reconcile(t, first, second, now), t.jobs[id])
  }

  /** So it is after every run in which only submissions of `a` may be negative. */
  ghost predicate AlwaysConservesWork(c: Cluster, a: Ask) {
    forall ops, t :: IsRun(c, ops, t) && OnlyNegative(ops, a) ==> TicksConserveWork(t)
  }

  lemma OrderlyTicksConserveWork(t: Cluster)
    requires forall first, now :: IsOrder(t, first) ==> Orderly(AfterCompletions(t, first, now))
    ensures TicksConserveWork(t)
  {
    hide Blocked, Orderly, Reconcile, AfterCompletions;
    forall first, second, now, id |
      && IsOrder(t, first) && IsOrder(t, second) && id in t.jobs
      && Reconcile(t, first, second, now).jobs[id].state == Pending
      ensures Blocked(Reconcile(t, first, second, now), t.jobs[id])
    {
      ReconcileJob(t, first, second, now, id);
      WorkConserving(t, first, second, now, id);
    }
  }

  // ---------- requests that only take ----------

  predicate TakingAsk(a: Ask) {
    a.cpus >= 0 && a.gpus >= 0
  }

  ghost predicate AllTake(c: Cluster) {
    forall id :: id in c.jobs ==> TakesOnly(c.jobs[id])
  }

  lemma ApplyKeepsTakers(c: Cluster, op: Op)
    requires Contiguous(c) && AllTake(c) && OpOk(c, op) && (op.SubmitOp? ==> TakingAsk(AskOf(op)))
    ensures AllTake(Apply(c, op))
  {
    var t := Apply(c, op);
    forall id | id in t.jobs ensures TakesOnly(t.jobs[id]) {
      if id in c.jobs {
        OneOperation(c, op, id);
      }
    }
  }

  lemma {:induction false} RunKeepsTakers(c: Cluster, ops: seq<Op>, t: Cluster)
    requires Contiguous(c) && AllTake(c) && IsRun(c, ops, t)
    requires forall k :: 0 <= k < |ops| && ops[k].SubmitOp? ==> TakingAsk(AskOf(ops[k]))
    ensures AllTake(t)
    decreases |ops|
  {
    if ops != [] {
      ApplyKeepsTakers(c, ops[0]);
      OperationIds(c, ops[0]);
      RunKeepsTakers(Apply(c, ops[0]), ops[1..], t);
    }
  }

  lemma TakersConserveWork(c: Cluster, a: Ask)
    requires Untouched(c) && TakingAsk(a)
    ensures AlwaysConservesWork(c, a)
  {
    forall ops, t | IsRun(c, ops, t) && OnlyNegative(ops, a) ensures TicksConserveWork(t) {
      RunKeepsTakers(c, ops, t);
      forall first, now | IsOrder(t, first) ensures Orderly(AfterCompletions(t, first, now)) {
        TakersAreOrderly(t, first, now);
      }
      OrderlyTicksConserveWork(t);
    }
  }

  lemma NeverPlacedConservesWork(c: Cluster, a: Ask)
    requires Inv(c) && NeverPlaced(c, a)
    ensures AlwaysConservesWork(c, a)
  {
    forall ops, t | IsRun(c, ops, t) && OnlyNegative(ops, a) ensures TicksConserveWork(t) {
      RunKeepsInv(c, ops, t);
      forall first, now | IsOrder(t, first) ensures Orderly(AfterCompletions(t, first, now)) {
        BalancedStaysOrderly(t, first, now);
      }
      OrderlyTicksConserveWork(t);
    }
  }

  // ---------- two jobs and a tick ----------

  const SECOND_JOB_ID := FIRST_JOB_ID + 1

  /** The job a submission creates. */
  function SubmittedJob(op: Op, id: int): (job: Job)
    requires op.SubmitOp?
    ensures job.state == Pending && job.partition == op.partition && job.duration == op.duration
    ensures job.cpus == op.cpus && job.gpus == op.gpus && job.memory == Amount(op.memory, op.memory > 0)
  {
    Job(id, op.name, Pending, op.partition, "", op.cpus, op.gpus, op.duration,
        Amount(0, false), Amount(0, false), Amount(op.now, true), Amount(op.memory, op.memory > 0))
  }

  /** The store after two submissions. */
  function TwoJobStore(c: Cluster, x: Op, y: Op): (s: Cluster)
    requires c.jobs == map[] && c.nextJobID == FIRST_JOB_ID && x.SubmitOp? && y.SubmitOp?
    ensures s.jobs ==
            map[FIRST_JOB_ID := SubmittedJob(x, FIRST_JOB_ID), SECOND_JOB_ID := SubmittedJob(y, SECOND_JOB_ID)]
    ensures s.nodes == c.nodes && s.partitions == c.partitions
  {
    Apply(Apply(c, x), y)
  }

  lemma {:induction false} TwoJobRun(c: Cluster, x: Op, y: Op)
    requires c.jobs == map[] && c.nextJobID == FIRST_JOB_ID && x.SubmitOp? && y.SubmitOp?
    ensures IsRun(c, [x] + [y], TwoJobStore(c, x, y))
  {
    RunExtends(c, [], c, x);
    assert [] + [x] == [x];
    RunExtends(c, [x], Apply(c, x), y);
  }

  lemma {:induction false} NothingToComplete(c: Cluster, order: seq<int>, now: int)
    requires (forall id :: id in order ==> id in c.jobs) && forall id :: id in c.jobs ==> c.jobs[id].state != Running
    ensures CompletePass(c, order, now) == c
  {
    if order != [] {
      NothingToComplete(c, order[..|order| - 1], now);
    }
  }

  /** A tick that visits i and then j. */
  lemma TwoJobTick(s: Cluster, i: int, j: int, now: int)
    requires s.jobs.Keys == {i, j} && i != j && forall id :: id in s.jobs ==> s.jobs[id].state != Running
    ensures IsOrder(s, [i, j])
    ensures Reconcile(s, [i, j], [i, j], now) == ScheduleOne(ScheduleOne(s, i, now), j, now)
  {
    var order := [i, j];
    TwoVisits(s, i, j, now);
    OrderedJobsExist(s, order);
    NothingToComplete(s, order, now);
  }

  // ---------- a request that makes room ----------

  ghost predicate UniformAt(c: Cluster, p: string) {
    p in c.partitions ==>
      forall x, y :: x in Split(c.partitions[p]) && y in Split(c.partitions[p]) && x in c.nodes && y in c.nodes ==>
        SameCapacity(c.nodes[x], c.nodes[y])
  }

  /** All nodes of a partition are of one kind. */
  ghost predicate Uniform(c: Cluster) {
    forall p :: p in c.partitions ==> UniformAt(c, p)
  }

  /** A request for one CPU, or one GPU, more than the node has, whichever `a` gives back. */
  function Rival(a: Ask, node: Node): Ask
    requires FirstGpu(node.gres) != -1
  {
    if a.cpus < 0 then Ask(a.partition, node.cpus + 1, 0, 0)
    else Ask(a.partition, 0, node.gres[FirstGpu(node.gres)].count + 1, 0)
  }

  lemma RivalIsNonNegative(a: Ask, name: string, node: Node)
    requires NodeOk(name, node, NOTHING) && FirstGpu(node.gres) != -1
    ensures NonNegativeAsk(Rival(a, node))
  {
    SingleGpu(node.gres);
  }

  lemma RivalDoesNotFit(a: Ask, node: Node, name: string, other: Node, job: Job)
    requires FirstGpu(node.gres) != -1 && SameCapacity(node, other) && EmptyNode(name, other)
    requires job.cpus == Rival(a, node).cpus && job.gpus == Rival(a, node).gpus
    ensures !Fits(other, job)
  {
    SameShapeFacts(node.gres, other.gres);
  }

  lemma RivalFitsBeside(a: Ask, name: string, node: Node, x: Job, y: Job)
    requires EmptyNode(name, node) && Fits(node, y) && y.cpus == a.cpus && y.gpus == a.gpus && !TakingAsk(a)
    requires x.cpus == Rival(a, node).cpus && x.gpus == Rival(a, node).gpus && !x.memory.isSet
    requires node.cpus >= 0 && node.gres[FirstGpu(node.gres)].count >= 0
    ensures Fits(Allocate(node, y), x)
  {
    AllocateEffect(node, y);
    SameShapeFacts(node.gres, Allocate(node, y).gres);
  }

  /** The node the request is placed on, on an untouched store. */
  lemma PlacedOn(c: Cluster, a: Ask, y: Job) returns (at: string)
    requires Untouched(c) && !NeverPlaced(c, a)
    requires y.partition == a.partition && y.cpus == a.cpus && y.gpus == a.gpus && y.memory == JobFor(a).memory
    ensures a.partition in c.partitions && FirstFit(c.nodes, Split(c.partitions[a.partition]), y) == Some(at)
    ensures at in c.nodes && EmptyNode(at, c.nodes[at]) && FirstGpu(c.nodes[at].gres) != -1
  {
    var name :| name in Split(c.partitions[a.partition]) && name in c.nodes && FitsEmpty(c.nodes[name], JobFor(a));
    assert EmptyNode(name, c.nodes[name]);
    EmptyNodeFits(name, c.nodes[name], y);
    at := FirstFit(c.nodes, Split(c.partitions[a.partition]), y).value;
  }

  /** Visited first, the rival is blocked; then the request starts, and leaves room for it. */
  lemma RivalLeftBehind(c: Cluster, a: Ask, x: Op, y: Op, at: string)
    requires Untouched(c) && Inv(c) && Uniform(c) && !TakingAsk(a) && a.partition in c.partitions && at in c.nodes
    requires FirstGpu(c.nodes[at].gres) != -1 && x.SubmitOp? && y.SubmitOp?
    requires AskOf(y) == a && AskOf(x) == Rival(a, c.nodes[at])
    requires FirstFit(c.nodes, Split(c.partitions[a.partition]), SubmittedJob(y, SECOND_JOB_ID)) == Some(at)
    ensures !TicksConserveWork(TwoJobStore(c, x, y))
  {
    var s, order := TwoJobStore(c, x, y), [FIRST_JOB_ID, SECOND_JOB_ID];
    var rival, job := s.jobs[FIRST_JOB_ID], s.jobs[SECOND_JOB_ID];
    assert EmptyNode(at, c.nodes[at]) && NodeOk(at, c.nodes[at], Held(c.jobs, at, c.nextJobID));
    assert UniformAt(c, a.partition);
    SingleGpu(c.nodes[at].gres);
    TwoJobTick(s, FIRST_JOB_ID, SECOND_JOB_ID, 0);
    forall name | name in Split(s.partitions[a.partition]) && name in s.nodes ensures !Fits(s.nodes[name], rival) {
      assert EmptyNode(name, c.nodes[name]);
      RivalDoesNotFit(a, c.nodes[at], name, c.nodes[name], rival);
    }
    VisitBlocked(s, FIRST_JOB_ID, 0);
    var t := Start(s, SECOND_JOB_ID, at, 0);
    assert Reconcile(s, order, order, 0) == t;
    RivalFitsBeside(a, at, c.nodes[at], rival, job);
    assert t.nodes[at] == Allocate(c.nodes[at], job) && t.jobs[FIRST_JOB_ID] == rival;
    assert !Blocked(t, rival);
  }

  lemma MakersSpoilWork(c: Cluster, a: Ask)
    requires Untouched(c) && Inv(c) && Uniform(c) && !TakingAsk(a) && !NeverPlaced(c, a)
    ensures !AlwaysConservesWork(c, a)
  {
    hide TicksConserveWork, Uniform, FitsEmpty, Fits, TwoJobStore;
    var y := SubmitAsk(a, 15, 0);
    var at := PlacedOn(c, a, SubmittedJob(y, SECOND_JOB_ID));
    var x := SubmitAsk(Rival(a, c.nodes[at]), 15, 0);
    assert NodeOk(at, c.nodes[at], Held(c.jobs, at, c.nextJobID));
    RivalIsNonNegative(a, at, c.nodes[at]);
    TwoJobRun(c, x, y);
    RivalLeftBehind(c, a, x, y, at);
    assert OnlyNegative([x] + [y], a);
  }

  /**
   From an untouched store whose partitions are uniform, over all runs whose other submissions are non-negative: every
   tick in every two orders leaves no pending job that fits, if and only if the request's CPU and GPU counts are not
   negative or no empty node of its partition would take it.
   */
  lemma ConservesWorkExactly(c: Cluster, a: Ask)
    requires Untouched(c) && Inv(c) && Uniform(c)
    ensures AlwaysConservesWork(c, a) <==> TakingAsk(a) || NeverPlaced(c, a)
  {
    if TakingAsk(a) {
      TakersConserveWork(c, a);
    } else if NeverPlaced(c, a) {
      NeverPlacedConservesWork(c, a);
    } else {
      MakersSpoilWork(c, a);
    }
  }

  // ---------- the store the simulator starts with ----------

  lemma {:induction false} TwoNames(s: string, a: string, b: string)
    requires s == a + "," + b && ',' !in a && ',' !in b
    ensures Split(s) == [a, b]
  {
    SplitAtComma(a, b);
    SplitWithoutComma(b);
  }

  lemma TwoAlike(c: Cluster, p: string, x: string, y: string)
    requires p in c.partitions && Split(c.partitions[p]) == [x, y] && x in c.nodes && y in c.nodes
    requires SameCapacity(c.nodes[x], c.nodes[y])
    ensures UniformAt(c, p)
  {
  }

  lemma NewClusterParts()
    ensures var c := NewCluster();
            && c.partitions == map["h100-partition" := "node-1,node-2", "a100-partition" := "node-3,node-4"]
            && "node-1" in c.nodes && c.nodes["node-1"] == NewNode("node-1", 64, 256000, 8)
            && "node-2" in c.nodes && c.nodes["node-2"] == NewNode("node-2", 64, 256000, 8)
            && "node-3" in c.nodes && c.nodes["node-3"] == NewNode("node-3", 32, 128000, 4)
            && "node-4" in c.nodes && c.nodes["node-4"] == NewNode("node-4", 32, 128000, 4)
  {
  }

  lemma NewClusterIsUniform()
    ensures Uniform(NewCluster())
  {
    hide NewCluster, Split, UniformAt;
    var c := NewCluster();
    NewClusterParts();
    TwoNames("node-1,node-2", "node-1", "node-2");
    TwoNames("node-3,node-4", "node-3", "node-4");
    forall p | p in c.partitions ensures UniformAt(c, p) {
      if p == "h100-partition" {
        TwoAlike(c, p, "node-1", "node-2");
      } else {
        TwoAlike(c, p, "node-3", "node-4");
      }
    }
  }

  lemma NewClusterConservesWorkExactly(a: Ask)
    ensures AlwaysConservesWork(NewCluster(), a) <==> TakingAsk(a) || NeverPlaced(NewCluster(), a)
  {
    NewClusterInv();
    NewClusterIsUntouched();
    NewClusterIsUniform();
    ConservesWorkExactly(NewCluster(), a);
  }
}

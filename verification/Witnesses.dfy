/**
 Runs of the Slurm simulator on which a property its users may expect fails. They start in any store without jobs whose
 first partition is two nodes of the larger kind, as the store does that the simulator starts with; the store is a
 parameter.
 */
module Witnesses {
  import opened Cluster
  import opened Options
  import opened Counting
  import opened Resources
  import opened Scheduling
  import opened Lifecycle
  import opened WorkConservation

  const PARTITION := "h100-partition"

  /** A store without jobs whose partition is two empty nodes of 64 CPUs, 256000 MB and 8 GPUs. */
  ghost predicate TwoBigNodes(c: Cluster, a: string, b: string) {
    && c.jobs == map[] && c.nextJobID == FIRST_JOB_ID && a != b
    && PARTITION in c.partitions && Split(c.partitions[PARTITION]) == [a, b]
    && a in c.nodes && c.nodes[a] == NewNode(a, 64, 256000, 8)
    && b in c.nodes && c.nodes[b] == NewNode(b, 64, 256000, 8)
  }

  /** The store the simulator starts with. */
  lemma NewClusterHasTwoBigNodes()
    ensures TwoBigNodes(NewCluster(), "node-1", "node-2")
  {
    NewClusterParts();
    TwoNames("node-1,node-2", "node-1", "node-2");
  }

  lemma FitsNewNode(name: string, job: Job)
    requires job.cpus <= 64 && job.gpus <= 8 && (job.memory.isSet ==> job.memory.number <= 256000)
    ensures Fits(NewNode(name, 64, 256000, 8), job)
  {
    assert NewNode(name, 64, 256000, 8).gres[0].name == "gpu";
  }

  function AskH100(cpus: int, memory: int): Ask {
    Ask(PARTITION, cpus, 0, memory)
  }

  /** The store after one submission and one tick. */
  function FirstStarted(c: Cluster, at: string, ask: Ask, duration: int, now: int): Cluster
    requires c.nextJobID == FIRST_JOB_ID && at in c.nodes && FirstGpu(c.nodes[at].gres) != -1
  {
    Start(OneJobStore(c, ask, duration, now), FIRST_JOB_ID, at, now)
  }

  lemma {:induction false} FirstStartedRun(
    c: Cluster, a: string, b: string, cpus: int, memory: int, duration: int, now: int)
    requires TwoBigNodes(c, a, b) && cpus <= 64 && memory <= 256000
    ensures FirstGpu(c.nodes[a].gres) != -1
    ensures var ask := AskH100(cpus, memory);
            IsRun(c, FirstJobOps(ask, duration, now), FirstStarted(c, a, ask, duration, now))
  {
    var ask := AskH100(cpus, memory);
    var job := OneJobStore(c, ask, duration, now).jobs[FIRST_JOB_ID];
    FitsNewNode(a, job);
    assert FirstFit(c.nodes, [a, b], job) == Some(a);
    FirstJobRun(c, ask, duration, now, a);
  }

  /** A negative CPU count leaves a node with fewer than zero CPUs in use. */
  lemma NegativeCpus(c: Cluster, a: string, b: string) returns (t: Cluster)
    requires TwoBigNodes(c, a, b)
    ensures IsRun(c, FirstJobOps(AskH100(-5, 4000), 15, 0), t) && a in t.nodes && t.nodes[a].cpusUsed == -5
  {
    FirstStartedRun(c, a, b, -5, 4000, 15, 0);
    t := FirstStarted(c, a, AskH100(-5, 4000), 15, 0);
  }

  /** A negative memory request leaves memory in use on a node where nothing runs. */
  lemma NegativeMemory(c: Cluster, a: string, b: string) returns (t: Cluster)
    requires TwoBigNodes(c, a, b)
    ensures IsRun(c, FirstJobOps(AskH100(1, -7), 15, 0) + [CancelOp(FIRST_JOB_ID, 1)], t)
    ensures a in t.nodes && t.nodes[a].memoryUsed == 7 && forall id :: id in t.jobs ==> t.jobs[id].state == Cancelled
  {
    var ops, started := FirstJobOps(AskH100(1, -7), 15, 0), FirstStarted(c, a, AskH100(1, -7), 15, 0);
    FirstStartedRun(c, a, b, 1, -7, 15, 0);
    RunExtends(c, ops, started, CancelOp(FIRST_JOB_ID, 1));
    t := Cancel(started, FIRST_JOB_ID, 1);
    var job := OneJobStore(c, AskH100(1, -7), 15, 0).jobs[FIRST_JOB_ID];
    NegativeMemoryLeaks(c.nodes[a], job, started.jobs[FIRST_JOB_ID]);
  }

  /** A negative duration leaves a job running whose end time has passed. */
  lemma EndsInThePast(c: Cluster, a: string, b: string) returns (t: Cluster)
    requires TwoBigNodes(c, a, b)
    ensures IsRun(c, FirstJobOps(AskH100(1, 4000), -10, 100), t) && FIRST_JOB_ID in t.jobs
    ensures t.jobs[FIRST_JOB_ID].state == Running && t.jobs[FIRST_JOB_ID].endTime.number == 90
  {
    FirstStartedRun(c, a, b, 1, 4000, -10, 100);
    t := FirstStarted(c, a, AskH100(1, 4000), -10, 100);
  }

  /** A completed job is cancelled. */
  lemma CompletedThenCancelled(c: Cluster, a: string, b: string) returns (s: Cluster, t: Cluster)
    requires TwoBigNodes(c, a, b)
    ensures var order := [FIRST_JOB_ID];
            var ops := FirstJobOps(AskH100(1, 4000), 15, 0) + [ReconcileOp(order, order, 15)];
            && IsRun(c, ops, s) && FIRST_JOB_ID in s.jobs && s.jobs[FIRST_JOB_ID].state == Completed
            && IsRun(c, ops + [CancelOp(FIRST_JOB_ID, 20)], t)
            && FIRST_JOB_ID in t.jobs && t.jobs[FIRST_JOB_ID].state == Cancelled
  {
    hide Fits, Allocate, Split, Release;
    var order := [FIRST_JOB_ID];
    var ops, started := FirstJobOps(AskH100(1, 4000), 15, 0), FirstStarted(c, a, AskH100(1, 4000), 15, 0);
    FirstStartedRun(c, a, b, 1, 4000, 15, 0);
    assert Members(order) == {FIRST_JOB_ID};
    s := Reconcile(started, order, order, 15);
    RunExtends(c, ops, started, ReconcileOp(order, order, 15));
    ReconcileJob(started, order, order, 15, FIRST_JOB_ID);
    t := Cancel(s, FIRST_JOB_ID, 20);
    RunExtends(c, ops + [ReconcileOp(order, order, 15)], s, CancelOp(FIRST_JOB_ID, 20));
  }

  /** A negative CPU count makes room for a job that no empty node can hold. */
  lemma RoomOnNode(name: string, x: Job, y: Job)
    requires x.gpus == y.gpus == 0 && x.cpus == 65 && y.cpus == -5 && x.memory == y.memory == Amount(4000, true)
    ensures var node := NewNode(name, 64, 256000, 8);
            && Fits(node, y) && !Fits(node, x) && FirstGpu(node.gres) != -1 && Fits(Allocate(node, y), x)
  {
    var node := NewNode(name, 64, 256000, 8);
    FitsNewNode(name, y);
    AllocateEffect(node, y);
    SameShapeFacts(node.gres, Allocate(node, y).gres);
  }

  /** Submissions of 65 CPUs, more than any node has, and of -5 CPUs. */
  function SubmitMuch(duration: int): (op: Op)
    ensures op.SubmitOp?
  {
    SubmitAsk(AskH100(65, 4000), duration, 0)
  }

  function SubmitLess(): (op: Op)
    ensures op.SubmitOp?
  {
    SubmitAsk(AskH100(-5, 4000), 15, 0)
  }

  /** The visit of the second job starts it on the first node, where the first then fits. */
  lemma RoomAfterTheVisit(c: Cluster, a: string, b: string, duration: int, now: int) returns (s: Cluster, t: Cluster)
    requires TwoBigNodes(c, a, b)
    ensures s == TwoJobStore(c, SubmitMuch(duration), SubmitLess()) && t == Start(s, SECOND_JOB_ID, a, now)
    ensures ScheduleOne(s, FIRST_JOB_ID, now) == s && ScheduleOne(s, SECOND_JOB_ID, now) == t
    ensures t.jobs[FIRST_JOB_ID] == s.jobs[FIRST_JOB_ID] && a in t.nodes && Fits(t.nodes[a], t.jobs[FIRST_JOB_ID])
  {
    s := TwoJobStore(c, SubmitMuch(duration), SubmitLess());
    var x, y := s.jobs[FIRST_JOB_ID], s.jobs[SECOND_JOB_ID];
    RoomOnNode(a, x, y);
    RoomOnNode(b, x, y);
    VisitBlocked(s, FIRST_JOB_ID, now);
    VisitTakesFirst(s, SECOND_JOB_ID, now, a);
    t := Start(s, SECOND_JOB_ID, a, now);
    assert t.nodes[a] == Allocate(s.nodes[a], y);
  }

  /** A tick leaves a pending job that fits: 65 CPUs are visited first, then -5, both on a node of 64. */
  lemma LeftBehind(c: Cluster, a: string, b: string) returns (t: Cluster)
    requires TwoBigNodes(c, a, b)
    ensures var order := [FIRST_JOB_ID, SECOND_JOB_ID];
            IsRun(c, [SubmitMuch(15)] + [SubmitLess()] + [ReconcileOp(order, order, 0)], t)
    ensures FIRST_JOB_ID in t.jobs && t.jobs[FIRST_JOB_ID].state == Pending && !Blocked(t, t.jobs[FIRST_JOB_ID])
  {
    hide Fits, Allocate, Split;
    var order := [FIRST_JOB_ID, SECOND_JOB_ID];
    var s;
    s, t := RoomAfterTheVisit(c, a, b, 15, 0);
    TwoJobRun(c, SubmitMuch(15), SubmitLess());
    TwoJobTick(s, FIRST_JOB_ID, SECOND_JOB_ID, 0);
    RunExtends(c, [SubmitMuch(15)] + [SubmitLess()], s, ReconcileOp(order, order, 0));
    assert a == [a, b][0];
  }

  /**
   A job that no node has room for before the tick is started by it, and runs with an end time that has passed: -5 CPUs
   are visited first, then 65 CPUs for -10 seconds.
   */
  lemma StartedInRoomMade(c: Cluster, a: string, b: string) returns (s: Cluster, t: Cluster)
    requires TwoBigNodes(c, a, b)
    ensures IsRun(c, [SubmitMuch(-10)] + [SubmitLess()], s) && FIRST_JOB_ID in s.jobs && StartableEndLater(s, 100)
    ensures Blocked(s, s.jobs[FIRST_JOB_ID])
    ensures var order := [SECOND_JOB_ID, FIRST_JOB_ID];
            && IsOrder(s, order) && t == Reconcile(s, order, order, 100) && t.jobs[FIRST_JOB_ID].state == Running
            && t.jobs[FIRST_JOB_ID].endTime.number == 90
  {
    hide Fits, Allocate, Split;
    var between;
    s, between := RoomAfterTheVisit(c, a, b, -10, 100);
    var x, y := s.jobs[FIRST_JOB_ID], s.jobs[SECOND_JOB_ID];
    RoomOnNode(a, x, y);
    RoomOnNode(b, x, y);
    TwoJobRun(c, SubmitMuch(-10), SubmitLess());
    TwoJobTick(s, SECOND_JOB_ID, FIRST_JOB_ID, 100);
    VisitTakesFirst(between, FIRST_JOB_ID, 100, a);
    t := Start(between, FIRST_JOB_ID, a, 100);
  }
}

/**
 Whole runs of the Slurm simulator: any sequence of submissions, cancellations and scheduler ticks. What is conserved in
 all of them, exactly which requests break that, and what becomes of each job.
 */
module Lifecycle {
  import opened Cluster
  import opened Options
  import opened Resources
  import opened Accounting
  import opened Scheduling
  import opened Counting

  datatype Op =
    | SubmitOp(name: string, partition: string, cpus: int, gpus: int, memory: int, duration: int, now: int)
    | CancelOp(id: int, now: int)
    | ReconcileOp(first: seq<int>, second: seq<int>, now: int)

  /** The orders of a tick are orders of the store's jobs; nothing else is demanded. */
  predicate OpOk(c: Cluster, op: Op) {
    op.ReconcileOp? ==> IsOrder(c, op.first) && IsOrder(c, op.second)
  }

  function Apply(c: Cluster, op: Op): Cluster
    requires OpOk(c, op)
  {
    match op
    case SubmitOp(name, partition, cpus, gpus, memory, duration, now) =>
      Submit(c, name, partition, cpus, gpus, memory, duration, now)
    case CancelOp(id, now) => Cancel(c, id, now)
    case ReconcileOp(first, second, now) => Reconcile(c, first, second, now)
  }

  predicate IsRun(c: Cluster, ops: seq<Op>, t: Cluster)
    decreases |ops|
  {
    if ops == [] then c == t
    else OpOk(c, ops[0]) && IsRun(Apply(c, ops[0]), ops[1..], t)
  }

  lemma {:induction false} RunExtends(c: Cluster, ops: seq<Op>, t: Cluster, op: Op)
    requires IsRun(c, ops, t) && OpOk(t, op)
    ensures IsRun(c, ops + [op], Apply(t, op))
    decreases |ops|
  {
    if ops == [] {
      assert ([] + [op])[1..] == [];
    } else {
      RunExtends(Apply(c, ops[0]), ops[1..], t, op);
      assert (ops + [op])[1..] == ops[1..] + [op];
    }
  }

  // ---------- requests ----------

  /** What a submission asks for. */
  datatype Ask = Ask(partition: string, cpus: int, gpus: int, memory: int)

  function AskOf(op: Op): Ask
    requires op.SubmitOp?
  {
    Ask(op.partition, op.cpus, op.gpus, op.memory)
  }

  predicate NonNegativeAsk(a: Ask) {
    a.cpus >= 0 && a.gpus >= 0 && a.memory >= 0
  }

  /** The job such a submission creates, as far as placing it goes. */
  function JobFor(a: Ask): Job {
    Job(0, "", Pending, a.partition, "", a.cpus, a.gpus, 0,
        Amount(0, false), Amount(0, false), Amount(0, true), Amount(a.memory, a.memory > 0))
  }

  /** Its partition is unknown, or no node of its partition would take it even when empty. */
  predicate NeverPlaced(c: Cluster, a: Ask) {
    Unplaceable(c.nodes, c.partitions, JobFor(a))
  }

  /** The books survive such an operation. */
  predicate HarmlessOp(c: Cluster, op: Op) {
    op.SubmitOp? ==> NonNegativeAsk(AskOf(op)) || NeverPlaced(c, AskOf(op))
  }

  // ---------- conservation ----------

  lemma ApplyKeepsCapacities(c: Cluster, op: Op)
    requires OpOk(c, op)
    ensures SameCapacities(c, Apply(c, op))
  {
    if op.ReconcileOp? {
      ReconcileKeepsCapacities(c, op.first, op.second, op.now);
    }
  }

  lemma HarmlessByCapacity(c: Cluster, t: Cluster, op: Op)
    requires SameCapacities(c, t)
    ensures HarmlessOp(c, op) <==> HarmlessOp(t, op)
  {
    if op.SubmitOp? {
      UnplaceableByCapacity(c, t, JobFor(AskOf(op)));
    }
  }

  lemma ApplyKeepsInv(c: Cluster, op: Op)
    requires Inv(c) && OpOk(c, op) && HarmlessOp(c, op)
    ensures Inv(Apply(c, op))
  {
    match op {
      case SubmitOp(name, partition, cpus, gpus, memory, duration, now) =>
        SubmitKeepsInv(c, name, partition, cpus, gpus, memory, duration, now);
      case CancelOp(id, now) => CancelKeepsInv(c, id, now);
      case ReconcileOp(first, second, now) => ReconcileKeepsInv(c, first, second, now);
    }
  }

  lemma {:induction false} RunKeepsInv(c: Cluster, ops: seq<Op>, t: Cluster)
    requires Inv(c) && IsRun(c, ops, t) && forall k :: 0 <= k < |ops| ==> HarmlessOp(c, ops[k])
    ensures Inv(t)
    decreases |ops|
  {
    if ops != [] {
      ApplyKeepsInv(c, ops[0]);
      ApplyKeepsCapacities(c, ops[0]);
      forall k | 0 <= k < |ops[1..]| ensures HarmlessOp(Apply(c, ops[0]), ops[1..][k]) {
        HarmlessByCapacity(c, Apply(c, ops[0]), ops[k + 1]);
      }
      RunKeepsInv(Apply(c, ops[0]), ops[1..], t);
    }
  }

  /**
   Resource conservation over every run: each node's counters are the sums over the jobs running on it,
   stay between zero and capacity, and its label tells whether it is idle, full or in between.
   */
  lemma {:induction false} ResourcesConserved(ops: seq<Op>, t: Cluster, name: string)
    requires IsRun(NewCluster(), ops, t) && forall k :: 0 <= k < |ops| ==> HarmlessOp(NewCluster(), ops[k])
    requires name in t.nodes
    ensures Conserved(t)
    ensures UsedOf(t.nodes[name]) == Held(t.jobs, name, t.nextJobID)
    ensures AtMost(NOTHING, UsedOf(t.nodes[name])) && AtMost(UsedOf(t.nodes[name]), CapacityOf(t.nodes[name]))
    ensures LabelTells(t.nodes[name])
  {
    NewClusterInv();
    RunKeepsInv(NewCluster(), ops, t);
    assert NodeOk(name, t.nodes[name], Held(t.jobs, name, t.nextJobID));
  }

  // ---------- exactly which requests can spoil the books ----------

  /** Every run in which only submissions of `a` may be negative ends with balanced books. */
  ghost predicate AlwaysConserves(c: Cluster, a: Ask) {
    forall ops, t :: IsRun(c, ops, t) && OnlyNegative(ops, a) ==> Conserved(t)
  }

  /** A store as NewClusterStore makes it: no jobs yet, nothing in use on any node. */
  ghost predicate Untouched(c: Cluster) {
    && c.jobs == map[] && c.nextJobID == FIRST_JOB_ID
    && forall name :: name in c.nodes ==> EmptyNode(name, c.nodes[name])
  }

  predicate EmptyNode(name: string, node: Node) {
    && node.name == name && UsedOf(node) == NOTHING && node.state == Label(node)
    && forall k :: 0 <= k < |node.gres| ==> node.gres[k].used == 0
  }

  lemma NewClusterIsUntouched()
    ensures Untouched(NewCluster())
  {
    var c := NewCluster();
    forall name | name in c.nodes ensures EmptyNode(name, c.nodes[name]) {
      NewNodeOk(name, c.nodes[name].cpus, c.nodes[name].memory, c.nodes[name].gres[0].count);
    }
  }

  predicate OnlyNegative(ops: seq<Op>, a: Ask) {
    forall k :: 0 <= k < |ops| && ops[k].SubmitOp? ==> NonNegativeAsk(AskOf(ops[k])) || AskOf(ops[k]) == a
  }

  lemma TickStartsOn(c: Cluster, id: int, at: string, now: int)
    requires c.jobs.Keys == {id} && c.jobs[id].state == Pending && c.jobs[id].partition in c.partitions
    requires FirstFit(c.nodes, Split(c.partitions[c.jobs[id].partition]), c.jobs[id]) == Some(at)
    ensures IsOrder(c, [id]) && Reconcile(c, [id], [id], now) == Start(c, id, at, now)
  {
    assert Members([id]) == {id};
    assert [id][..0] == [];
    assert CompletePass(c, [], now) == c && CompletePass(c, [id], now) == CompleteOne(c, id, now) == c;
    assert SchedulePass(c, [], now) == c && SchedulePass(c, [id], now) == ScheduleOne(c, id, now);
  }

  function SubmitAsk(a: Ask, duration: int, now: int): (op: Op)
    ensures op.SubmitOp? && AskOf(op) == a
  {
    SubmitOp("job", a.partition, a.cpus, a.gpus, a.memory, duration, now)
  }

  lemma EmptyNodeFits(name: string, node: Node, job: Job)
    requires EmptyNode(name, node)
    ensures Fits(node, job) <==> FitsEmpty(node, job)
  {
  }

  /** A store with one job, the first, just submitted. */
  function OneJobStore(c: Cluster, a: Ask, duration: int, now: int): (s: Cluster)
    requires c.nextJobID == FIRST_JOB_ID
    ensures FIRST_JOB_ID in s.jobs && s.nodes == c.nodes && s.partitions == c.partitions
  {
    Apply(c, SubmitAsk(a, duration, now))
  }

  /**
   On an untouched store, one submission and one tick start the job on the first node of its partition that takes it.
   */
  lemma FirstJobFits(c: Cluster, a: Ask, duration: int, now: int) returns (at: string)
    requires Untouched(c) && !NeverPlaced(c, a)
    ensures at in c.nodes && FirstGpu(c.nodes[at].gres) != -1 && a.partition in c.partitions
    ensures var job := OneJobStore(c, a, duration, now).jobs[FIRST_JOB_ID];
            FirstFit(c.nodes, Split(c.partitions[a.partition]), job) == Some(at)
  {
    var job := OneJobStore(c, a, duration, now).jobs[FIRST_JOB_ID];
    var name :| name in Split(c.partitions[a.partition]) && name in c.nodes && FitsEmpty(c.nodes[name], JobFor(a));
    assert EmptyNode(name, c.nodes[name]);
    EmptyNodeFits(name, c.nodes[name], job);
    at := FirstFit(c.nodes, Split(c.partitions[a.partition]), job).value;
  }

  function FirstJobOps(a: Ask, duration: int, now: int): seq<Op> {
    [SubmitAsk(a, duration, now)] + [ReconcileOp([FIRST_JOB_ID], [FIRST_JOB_ID], now)]
  }

  lemma {:induction false} FirstJobRun(c: Cluster, a: Ask, duration: int, now: int, at: string)
    requires c.jobs == map[] && c.nextJobID == FIRST_JOB_ID && a.partition in c.partitions && at in c.nodes
    requires var job := OneJobStore(c, a, duration, now).jobs[FIRST_JOB_ID];
             FirstFit(c.nodes, Split(c.partitions[a.partition]), job) == Some(at)
    ensures FirstGpu(c.nodes[at].gres) != -1
    ensures IsRun(c, FirstJobOps(a, duration, now), Start(OneJobStore(c, a, duration, now), FIRST_JOB_ID, at, now))
  {
    var s, submit := OneJobStore(c, a, duration, now), SubmitAsk(a, duration, now);
    TickStartsOn(s, FIRST_JOB_ID, at, now);
    RunExtends(c, [], c, submit);
    assert [] + [submit] == [submit];
    RunExtends(c, [submit], s, ReconcileOp([FIRST_JOB_ID], [FIRST_JOB_ID], now));
  }

  lemma UnbalancedNode(t: Cluster, at: string)
    requires at in t.nodes && !AtMost(NOTHING, UsedOf(t.nodes[at]))
    ensures !Conserved(t)
  {
    if Contiguous(t) {
      assert !NodeOk(at, t.nodes[at], Held(t.jobs, at, t.nextJobID));
    }
  }

  lemma UnbalancedIdleNode(t: Cluster, at: string)
    requires at in t.nodes && UsedOf(t.nodes[at]) != NOTHING
    requires forall id :: id in t.jobs ==> t.jobs[id].state != Running
    ensures !Conserved(t)
  {
    if Contiguous(t) {
      HeldNothing(t.jobs, at, t.nextJobID);
      assert !NodeOk(at, t.nodes[at], Held(t.jobs, at, t.nextJobID));
    }
  }

  /** A negative CPU or GPU count shows on the node as soon as the job starts. */
  lemma StartShowsNegative(s: Cluster, id: int, at: string, now: int)
    requires id in s.jobs && at in s.nodes && FirstGpu(s.nodes[at].gres) != -1 && UsedOf(s.nodes[at]) == NOTHING
    requires s.jobs[id].cpus < 0 || s.jobs[id].gpus < 0
    ensures !Conserved(Start(s, id, at, now))
  {
    AllocateEffect(s.nodes[at], s.jobs[id]);
    UnbalancedNode(Start(s, id, at, now), at);
  }

  /** A negative memory request is never charged, but it is released. */
  lemma NegativeMemoryLeaks(node: Node, job: Job, started: Job)
    requires FirstGpu(node.gres) != -1 && node.memoryUsed == 0 && job.memory.number < 0 && !job.memory.isSet
    requires started.memory == job.memory
    ensures ReleaseNode(Allocate(node, job), started).memoryUsed == -job.memory.number
  {
  }

  lemma CancelShowsNegative(s: Cluster, id: int, at: string, now: int)
    requires s.jobs.Keys == {id} && at in s.nodes && s.nodes[at].name == at
    requires FirstGpu(s.nodes[at].gres) != -1 && UsedOf(s.nodes[at]) == NOTHING
    requires s.jobs[id].memory.number < 0 && !s.jobs[id].memory.isSet
    ensures var t := Cancel(Start(s, id, at, now), id, now);
            !Conserved(t) && t.nodes[at].memoryUsed == -s.jobs[id].memory.number && t.jobs[id].state == Cancelled
  {
    var job, started := s.jobs[id], Start(s, id, at, now);
    var t := Cancel(started, id, now);
    NegativeMemoryLeaks(s.nodes[at], job, started.jobs[id]);
    assert t.nodes[at] == ReleaseNode(Allocate(s.nodes[at], job), started.jobs[id]);
    UnbalancedIdleNode(t, at);
  }

  lemma {:induction false} NotAlways(c: Cluster, a: Ask, ops: seq<Op>, t: Cluster)
    requires IsRun(c, ops, t) && OnlyNegative(ops, a) && !Conserved(t)
    ensures !AlwaysConserves(c, a)
  {
  }

  lemma NegativeCountSpoils(c: Cluster, a: Ask, at: string)
    requires Untouched(c) && (a.cpus < 0 || a.gpus < 0) && at in c.nodes && a.partition in c.partitions
    requires FirstFit(c.nodes, Split(c.partitions[a.partition]), OneJobStore(c, a, 0, 0).jobs[FIRST_JOB_ID]) == Some(at)
    ensures !AlwaysConserves(c, a)
  {
    var s := OneJobStore(c, a, 0, 0);
    FirstJobRun(c, a, 0, 0, at);
    assert EmptyNode(at, c.nodes[at]);
    StartShowsNegative(s, FIRST_JOB_ID, at, 0);
    NotAlways(c, a, FirstJobOps(a, 0, 0), Start(s, FIRST_JOB_ID, at, 0));
  }

  lemma {:induction false} FirstJobCancelledRun(c: Cluster, a: Ask, at: string)
    requires c.jobs == map[] && c.nextJobID == FIRST_JOB_ID && a.partition in c.partitions && at in c.nodes
    requires FirstFit(c.nodes, Split(c.partitions[a.partition]), OneJobStore(c, a, 0, 0).jobs[FIRST_JOB_ID]) == Some(at)
    ensures FirstGpu(c.nodes[at].gres) != -1
    ensures IsRun(c, FirstJobOps(a, 0, 0) + [CancelOp(FIRST_JOB_ID, 0)],
                  Cancel(Start(OneJobStore(c, a, 0, 0), FIRST_JOB_ID, at, 0), FIRST_JOB_ID, 0))
  {
    FirstJobRun(c, a, 0, 0, at);
    RunExtends(c, FirstJobOps(a, 0, 0), Start(OneJobStore(c, a, 0, 0), FIRST_JOB_ID, at, 0), CancelOp(FIRST_JOB_ID, 0));
  }

  lemma NegativeMemorySpoils(c: Cluster, a: Ask, at: string)
    requires Untouched(c) && a.memory < 0 && at in c.nodes && a.partition in c.partitions
    requires FirstFit(c.nodes, Split(c.partitions[a.partition]), OneJobStore(c, a, 0, 0).jobs[FIRST_JOB_ID]) == Some(at)
    ensures !AlwaysConserves(c, a)
  {
    var s := OneJobStore(c, a, 0, 0);
    FirstJobCancelledRun(c, a, at);
    assert EmptyNode(at, c.nodes[at]);
    CancelShowsNegative(s, FIRST_JOB_ID, at, 0);
    var t := Cancel(Start(s, FIRST_JOB_ID, at, 0), FIRST_JOB_ID, 0);
    NotAlways(c, a, FirstJobOps(a, 0, 0) + [CancelOp(FIRST_JOB_ID, 0)], t);
  }

  /**
   Runs from an untouched store whose other submissions are non-negative always balance, if and only if the request
   has no negative part or fits no empty node of its partition.
   */
  lemma ConservesExactly(c: Cluster, a: Ask)
    requires Untouched(c) && Inv(c)
    ensures AlwaysConserves(c, a) <==> NonNegativeAsk(a) || NeverPlaced(c, a)
  {
    if NonNegativeAsk(a) || NeverPlaced(c, a) {
      forall ops, t | IsRun(c, ops, t) && OnlyNegative(ops, a) ensures Conserved(t) {
        forall k | 0 <= k < |ops| ensures HarmlessOp(c, ops[k]) {
        }
        RunKeepsInv(c, ops, t);
      }
    } else {
      var at := FirstJobFits(c, a, 0, 0);
      if a.memory < 0 {
        NegativeMemorySpoils(c, a, at);
      } else {
        NegativeCountSpoils(c, a, at);
      }
    }
  }

  lemma NewClusterConservesExactly(a: Ask)
    ensures AlwaysConserves(NewCluster(), a) <==> NonNegativeAsk(a) || NeverPlaced(NewCluster(), a)
  {
    NewClusterInv();
    NewClusterIsUntouched();
    ConservesExactly(NewCluster(), a);
  }

  // ---------- job histories ----------

  /** What one operation may do to a job's state. */
  predicate Transition(a: JobState, b: JobState) {
    || b == a
    || (a == Pending && (b == Running || b == Failed))
    || (a == Running && b == Completed)
    || b == Cancelled
  }

  /** What any number of operations may do to it. */
  predicate Reaches(a: JobState, b: JobState) {
    || b == a || a == Pending || b == Cancelled
    || (a == Running && b == Completed)
  }

  /** A job that has left PENDING keeps its node and start time for good; nothing returns to PENDING. */
  predicate Later(a: Job, b: Job) {
    && SameRequest(a, b) && Reaches(a.state, b.state)
    && (b.state == Pending ==> b == a)
    && (a.state != Pending ==> b.nodeList == a.nodeList && b.startTime == a.startTime)
  }

  /** What one operation does to the record of a job: cancel it, complete or decide it in a tick, or leave it alone. */
  ghost predicate Recorded(c: Cluster, op: Op, id: int, a: Job, b: Job) {
    if Cancels(op, id) then CancelledNow(a, b, op.now)
    else if op.ReconcileOp? && a.state == Running then
      b == if op.now >= a.endTime.number then a.(state := Completed) else a
    else if op.ReconcileOp? && a.state == Pending then Decided(a.partition in c.partitions, a, b, op.now)
    else b == a
  }

  lemma OneOperation(c: Cluster, op: Op, id: int)
    requires Contiguous(c) && OpOk(c, op) && id in c.jobs
    ensures id in Apply(c, op).jobs && Apply(c, op).partitions == c.partitions
    ensures Recorded(c, op, id, c.jobs[id], Apply(c, op).jobs[id])
    ensures Transition(c.jobs[id].state, Apply(c, op).jobs[id].state) && Later(c.jobs[id], Apply(c, op).jobs[id])
  {
    if op.ReconcileOp? {
      ReconcileJob(c, op.first, op.second, op.now, id);
    }
  }

  lemma OperationIds(c: Cluster, op: Op)
    requires Contiguous(c) && OpOk(c, op)
    ensures Contiguous(Apply(c, op))
    ensures Apply(c, op).nextJobID == c.nextJobID + if op.SubmitOp? then 1 else 0
  {
    if op.ReconcileOp? {
      assert forall id :: id in Apply(c, op).jobs <==> id in Apply(c, op).jobs.Keys;
    }
  }

  function Submissions(ops: seq<Op>): nat {
    if ops == [] then 0 else (if ops[0].SubmitOp? then 1 else 0) + Submissions(ops[1..])
  }

  /**
   Job lifecycle over every run and from any point of it: no job is lost, ids are handed out consecutively,
   and each job moves only forward, running at most once and on one node.
   */
  lemma {:induction false} JobHistories(c: Cluster, ops: seq<Op>, t: Cluster, id: int)
    requires Contiguous(c) && IsRun(c, ops, t)
    ensures Contiguous(t) && t.nextJobID == c.nextJobID + Submissions(ops)
    ensures id in c.jobs ==> id in t.jobs && Later(c.jobs[id], t.jobs[id])
    decreases |ops|
  {
    if ops != [] {
      OperationIds(c, ops[0]);
      if id in c.jobs {
        OneOperation(c, ops[0], id);
      }
      JobHistories(Apply(c, ops[0]), ops[1..], t, id);
    }
  }

  /** The id returned by a submission is new, and is the next one. */
  lemma {:induction false} SubmittedIdIsFresh(ops: seq<Op>, t: Cluster)
    requires IsRun(NewCluster(), ops, t)
    ensures t.nextJobID == FIRST_JOB_ID + Submissions(ops) && t.nextJobID !in t.jobs
  {
    JobHistories(NewCluster(), ops, t, FIRST_JOB_ID);
  }

  // ---------- finished jobs ----------

  predicate Finished(state: JobState) {
    state == Completed || state == Failed
  }

  predicate Cancels(op: Op, id: int) {
    op.CancelOp? && op.id == id
  }

  lemma {:induction false} CancelledStays(c: Cluster, ops: seq<Op>, t: Cluster, id: int)
    requires Contiguous(c) && IsRun(c, ops, t) && id in c.jobs && c.jobs[id].state == Cancelled
    ensures id in t.jobs && t.jobs[id].state == Cancelled
  {
    JobHistories(c, ops, t, id);
  }

  lemma OneOperationOnFinished(c: Cluster, op: Op, id: int)
    requires Contiguous(c) && OpOk(c, op) && id in c.jobs && Finished(c.jobs[id].state)
    ensures id in Apply(c, op).jobs
    ensures Apply(c, op).jobs[id] == if Cancels(op, id) then Cancel(c, id, op.now).jobs[id] else c.jobs[id]
    ensures Cancels(op, id) ==> Apply(c, op).jobs[id].state == Cancelled
  {
    if op.ReconcileOp? {
      ReconcileJob(c, op.first, op.second, op.now, id);
    }
  }

  /** A completed or failed job is final exactly until it is cancelled: its record changes in a run if and only if
      the run cancels it. */
  lemma {:induction false} FinalExactlyUntilCancelled(c: Cluster, ops: seq<Op>, t: Cluster, id: int)
    requires Contiguous(c) && IsRun(c, ops, t) && id in c.jobs && Finished(c.jobs[id].state)
    ensures id in t.jobs
    ensures t.jobs[id] == c.jobs[id] <==> !exists k :: 0 <= k < |ops| && Cancels(ops[k], id)
    ensures (exists k :: 0 <= k < |ops| && Cancels(ops[k], id)) ==> t.jobs[id].state == Cancelled
    decreases |ops|
  {
    if ops != [] {
      var next := Apply(c, ops[0]);
      OperationIds(c, ops[0]);
      OneOperationOnFinished(c, ops[0], id);
      if Cancels(ops[0], id) {
        CancelledStays(next, ops[1..], t, id);
      } else {
        FinalExactlyUntilCancelled(next, ops[1..], t, id);
        assert forall k :: 0 <= k < |ops[1..]| ==> ops[1..][k] == ops[k + 1];
        if k :| 0 <= k < |ops| && Cancels(ops[k], id) {
          assert Cancels(ops[1..][k - 1], id);
        }
      }
    }
  }
}

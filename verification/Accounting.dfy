/**
 Resource conservation: in every reachable store, a node's counters are the sums over the jobs running on it. The
 invariant also says that a job whose request has a negative part can never be placed; every transition keeps it, if the
 submissions do.
 */
module Accounting {
  import opened Cluster
  import opened Resources

  /** What a job takes from a node: its request while it runs there. */
  function Charge(job: Job, node: string): Usage {
    if job.state == Running && job.nodeList == node then Request(job) else NOTHING
  }

  /** The requests of the jobs running on a node, over the job ids below hi. */
  function Held(jobs: map<int, Job>, node: string, hi: int): Usage
    requires forall id :: FIRST_JOB_ID <= id < hi ==> id in jobs
    decreases hi - FIRST_JOB_ID
  {
    if hi <= FIRST_JOB_ID then NOTHING
    else Plus(Held(jobs, node, hi - 1), Charge(jobs[hi - 1], node))
  }

  /** A sum changes by what one of its parts changes by. */
  lemma PartChanges(sum: Usage, part: Usage, was: Usage, now: Usage)
    ensures Plus(Minus(Plus(sum, now), was), part) == Minus(Plus(Plus(sum, part), now), was)
    ensures Plus(sum, now) == Minus(Plus(Plus(sum, was), now), was)
  {
  }

  lemma {:induction false} HeldUpdate(jobs: map<int, Job>, node: string, hi: int, id: int, job: Job)
    requires forall k :: FIRST_JOB_ID <= k < hi ==> k in jobs
    requires id in jobs && FIRST_JOB_ID <= id
    ensures Held(jobs[id := job], node, hi) ==
            if id < hi then Minus(Plus(Held(jobs, node, hi), Charge(job, node)), Charge(jobs[id], node))
            else Held(jobs, node, hi)
    decreases hi - FIRST_JOB_ID
  {
    hide Plus, Minus, Charge;
    if hi > FIRST_JOB_ID {
      HeldUpdate(jobs, node, hi - 1, id, job);
      PartChanges(Held(jobs, node, hi - 1), Charge(jobs[hi - 1], node), Charge(jobs[id], node), Charge(job, node));
    }
  }

  lemma {:induction false} HeldExtend(jobs: map<int, Job>, node: string, hi: int, id: int, job: Job)
    requires (forall k :: FIRST_JOB_ID <= k < hi ==> k in jobs) && id >= hi
    ensures Held(jobs[id := job], node, hi) == Held(jobs, node, hi)
    decreases hi - FIRST_JOB_ID
  {
    if hi > FIRST_JOB_ID {
      HeldExtend(jobs, node, hi - 1, id, job);
    }
  }

  /** A job that does not run adds nothing. */
  lemma {:induction false} HeldSubmit(jobs: map<int, Job>, node: string, hi: int, job: Job)
    requires (forall k :: FIRST_JOB_ID <= k < hi ==> k in jobs) && hi >= FIRST_JOB_ID && job.state != Running
    ensures Held(jobs[hi := job], node, hi + 1) == Held(jobs, node, hi)
  {
    HeldExtend(jobs, node, hi, hi, job);
  }

  lemma ChargeIsNonNegative(job: Job, node: string)
    requires job.state == Running ==> NonNegative(job)
    ensures AtMost(NOTHING, Charge(job, node))
  {
  }

  lemma PlusGrows(a: Usage, b: Usage, c: Usage)
    requires AtMost(NOTHING, a) && AtMost(NOTHING, b)
    ensures AtMost(NOTHING, Plus(a, b)) && AtMost(b, Plus(a, b)) && (AtMost(c, a) ==> AtMost(c, Plus(a, b)))
  {
  }

  /**
   When running jobs have non-negative requests, none is charged more than the total, and the total is not negative.
   */
  lemma {:induction false} HeldCovers(jobs: map<int, Job>, node: string, hi: int, id: int)
    requires forall k :: FIRST_JOB_ID <= k < hi ==> k in jobs && (jobs[k].state == Running ==> NonNegative(jobs[k]))
    ensures AtMost(NOTHING, Held(jobs, node, hi))
    ensures FIRST_JOB_ID <= id < hi ==> AtMost(Charge(jobs[id], node), Held(jobs, node, hi))
    decreases hi - FIRST_JOB_ID
  {
    if hi > FIRST_JOB_ID {
      HeldCovers(jobs, node, hi - 1, id);
      ChargeIsNonNegative(jobs[hi - 1], node);
      PlusGrows(Held(jobs, node, hi - 1), Charge(jobs[hi - 1], node),
                if FIRST_JOB_ID <= id < hi then Charge(jobs[id], node) else NOTHING);
    }
  }

  lemma {:induction false} HeldNothing(jobs: map<int, Job>, node: string, hi: int)
    requires forall k :: FIRST_JOB_ID <= k < hi ==> k in jobs && jobs[k].state != Running
    ensures Held(jobs, node, hi) == NOTHING
    decreases hi - FIRST_JOB_ID
  {
    if hi > FIRST_JOB_ID {
      HeldNothing(jobs, node, hi - 1);
    }
  }

  // ---------- what can be placed ----------

  /** No node of the job's partition would take it even when empty, or there is no such partition. */
  predicate Unplaceable(nodes: map<string, Node>, partitions: map<string, string>, job: Job) {
    job.partition in partitions ==>
      forall name :: name in Split(partitions[job.partition]) && name in nodes ==> !FitsEmpty(nodes[name], job)
  }

  lemma UnplaceableFrame(nodes: map<string, Node>, partitions: map<string, string>, job: Job, at: string, node: Node)
    requires at in nodes && SameCapacity(nodes[at], node)
    ensures Unplaceable(nodes, partitions, job) <==> Unplaceable(nodes[at := node], partitions, job)
  {
    FitsEmptyFrame(nodes[at], node, job);
  }

  // ---------- capacities never change ----------

  ghost predicate SameCapacities(c: Cluster, t: Cluster) {
    && c.nodes.Keys == t.nodes.Keys && c.partitions == t.partitions
    && forall name :: name in c.nodes ==> SameCapacity(c.nodes[name], t.nodes[name])
  }

  lemma UnplaceableByCapacity(c: Cluster, t: Cluster, job: Job)
    requires SameCapacities(c, t)
    ensures Unplaceable(c.nodes, c.partitions, job) <==> Unplaceable(t.nodes, t.partitions, job)
  {
    forall name | name in c.nodes ensures FitsEmpty(c.nodes[name], job) <==> FitsEmpty(t.nodes[name], job) {
      FitsEmptyFrame(c.nodes[name], t.nodes[name], job);
    }
  }

  lemma {:induction false} CompleteKeepsCapacities(c: Cluster, order: seq<int>, now: int)
    requires forall id :: id in order ==> id in c.jobs
    ensures SameCapacities(c, CompletePass(c, order, now))
  {
    if order != [] {
      CompleteKeepsCapacities(c, order[..|order| - 1], now);
    }
  }

  /** A visit leaves a node alone or allocates the visited job on it. */
  lemma ScheduleOneNode(c: Cluster, id: int, now: int, name: string)
    requires id in c.jobs && name in c.nodes
    ensures var t := ScheduleOne(c, id, now);
            || t.nodes[name] == c.nodes[name]
            || (Fits(c.nodes[name], c.jobs[id]) && t.nodes[name] == Allocate(c.nodes[name], c.jobs[id]))
  {
  }

  lemma {:induction false} ScheduleKeepsCapacities(c: Cluster, order: seq<int>, now: int)
    requires forall id :: id in order ==> id in c.jobs
    ensures SameCapacities(c, SchedulePass(c, order, now))
  {
    if order != [] {
      var s, last := SchedulePass(c, order[..|order| - 1], now), order[|order| - 1];
      ScheduleKeepsCapacities(c, order[..|order| - 1], now);
      forall name | name in c.nodes ensures SameCapacity(s.nodes[name], ScheduleOne(s, last, now).nodes[name]) {
        ScheduleOneNode(s, last, now, name);
      }
    }
  }

  lemma ReconcileKeepsCapacities(c: Cluster, first: seq<int>, second: seq<int>, now: int)
    requires IsOrder(c, first) && IsOrder(c, second)
    ensures SameCapacities(c, Reconcile(c, first, second, now))
  {
    OrderedJobsExist(c, first);
    OrderedJobsExist(c, second);
    CompleteKeepsCapacities(c, first, now);
    ScheduleKeepsCapacities(CompletePass(c, first, now), second, now);
  }

  // ---------- the invariant ----------

  /** A node's counters are what its jobs hold, within capacity, and its label is current. */
  predicate NodeOk(name: string, node: Node, held: Usage) {
    && node.name == name && OneGpu(node.gres)
    && UsedOf(node) == held
    && AtMost(NOTHING, held) && AtMost(held, CapacityOf(node))
    && node.state == Label(node)
  }

  /** A job whose request has a negative part can never be placed; one that runs is on a known node. */
  predicate JobOk(nodes: map<string, Node>, partitions: map<string, string>, id: int, job: Job) {
    && job.id == id && (NonNegative(job) || Unplaceable(nodes, partitions, job))
    && (job.state == Running ==>
          NonNegative(job) && job.nodeList in nodes && FirstGpu(nodes[job.nodeList].gres) != -1)
  }

  /** Job ids are exactly FIRST_JOB_ID .. nextJobID - 1. */
  ghost predicate Contiguous(c: Cluster) {
    && c.nextJobID >= FIRST_JOB_ID
    && forall id :: id in c.jobs <==> FIRST_JOB_ID <= id < c.nextJobID
  }

  /** The books balance on every node. */
  ghost predicate Conserved(c: Cluster) {
    && Contiguous(c)
    && (forall name {:trigger NodeOk(name, c.nodes[name], Held(c.jobs, name, c.nextJobID))} ::
          name in c.nodes ==> NodeOk(name, c.nodes[name], Held(c.jobs, name, c.nextJobID)))
  }

  ghost predicate Inv(c: Cluster) {
    && Conserved(c)
    && (forall id {:trigger JobOk(c.nodes, c.partitions, id, c.jobs[id])} ::
          id in c.jobs ==> JobOk(c.nodes, c.partitions, id, c.jobs[id]))
  }

  lemma NewNodeOk(name: string, cpus: int, memory: int, gpus: int)
    requires cpus >= 0 && memory >= 0 && gpus >= 0
    ensures NodeOk(name, NewNode(name, cpus, memory, gpus), NOTHING)
  {
    SingleGpu(NewNode(name, cpus, memory, gpus).gres);
  }

  lemma NewClusterInv()
    ensures Inv(NewCluster())
  {
    var c := NewCluster();
    forall name | name in c.nodes ensures NodeOk(name, c.nodes[name], Held(c.jobs, name, c.nextJobID)) {
      NewNodeOk(name, c.nodes[name].cpus, c.nodes[name].memory, c.nodes[name].gres[0].count);
    }
  }

  // ---------- what each elementary change keeps ----------

  /** What a node's jobs hold after one job record is replaced. */
  lemma {:induction false} HeldAfter(c: Cluster, node: string, id: int, job: Job)
    requires Contiguous(c) && id in c.jobs
    ensures Held(c.jobs[id := job], node, c.nextJobID) ==
            Minus(Plus(Held(c.jobs, node, c.nextJobID), Charge(job, node)), Charge(c.jobs[id], node))
    ensures Charge(job, node) == Charge(c.jobs[id], node) ==>
              Held(c.jobs[id := job], node, c.nextJobID) == Held(c.jobs, node, c.nextJobID)
  {
    HeldUpdate(c.jobs, node, c.nextJobID, id, job);
  }

  lemma JobOkFrame(nodes: map<string, Node>, partitions: map<string, string>, id: int, job: Job, at: string, node: Node)
    requires at in nodes && SameCapacity(nodes[at], node) && JobOk(nodes, partitions, id, job)
    ensures JobOk(nodes[at := node], partitions, id, job)
  {
    UnplaceableFrame(nodes, partitions, job, at, node);
    SameShapeFacts(nodes[at].gres, node.gres);
  }

  /** Replacing one job record and the node it runs on. */
  lemma InvAfter(c: Cluster, id: int, job: Job, at: string, node: Node, held: Usage)
    requires Inv(c) && id in c.jobs && at in c.nodes
    requires forall name :: name in c.nodes && name != at ==> Charge(job, name) == Charge(c.jobs[id], name)
    requires held == Minus(Plus(UsedOf(c.nodes[at]), Charge(job, at)), Charge(c.jobs[id], at)) && NodeOk(at, node, held)
    requires SameCapacity(c.nodes[at], node)
    requires JobOk(c.nodes, c.partitions, id, job)
    ensures Inv(c.(nodes := c.nodes[at := node], jobs := c.jobs[id := job]))
  {
    var t := c.(nodes := c.nodes[at := node], jobs := c.jobs[id := job]);
    forall name | name in t.nodes ensures NodeOk(name, t.nodes[name], Held(t.jobs, name, t.nextJobID)) {
      assert NodeOk(name, c.nodes[name], Held(c.jobs, name, c.nextJobID));
      HeldAfter(c, name, id, job);
    }
    forall k | k in t.jobs ensures JobOk(t.nodes, t.partitions, k, t.jobs[k]) {
      assert JobOk(c.nodes, c.partitions, k, c.jobs[k]);
      JobOkFrame(c.nodes, c.partitions, k, t.jobs[k], at, node);
    }
  }

  /** A job that holds nothing before and after changes; no node is touched. */
  lemma IdleJobChange(c: Cluster, id: int, job: Job)
    requires Inv(c) && id in c.jobs && c.jobs[id].state != Running && job.state != Running
    requires JobOk(c.nodes, c.partitions, id, job)
    ensures Inv(c.(jobs := c.jobs[id := job]))
  {
    var t := c.(jobs := c.jobs[id := job]);
    forall name | name in t.nodes ensures NodeOk(name, t.nodes[name], Held(t.jobs, name, t.nextJobID)) {
      assert NodeOk(name, c.nodes[name], Held(c.jobs, name, c.nextJobID));
      HeldAfter(c, name, id, job);
    }
    forall k | k in t.jobs ensures JobOk(t.nodes, t.partitions, k, t.jobs[k]) {
      assert JobOk(c.nodes, c.partitions, k, c.jobs[k]);
    }
  }

  lemma AllocateKeepsNode(name: string, node: Node, job: Job, held: Usage)
    requires NodeOk(name, node, held) && NonNegative(job) && Fits(node, job)
    ensures NodeOk(name, Allocate(node, job), Plus(held, Request(job))) && SameCapacity(node, Allocate(node, job))
    ensures FirstGpu(Allocate(node, job).gres) != -1
  {
    AllocateStaysHealthy(node, job);
    AllocateEffect(node, job);
    SameShapeFacts(node.gres, Allocate(node, job).gres);
  }

  /** A job record that starts running on node `at` charges that node, and no other, with the request. */
  lemma StartCharges(was: Job, job: Job, at: string, name: string, used: Usage)
    requires was.state != Running && job.state == Running && job.nodeList == at && Request(job) == Request(was)
    ensures name != at ==> Charge(job, name) == Charge(was, name)
    ensures Minus(Plus(used, Charge(job, at)), Charge(was, at)) == Plus(used, Request(was))
  {
  }

  /** Only a non-negative request ever fits a node of its own partition. */
  lemma FittingIsNonNegative(c: Cluster, id: int, at: string)
    requires Inv(c) && id in c.jobs && c.jobs[id].partition in c.partitions
    requires at in c.nodes && at in Split(c.partitions[c.jobs[id].partition]) && Fits(c.nodes[at], c.jobs[id])
    ensures NonNegative(c.jobs[id])
  {
    assert NodeOk(at, c.nodes[at], Held(c.jobs, at, c.nextJobID));
    assert JobOk(c.nodes, c.partitions, id, c.jobs[id]);
    FitsImpliesFitsEmpty(c.nodes[at], c.jobs[id]);
  }

  /** One job starts on a node that now holds its request as well. */
  lemma StartedKeepsInv(c: Cluster, id: int, job: Job, at: string, node: Node)
    requires Inv(c) && id in c.jobs && c.jobs[id].state != Running && at in c.nodes && FirstGpu(node.gres) != -1
    requires NodeOk(at, node, Plus(UsedOf(c.nodes[at]), Request(c.jobs[id]))) && SameCapacity(c.nodes[at], node)
    requires job == c.jobs[id].(state := Running, nodeList := at, startTime := job.startTime, endTime := job.endTime)
    requires NonNegative(job)
    ensures Inv(c.(nodes := c.nodes[at := node], jobs := c.jobs[id := job]))
  {
    var was, used := c.jobs[id], UsedOf(c.nodes[at]);
    assert JobOk(c.nodes, c.partitions, id, was);
    forall name | name in c.nodes && name != at ensures Charge(job, name) == Charge(was, name) {
      StartCharges(was, job, at, name, used);
    }
    StartCharges(was, job, at, at, used);
    SameShapeFacts(c.nodes[at].gres, node.gres);
    InvAfter(c, id, job, at, node, Plus(used, Request(was)));
  }

  /** A pending job starts on a node of its partition that it fits. */
  lemma StartKeepsInv(c: Cluster, id: int, at: string, now: int)
    requires Inv(c) && id in c.jobs && c.jobs[id].state == Pending && c.jobs[id].partition in c.partitions
    requires at in c.nodes && at in Split(c.partitions[c.jobs[id].partition]) && Fits(c.nodes[at], c.jobs[id])
    ensures Inv(Start(c, id, at, now))
  {
    var was, node := c.jobs[id], c.nodes[at];
    FittingIsNonNegative(c, id, at);
    assert NodeOk(at, node, Held(c.jobs, at, c.nextJobID));
    AllocateKeepsNode(at, node, was, UsedOf(node));
    StartedKeepsInv(c, id, Started(was, node.name, now), at, Allocate(node, was));
  }

  /** A running job's request is part of what its node has in use. */
  lemma RunningIsCovered(c: Cluster, id: int)
    requires Inv(c) && id in c.jobs && c.jobs[id].state == Running
    ensures c.jobs[id].nodeList in c.nodes && NonNegative(c.jobs[id])
    ensures NodeOk(c.jobs[id].nodeList, c.nodes[c.jobs[id].nodeList], UsedOf(c.nodes[c.jobs[id].nodeList]))
    ensures FirstGpu(c.nodes[c.jobs[id].nodeList].gres) != -1
    ensures AtMost(Request(c.jobs[id]), UsedOf(c.nodes[c.jobs[id].nodeList]))
  {
    var at := c.jobs[id].nodeList;
    assert JobOk(c.nodes, c.partitions, id, c.jobs[id]);
    assert NodeOk(at, c.nodes[at], Held(c.jobs, at, c.nextJobID));
    forall k | FIRST_JOB_ID <= k < c.nextJobID
      ensures k in c.jobs && (c.jobs[k].state == Running ==> NonNegative(c.jobs[k]))
    {
      assert JobOk(c.nodes, c.partitions, k, c.jobs[k]);
    }
    HeldCovers(c.jobs, at, c.nextJobID, id);
  }

  lemma ReleaseKeepsNode(name: string, node: Node, job: Job, held: Usage)
    requires NodeOk(name, node, held) && NonNegative(job) && FirstGpu(node.gres) != -1 && AtMost(Request(job), held)
    ensures NodeOk(name, ReleaseNode(node, job), Minus(held, Request(job)))
    ensures SameCapacity(node, ReleaseNode(node, job))
    ensures node.cpusUsed - job.cpus >= 0 && node.memoryUsed - job.memory.number >= 0
    ensures GpuUsed(node.gres) - job.gpus >= 0
  {
    ReleaseStaysHealthy(node, job);
    ReleaseEffect(node, job);
  }

  /** The clamps never fire: a release gives back exactly what the job held. */
  lemma ClampsNeverFire(c: Cluster, id: int)
    requires Inv(c) && id in c.jobs && c.jobs[id].state == Running
    ensures c.jobs[id].nodeList in c.nodes
    ensures var job, node := c.jobs[id], c.nodes[c.jobs[id].nodeList];
            && node.cpusUsed - job.cpus >= 0 && node.memoryUsed - job.memory.number >= 0
            && GpuUsed(node.gres) - job.gpus >= 0
            && UsedOf(ReleaseNode(node, job)) == Minus(UsedOf(node), Request(job))
  {
    RunningIsCovered(c, id);
    var at := c.jobs[id].nodeList;
    ReleaseKeepsNode(at, c.nodes[at], c.jobs[id], UsedOf(c.nodes[at]));
  }

  /** A running job stops and gives back exactly what it held. */
  lemma StopKeepsInv(c: Cluster, id: int, job: Job)
    requires Inv(c) && id in c.jobs && c.jobs[id].state == Running && job.state != Running
    requires JobOk(c.nodes, c.partitions, id, job)
    ensures Inv(c.(nodes := Release(c.nodes, c.jobs[id]), jobs := c.jobs[id := job]))
  {
    var was := c.jobs[id];
    var at := was.nodeList;
    RunningIsCovered(c, id);
    ReleaseKeepsNode(at, c.nodes[at], was, UsedOf(c.nodes[at]));
    assert Charge(job, at) == NOTHING && Charge(was, at) == Request(was);
    UsageArithmetic(UsedOf(c.nodes[at]), Request(was));
    InvAfter(c, id, job, at, ReleaseNode(c.nodes[at], was), Minus(UsedOf(c.nodes[at]), Request(was)));
  }

  // ---------- what each operation keeps ----------

  /** A submission keeps the books if its request has no negative part, or fits no empty node of its partition. */
  lemma SubmitKeepsInv(
    c: Cluster, name: string, partition: string, cpus: int, gpus: int, memory: int, duration: int, now: int)
    requires Inv(c)
    requires (cpus >= 0 && gpus >= 0 && memory >= 0) ||
             Unplaceable(c.nodes, c.partitions,
                         Submit(c, name, partition, cpus, gpus, memory, duration, now).jobs[c.nextJobID])
    ensures Inv(Submit(c, name, partition, cpus, gpus, memory, duration, now))
  {
    var t := Submit(c, name, partition, cpus, gpus, memory, duration, now);
    forall n | n in t.nodes ensures NodeOk(n, t.nodes[n], Held(t.jobs, n, t.nextJobID)) {
      assert NodeOk(n, c.nodes[n], Held(c.jobs, n, c.nextJobID));
      HeldSubmit(c.jobs, n, c.nextJobID, t.jobs[c.nextJobID]);
    }
    forall k | k in t.jobs ensures JobOk(t.nodes, t.partitions, k, t.jobs[k]) {
      if k in c.jobs {
        assert JobOk(c.nodes, c.partitions, k, c.jobs[k]);
      }
    }
  }

  lemma CancelKeepsInv(c: Cluster, id: int, now: int)
    requires Inv(c)
    ensures Inv(Cancel(c, id, now))
  {
    if id in c.jobs {
      assert JobOk(c.nodes, c.partitions, id, c.jobs[id]);
      var job := c.jobs[id].(state := Cancelled, endTime := Amount(now, true));
      if c.jobs[id].state == Running {
        StopKeepsInv(c, id, job);
      } else {
        IdleJobChange(c, id, job);
      }
    }
  }

  lemma CompleteOneKeepsInv(c: Cluster, id: int, now: int)
    requires Inv(c) && id in c.jobs
    ensures Inv(CompleteOne(c, id, now))
  {
    assert JobOk(c.nodes, c.partitions, id, c.jobs[id]);
    if Expired(c.jobs[id], now) {
      StopKeepsInv(c, id, c.jobs[id].(state := Completed));
    }
  }

  lemma ScheduleOneKeepsInv(c: Cluster, id: int, now: int)
    requires Inv(c) && id in c.jobs
    ensures Inv(ScheduleOne(c, id, now))
  {
    var job := c.jobs[id];
    if job.state == Pending {
      if job.partition !in c.partitions {
        assert JobOk(c.nodes, c.partitions, id, c.jobs[id]);
        IdleJobChange(c, id, job.(state := Failed));
      } else {
        var at := FirstFit(c.nodes, Split(c.partitions[job.partition]), job);
        if at.Some? {
          StartKeepsInv(c, id, at.value, now);
        }
      }
    }
  }

  lemma {:induction false} CompletePassKeepsInv(c: Cluster, order: seq<int>, now: int)
    requires Inv(c) && forall id :: id in order ==> id in c.jobs
    ensures Inv(CompletePass(c, order, now))
  {
    if order != [] {
      CompletePassKeepsInv(c, order[..|order| - 1], now);
      CompleteOneKeepsInv(CompletePass(c, order[..|order| - 1], now), order[|order| - 1], now);
    }
  }

  lemma {:induction false} SchedulePassKeepsInv(c: Cluster, order: seq<int>, now: int)
    requires Inv(c) && forall id :: id in order ==> id in c.jobs
    ensures Inv(SchedulePass(c, order, now))
  {
    if order != [] {
      SchedulePassKeepsInv(c, order[..|order| - 1], now);
      ScheduleOneKeepsInv(SchedulePass(c, order[..|order| - 1], now), order[|order| - 1], now);
    }
  }

  lemma ReconcileKeepsInv(c: Cluster, first: seq<int>, second: seq<int>, now: int)
    requires Inv(c) && IsOrder(c, first) && IsOrder(c, second)
    ensures Inv(Reconcile(c, first, second, now))
  {
    OrderedJobsExist(c, first);
    OrderedJobsExist(c, second);
    CompletePassKeepsInv(c, first, now);
    SchedulePassKeepsInv(CompletePass(c, first, now), second, now);
  }
}

/** store.go and scheduler.go as a program over node and job objects, a method for each transition. */
module ClusterStore {
  import opened Cluster
  import opened Options
  import opened Counting

  class SlurmNode {
    const name: string
    const cpus: int
    const memory: int
    var state: NodeState
    var cpusUsed: int
    var memoryUsed: int
    var gresList: seq<Gres>

    constructor (name: string, cpus: int, memory: int, gpus: int)
      ensures View() == NewNode(name, cpus, memory, gpus) && IsEmpty(cpus, memory, gpus)
    {
      this.name, this.cpus, this.memory := name, cpus, memory;
      state, cpusUsed, memoryUsed, gresList := Idle, 0, 0, [Gres("gpu", gpus, 0)];
    }

    /** An idle node of this size, all its GPUs in one entry. */
    ghost predicate IsEmpty(cpus: int, memory: int, gpus: int)
      reads this
    {
      && this.cpus == cpus && this.memory == memory && state == Idle && cpusUsed == 0 && memoryUsed == 0
      && |gresList| == 1 && gresList[0].name == "gpu" && gresList[0].count == gpus && gresList[0].used == 0
    }

    ghost function View(): Node
      reads this
    {
      Node(name, state, cpus, cpusUsed, memory, memoryUsed, gresList)
    }
  }

  class SlurmJob {
    const id: int
    const name: string
    const partition: string
    const cpus: int
    const gpus: int
    const duration: int
    const submitTime: Amount
    const memory: Amount
    var state: JobState
    var nodeList: string
    var startTime: Amount
    var endTime: Amount

    constructor (id: int, name: string, partition: string, cpus: int, gpus: int, memory: int, duration: int, now: int)
      ensures View() == Job(id, name, Pending, partition, "", cpus, gpus, duration,
                            Amount(0, false), Amount(0, false), Amount(now, true), Amount(memory, memory > 0))
    {
      this.id, this.name, this.partition := id, name, partition;
      this.cpus, this.gpus, this.duration := cpus, gpus, duration;
      submitTime, this.memory := Amount(now, true), Amount(memory, memory > 0);
      state, nodeList, startTime, endTime := Pending, "", Amount(0, false), Amount(0, false);
    }

    /** The job record by value, as the store's methods return it. */
    function View(): Job
      reads this
    {
      Job(id, name, state, partition, nodeList, cpus, gpus, duration, startTime, endTime, submitTime, memory)
    }

    /** The run-time fields of a job that starts now. */
    method Run(nodeName: string, now: int)
      modifies this
      ensures View() == Started(old(View()), nodeName, now)
      ensures state == Running && this.nodeList == nodeName
      ensures startTime == Amount(now, true) && endTime == Amount(Wrap64(now + duration), true)
    {
      state := Running;
      nodeList := nodeName;
      startTime := Amount(now, true);
      endTime := Amount(Wrap64(now + duration), true);
    }
  }

  // ---------- loops over one node ----------

  lemma {:induction false} FirstGpuIs(gres: seq<Gres>, k: int)
    requires -1 <= k < |gres| && (k >= 0 ==> gres[k].name == "gpu")
    requires forall j :: 0 <= j < (if k >= 0 then k else |gres|) ==> gres[j].name != "gpu"
    ensures FirstGpu(gres) == k
  {
  }

  /** Evaluate occupancy to set the node's label. */
  method RecalculateNodeState(node: SlurmNode)
    modifies node`state
    ensures node.View() == Relabelled(old(node.View()))
    ensures node.state == Idle <==> node.cpusUsed == 0 && GpuUsed(node.gresList) == 0
    ensures node.state == Allocated <==>
            && node.cpusUsed == node.cpus && GpuUsed(node.gresList) == GpuTotal(node.gresList)
            && !(node.cpusUsed == 0 && GpuUsed(node.gresList) == 0)
  {
    var gpuTotal, gpuUsed := 0, 0;
    var gres := node.gresList;
    for k := 0 to |gres|
      invariant gpuTotal == GpuTotal(gres[..k]) && gpuUsed == GpuUsed(gres[..k])
    {
      assert gres[..k + 1][..k] == gres[..k];
      if gres[k].name == "gpu" {
        gpuTotal, gpuUsed := gpuTotal + gres[k].count, gpuUsed + gres[k].used;
      }
    }
    assert gres[..|gres|] == gres;
    if gpuUsed == 0 && node.cpusUsed == 0 {
      node.state := Idle;
    } else if gpuUsed == gpuTotal && node.cpusUsed == node.cpus {
      node.state := Allocated;
    } else {
      node.state := Mixed;
    }
  }

  /** Give a job's resources back to a node, clamping each counter at zero. */
  method ReleaseOn(node: SlurmNode, job: SlurmJob)
    modifies node
    ensures node.View() == ReleaseNode(old(node.View()), job.View())
  {
    node.cpusUsed := node.cpusUsed - job.cpus;
    if node.cpusUsed < 0 {
      node.cpusUsed := 0;
    }
    node.memoryUsed := node.memoryUsed - job.memory.number;
    if node.memoryUsed < 0 {
      node.memoryUsed := 0;
    }
    for idx := 0 to |node.gresList|
      invariant node.cpusUsed == Clamp(old(node.cpusUsed) - job.cpus)
      invariant node.memoryUsed == Clamp(old(node.memoryUsed) - job.memory.number)
      invariant node.state == old(node.state) && |node.gresList| == |old(node.gresList)|
      invariant forall k :: 0 <= k < |node.gresList| ==>
                  node.gresList[k] ==
                  if k < idx then ReleaseGres(old(node.gresList), job.gpus)[k] else old(node.gresList)[k]
    {
      if node.gresList[idx].name == "gpu" {
        var g := node.gresList[idx];
        node.gresList := node.gresList[idx := g.(used := g.used - job.gpus)];
        if node.gresList[idx].used < 0 {
          node.gresList := node.gresList[idx := node.gresList[idx].(used := 0)];
        }
      }
    }
    assert node.gresList == ReleaseGres(old(node.gresList), job.gpus);
    RecalculateNodeState(node);
  }

  /** The availability checks of tryScheduleJob, and the entry the GPUs would come from. */
  method CheckNode(node: SlurmNode, job: SlurmJob) returns (fits: bool, gpuIdx: int)
    ensures fits <==> Fits(node.View(), job.View())
    ensures fits ==> gpuIdx == FirstGpu(node.gresList)
  {
    gpuIdx := -1;
    if node.cpus - node.cpusUsed < job.cpus {
      return false, -1;
    }
    if job.memory.isSet && node.memory - node.memoryUsed < job.memory.number {
      return false, -1;
    }
    var gpuAvailable := 0;
    for idx := 0 to |node.gresList|
      invariant gpuIdx == -1 && forall j :: 0 <= j < idx ==> node.gresList[j].name != "gpu"
    {
      if node.gresList[idx].name == "gpu" {
        gpuAvailable := node.gresList[idx].count - node.gresList[idx].used;
        gpuIdx := idx;
        break;
      }
    }
    FirstGpuIs(node.gresList, gpuIdx);
    fits := !(gpuIdx == -1 || gpuAvailable < job.gpus);
  }

  /** Take a job's resources from a node. */
  method AllocateOn(node: SlurmNode, job: SlurmJob, gpuIdx: int)
    requires gpuIdx == FirstGpu(node.gresList) != -1
    modifies node
    ensures node.View() == Allocate(old(node.View()), job.View())
  {
    node.cpusUsed := node.cpusUsed + job.cpus;
    if job.memory.isSet {
      node.memoryUsed := node.memoryUsed + job.memory.number;
    }
    var g := node.gresList[gpuIdx];
    node.gresList := node.gresList[gpuIdx := g.(used := g.used + job.gpus)];
    RecalculateNodeState(node);
  }

  // ---------- the store ----------

  /** What a job gives back does not depend on its state. */
  lemma ReleaseIgnoresState(nodes: map<string, Node>, job: Job, state: JobState)
    ensures Release(nodes, job.(state := state)) == Release(nodes, job)
  {
  }

  lemma StartIs(c: Cluster, id: int, name: string, now: int, node: Node, job: Job)
    requires id in c.jobs && name in c.nodes && FirstGpu(c.nodes[name].gres) != -1
    requires node == Allocate(c.nodes[name], c.jobs[id]) && job == Started(c.jobs[id], c.nodes[name].name, now)
    ensures Start(c, id, name, now) == c.(nodes := c.nodes[name := node], jobs := c.jobs[id := job])
  {
  }

  /** One more job in a pass. */
  lemma {:induction false} OneMoreCompleted(
    c: Cluster, order: seq<int>, now: int, done: Cluster, id: int, next: Cluster)
    requires id in c.jobs && forall j :: j in order ==> j in c.jobs
    requires done == CompletePass(c, order, now) && next == CompleteOne(done, id, now)
    ensures CompletePass(c, order + [id], now) == next
  {
    var both := order + [id];
    assert both[|both| - 1] == id && both[..|both| - 1] == order;
  }

  lemma {:induction false} OneMoreScheduled(
    c: Cluster, order: seq<int>, now: int, done: Cluster, id: int, next: Cluster)
    requires id in c.jobs && forall j :: j in order ==> j in c.jobs
    requires done == SchedulePass(c, order, now) && next == ScheduleOne(done, id, now)
    ensures SchedulePass(c, order + [id], now) == next
  {
    var both := order + [id];
    assert both[|both| - 1] == id && both[..|both| - 1] == order;
  }

  /** Map iteration: some key not visited yet. */
  method Pick(remaining: set<int>) returns (id: int)
    requires remaining != {}
    ensures id in remaining
  {
    ghost var some := SomeMember(remaining);
    id :| id in remaining;
  }

  /** Every key is either visited or still to come, never both. */
  ghost predicate Visited(order: seq<int>, remaining: set<int>, keys: set<int>) {
    Distinct(order) && remaining !! Members(order) && remaining + Members(order) == keys
  }

  lemma VisitedGrows(order: seq<int>, id: int, remaining: set<int>, keys: set<int>)
    requires Visited(order, remaining, keys) && id in remaining
    ensures Visited(order + [id], remaining - {id}, keys) && id in keys && forall j :: j in order ==> j in keys
  {
    assert id in order ==> id in Members(order);
    assert Members(order + [id]) == Members(order) + {id};
    forall j | j in order ensures j in keys {
      assert j in Members(order);
    }
  }

  lemma FourNodes(all: map<string, SlurmNode>, n1: SlurmNode, n2: SlurmNode, n3: SlurmNode, n4: SlurmNode)
    requires all == map["node-1" := n1, "node-2" := n2, "node-3" := n3, "node-4" := n4]
    requires n1.View() == NewNode("node-1", 64, 256000, 8) && n2.View() == NewNode("node-2", 64, 256000, 8)
    requires n3.View() == NewNode("node-3", 32, 128000, 4) && n4.View() == NewNode("node-4", 32, 128000, 4)
    ensures forall k :: k in all ==> all[k].name == k
    ensures all.Keys == NewCluster().nodes.Keys && forall k :: k in all ==> all[k].View() == NewCluster().nodes[k]
  {
  }

  /** Four nodes of two kinds. */
  method DefaultNodes() returns (all: map<string, SlurmNode>)
    ensures forall k :: k in all ==> all[k].name == k
    ensures all.Keys == NewCluster().nodes.Keys && forall k :: k in all ==> all[k].View() == NewCluster().nodes[k]
    ensures fresh(all.Values)
    ensures all.Keys == {"node-1", "node-2", "node-3", "node-4"}
    ensures all["node-1"].IsEmpty(64, 256000, 8) && all["node-2"].IsEmpty(64, 256000, 8)
    ensures all["node-3"].IsEmpty(32, 128000, 4) && all["node-4"].IsEmpty(32, 128000, 4)
  {
    hide NewCluster;
    var n1 := new SlurmNode("node-1", 64, 256000, 8);
    var n2 := new SlurmNode("node-2", 64, 256000, 8);
    var n3 := new SlurmNode("node-3", 32, 128000, 4);
    var n4 := new SlurmNode("node-4", 32, 128000, 4);
    all := map["node-1" := n1, "node-2" := n2, "node-3" := n3, "node-4" := n4];
    FourNodes(all, n1, n2, n3, n4);
  }

  class ClusterStore {
    var nodes: map<string, SlurmNode>
    var partitions: map<string, string>
    var jobs: map<int, SlurmJob>
    var nextJobID: int

    /** The whole store by value. */
    ghost var contents: Cluster

    /** Map keys are the objects' own names and ids, so distinct keys hold distinct objects. */
    ghost predicate Valid()
      reads this, nodes.Values, jobs.Values
    {
      && contents.partitions == partitions && contents.nextJobID == nextJobID
      && contents.nodes.Keys == nodes.Keys && contents.jobs.Keys == jobs.Keys
      && (forall k :: k in nodes ==> nodes[k].name == k && nodes[k].View() == contents.nodes[k])
      && (forall k :: k in jobs ==> jobs[k].id == k && jobs[k].View() == contents.jobs[k])
    }

    constructor ()
      ensures Valid() && contents == NewCluster()
      ensures fresh(nodes.Values) && jobs == map[] && nextJobID == 10001
      ensures nodes.Keys == {"node-1", "node-2", "node-3", "node-4"}
      ensures nodes["node-1"].IsEmpty(64, 256000, 8) && nodes["node-2"].IsEmpty(64, 256000, 8)
      ensures nodes["node-3"].IsEmpty(32, 128000, 4) && nodes["node-4"].IsEmpty(32, 128000, 4)
      ensures partitions == map["h100-partition" := "node-1,node-2", "a100-partition" := "node-3,node-4"]
    {
      var all := DefaultNodes();
      nodes := all;
      partitions := map["h100-partition" := "node-1,node-2", "a100-partition" := "node-3,node-4"];
      jobs := map[];
      nextJobID := FIRST_JOB_ID;
      contents := NewCluster();
    }

    /** Create a pending job under the next id. */
    method SubmitJob(name: string, partition: string, cpus: int, gpus: int, memory: int, duration: int, now: int)
      returns (r: Job)
      requires Valid()
      modifies this`contents, this`jobs, this`nextJobID
      ensures Valid() && contents == Submit(old(contents), name, partition, cpus, gpus, memory, duration, now)
      ensures nextJobID == old(nextJobID) + 1 && r.id == old(nextJobID)
      ensures SubmittedNow(r, name, partition, cpus, gpus, memory, duration, now) && r.endTime == Amount(0, false)
      ensures contents.jobs == old(contents.jobs)[r.id := r] && contents.nodes == old(contents.nodes)
      ensures fresh(jobs.Values - old(jobs.Values))
    {
      var job := new SlurmJob(nextJobID, name, partition, cpus, gpus, memory, duration, now);
      jobs := jobs[nextJobID := job];
      nextJobID := nextJobID + 1;
      r := job.View();
      contents := Submit(contents, name, partition, cpus, gpus, memory, duration, now);
    }

    /** releaseResources: find the job's node and give its resources back. */
    method ReleaseResources(job: SlurmJob)
      requires Valid()
      modifies this`contents, nodes.Values
      ensures Valid() && contents == old(contents).(nodes := Release(old(contents.nodes), job.View()))
    {
      if job.nodeList in nodes {
        var node := nodes[job.nodeList];
        ReleaseOn(node, job);
        contents := contents.(nodes := Release(contents.nodes, job.View()));
      }
    }

    /** Cancel a job whatever its state, releasing its node if it was running. */
    method CancelJob(id: int, now: int) returns (r: Option<Job>)
      requires Valid()
      modifies this`contents, nodes.Values, jobs.Values
      ensures Valid() && contents == Cancel(old(contents), id, now)
      ensures id !in jobs ==> r == None && contents == old(contents)
      ensures id in jobs ==> r == Some(contents.jobs[id]) && CancelledNow(old(contents).jobs[id], r.value, now)
      ensures forall k :: k in jobs && k != id ==> contents.jobs[k] == old(contents).jobs[k]
      ensures id in jobs && old(contents).jobs[id].state != Running ==> contents.nodes == old(contents).nodes
    {
      hide Release;
      if id !in jobs {
        return None;
      }
      var job := jobs[id];
      if job.state == Running {
        ReleaseResources(job);
      }
      r := MarkCancelled(id, now);
    }

    method MarkCancelled(id: int, now: int) returns (r: Option<Job>)
      requires Valid() && id in jobs
      modifies this`contents, jobs.Values
      ensures Valid() && r == Some(contents.jobs[id])
      ensures contents == old(contents).(jobs := old(contents.jobs)[id :=
                old(contents.jobs[id]).(state := Cancelled, endTime := Amount(now, true))])
    {
      var job := jobs[id];
      assert forall k :: k in jobs && k != id ==> jobs[k] != job;
      job.state := Cancelled;
      job.endTime := Amount(now, true);
      contents := contents.(jobs := contents.jobs[id := job.View()]);
      r := Some(job.View());
    }

    /** Set one job's state. */
    method SetState(id: int, state: JobState)
      requires Valid() && id in jobs
      modifies this`contents, jobs.Values
      ensures Valid()
      ensures contents == old(contents).(jobs := old(contents.jobs)[id := old(contents.jobs[id]).(state := state)])
    {
      var job := jobs[id];
      assert forall k :: k in jobs && k != id ==> jobs[k] != job;
      job.state := state;
      contents := contents.(jobs := contents.jobs[id := job.View()]);
    }

    /** The body of reconcileJobs' first loop. */
    method CompleteIfExpired(id: int, now: int)
      requires Valid() && id in jobs
      modifies this`contents, nodes.Values, jobs.Values
      ensures Valid() && contents == CompleteOne(old(contents), id, now)
    {
      hide Release;
      var job := jobs[id];
      if job.state == Running && now >= job.endTime.number {
        SetState(id, Completed);
        ReleaseIgnoresState(contents.nodes, old(job.View()), Completed);
        ReleaseResources(job);
      }
    }

    /** tryScheduleJob: first fit over the partition's node list. */
    method TryScheduleJob(id: int, now: int)
      requires Valid() && id in jobs
      modifies this`contents, nodes.Values, jobs.Values
      ensures Valid() && contents == TrySchedule(old(contents), id, now)
    {
      var job := jobs[id];
      if job.partition !in partitions {
        SetState(id, Failed);
        return;
      }
      var nodeName, gpuIdx := FindNode(job, Split(partitions[job.partition]));
      if nodeName.Some? {
        StartOn(id, nodeName.value, gpuIdx, now);
      }
    }

    /** The walk over the partition's node list. */
    method FindNode(job: SlurmJob, nodesInPart: seq<string>) returns (nodeName: Option<string>, gpuIdx: int)
      requires Valid()
      ensures nodeName == FirstFit(contents.nodes, nodesInPart, job.View())
      ensures nodeName.Some? ==> gpuIdx == FirstGpu(contents.nodes[nodeName.value].gres)
    {
      for k := 0 to |nodesInPart|
        invariant FirstFit(contents.nodes, nodesInPart, job.View()) ==
                  FirstFit(contents.nodes, nodesInPart[k..], job.View())
      {
        if nodesInPart[k] in nodes {
          var fits;
          fits, gpuIdx := CheckNode(nodes[nodesInPart[k]], job);
          if fits {
            return Some(nodesInPart[k]), gpuIdx;
          }
        }
      }
      return None, -1;
    }

    /** Allocate on the chosen node and set the job's run-time fields. */
    method StartOn(id: int, nodeName: string, gpuIdx: int, now: int)
      requires Valid() && id in jobs && nodeName in nodes && gpuIdx == FirstGpu(contents.nodes[nodeName].gres) != -1
      modifies this`contents, nodes.Values, jobs.Values
      ensures Valid() && contents == Start(old(contents), id, nodeName, now)
      ensures old(contents).jobs[id].state == Pending ==> StartedNow(old(contents).jobs[id], contents.jobs[id], now)
      ensures contents.jobs[id].nodeList == nodeName
    {
      ghost var c := contents;
      var name := nodes[nodeName].name;
      ghost var node := TakeResources(id, nodeName, gpuIdx);
      ghost var job := MarkRunning(id, name, now);
      StartIs(c, id, nodeName, now, node, job);
    }

    /** Take a job's resources from the named node. */
    method TakeResources(id: int, nodeName: string, gpuIdx: int) returns (ghost node: Node)
      requires Valid() && id in jobs && nodeName in nodes && gpuIdx == FirstGpu(contents.nodes[nodeName].gres) != -1
      modifies this`contents, nodes.Values
      ensures Valid() && node == Allocate(old(contents).nodes[nodeName], old(contents).jobs[id])
      ensures contents == old(contents).(nodes := old(contents).nodes[nodeName := node])
    {
      AllocateOn(nodes[nodeName], jobs[id], gpuIdx);
      node := nodes[nodeName].View();
      contents := contents.(nodes := contents.nodes[nodeName := node]);
    }

    /** Record where and until when a job runs. */
    method MarkRunning(id: int, nodeName: string, now: int) returns (ghost marked: Job)
      requires Valid() && id in jobs
      modifies this`contents, jobs.Values
      ensures Valid() && marked == Started(old(contents).jobs[id], nodeName, now)
      ensures contents == old(contents).(jobs := old(contents).jobs[id := marked])
    {
      var job := jobs[id];
      assert forall k :: k in jobs && k != id ==> jobs[k] != job;
      job.Run(nodeName, now);
      marked := job.View();
      contents := contents.(jobs := contents.jobs[id := marked]);
    }

    /** One scheduler tick. Each loop takes the jobs in whatever order the map yields them. */
    method ReconcileJobs(now: int) returns (ghost first: seq<int>, ghost second: seq<int>)
      requires Valid()
      modifies this`contents, nodes.Values, jobs.Values
      ensures Valid() && IsOrder(old(contents), first) && IsOrder(old(contents), second)
      ensures contents == Reconcile(old(contents), first, second, now)
    {
      first := CompleteExpired(now);
      second := SchedulePending(now);
    }

    method CompleteExpired(now: int) returns (ghost order: seq<int>)
      requires Valid()
      modifies this`contents, nodes.Values, jobs.Values
      ensures Valid() && IsOrder(old(contents), order) && forall id :: id in order ==> id in old(contents).jobs
      ensures contents == CompletePass(old(contents), order, now)
    {
      ghost var before := contents;
      var remaining := jobs.Keys;
      order := [];
      while remaining != {}
        invariant Valid() && Visited(order, remaining, before.jobs.Keys) && jobs.Keys == before.jobs.Keys
        invariant forall id :: id in order ==> id in before.jobs
        invariant contents == CompletePass(before, order, now)
      {
        var id := Pick(remaining);
        VisitedGrows(order, id, remaining, before.jobs.Keys);
        ghost var done := contents;
        CompleteIfExpired(id, now);
        OneMoreCompleted(before, order, now, done, id, contents);
        remaining, order := remaining - {id}, order + [id];
      }
    }

    method SchedulePending(now: int) returns (ghost order: seq<int>)
      requires Valid()
      modifies this`contents, nodes.Values, jobs.Values
      ensures Valid() && IsOrder(old(contents), order) && forall id :: id in order ==> id in old(contents).jobs
      ensures contents == SchedulePass(old(contents), order, now)
    {
      ghost var before := contents;
      var remaining := jobs.Keys;
      order := [];
      while remaining != {}
        invariant Valid() && Visited(order, remaining, before.jobs.Keys) && jobs.Keys == before.jobs.Keys
        invariant forall id :: id in order ==> id in before.jobs
        invariant contents == SchedulePass(before, order, now)
      {
        var id := Pick(remaining);
        VisitedGrows(order, id, remaining, before.jobs.Keys);
        ghost var done := contents;
        ScheduleIfPending(id, now);
        OneMoreScheduled(before, order, now, done, id, contents);
        remaining, order := remaining - {id}, order + [id];
      }
    }

    /** The body of reconcileJobs' second loop. */
    method ScheduleIfPending(id: int, now: int)
      requires Valid() && id in jobs
      modifies this`contents, nodes.Values, jobs.Values
      ensures Valid() && contents == ScheduleOne(old(contents), id, now)
    {
      if jobs[id].state == Pending {
        TryScheduleJob(id, now);
      }
    }
  }
}

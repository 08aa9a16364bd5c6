/** The Slurm simulator's store as a value, and its transitions: submit, cancel, and the two passes of reconcileJobs. */
module Cluster {
  import opened Counting
  import opened Options

  datatype JobState = Pending | Running | Completed | Failed | Cancelled

  datatype NodeState = Idle | Mixed | Allocated

  datatype Gres = Gres(name: string, count: int, used: int)

  datatype Node = Node(
    name: string, state: NodeState, cpus: int, cpusUsed: int, memory: int, memoryUsed: int, gres: seq<Gres>)

  /** A number that may be absent: TimeObject and Value64Object. */
  datatype Amount = Amount(number: int, isSet: bool)

  datatype Job = Job(
    id: int, name: string, state: JobState, partition: string, nodeList: string,
    cpus: int, gpus: int, duration: int, startTime: Amount, endTime: Amount, submitTime: Amount, memory: Amount)

  /** partitions maps a partition to its comma-separated node list. */
  datatype Cluster = Cluster(
    nodes: map<string, Node>, partitions: map<string, string>, jobs: map<int, Job>, nextJobID: int)

  const FIRST_JOB_ID := 10001

  // ---------- helpers of the source ----------

  /** strings.Split(s, ","). */
  function Split(s: string): (parts: seq<string>)
    ensures |parts| >= 1
  {
    if s == "" then [""]
    else
      var rest := Split(s[1..]);
      if s[0] == ',' then [""] + rest else [[s[0]] + rest[0]] + rest[1..]
  }

  function Join(parts: seq<string>): string
    requires |parts| >= 1
  {
    if |parts| == 1 then parts[0] else parts[0] + "," + Join(parts[1..])
  }

  lemma {:induction false} JoinAfterEmpty(rest: seq<string>)
    requires |rest| >= 1
    ensures Join([""] + rest) == "," + Join(rest)
  {
    assert ([""] + rest)[1..] == rest;
  }

  lemma {:induction false} JoinLonger(ch: char, rest: seq<string>)
    requires |rest| >= 1
    ensures Join([[ch] + rest[0]] + rest[1..]) == [ch] + Join(rest)
  {
    assert ([[ch] + rest[0]] + rest[1..])[1..] == rest[1..];
  }

  /** Splitting loses nothing and leaves no comma in any part. */
  lemma {:induction false} SplitRoundTrip(s: string)
    ensures Join(Split(s)) == s
    ensures forall k :: 0 <= k < |Split(s)| ==> ',' !in Split(s)[k]
  {
    hide Join;
    if s == "" {
      JoinOne("");
    } else {
      SplitRoundTrip(s[1..]);
      JoinAfterEmpty(Split(s[1..]));
      JoinLonger(s[0], Split(s[1..]));
      assert s == [s[0]] + s[1..];
    }
  }

  lemma {:induction false} JoinOne(part: string)
    ensures Join([part]) == part
  {
  }

  lemma {:induction false} SplitWithoutComma(s: string)
    requires ',' !in s
    ensures Split(s) == [s]
  {
    if s != "" {
      SplitWithoutComma(s[1..]);
      assert s == [s[0]] + s[1..];
    }
  }

  lemma {:induction false} SplitAtComma(s: string, rest: string)
    requires ',' !in s
    ensures Split(s + "," + rest) == [s] + Split(rest)
  {
    if s == "" {
      assert ("" + "," + rest)[1..] == rest;
    } else {
      SplitAtComma(s[1..], rest);
      assert (s + "," + rest)[1..] == s[1..] + "," + rest;
      assert s == [s[0]] + s[1..];
    }
  }

  /** int64 addition wraps around. */
  function Wrap64(x: int): (r: int)
    ensures -0x8000_0000_0000_0000 <= r < 0x8000_0000_0000_0000 && (x - r) % 0x1_0000_0000_0000_0000 == 0
    ensures -0x8000_0000_0000_0000 <= x < 0x8000_0000_0000_0000 ==> r == x
  {
    (x + 0x8000_0000_0000_0000) % 0x1_0000_0000_0000_0000 - 0x8000_0000_0000_0000
  }

  function Clamp(x: int): (r: int)
    ensures r >= 0 && r >= x && (r == 0 || r == x)
  {
    if x < 0 then 0 else x
  }

  /** The index of the first entry named "gpu", or -1. */
  function FirstGpu(gres: seq<Gres>): (k: int)
    ensures -1 <= k < |gres|
    ensures k >= 0 ==> gres[k].name == "gpu"
    ensures forall j :: 0 <= j < (if k >= 0 then k else |gres|) ==> gres[j].name != "gpu"
  {
    if gres == [] then -1
    else
      var k := FirstGpu(gres[..|gres| - 1]);
      if k >= 0 then k else if gres[|gres| - 1].name == "gpu" then |gres| - 1 else -1
  }

  function GpuUsed(gres: seq<Gres>): int {
    if gres == [] then 0
    else GpuUsed(gres[..|gres| - 1]) + if gres[|gres| - 1].name == "gpu" then gres[|gres| - 1].used else 0
  }

  function GpuTotal(gres: seq<Gres>): int {
    if gres == [] then 0
    else GpuTotal(gres[..|gres| - 1]) + if gres[|gres| - 1].name == "gpu" then gres[|gres| - 1].count else 0
  }

  /** recalculateNodeState: the label of a node, from its usage. */
  function Label(node: Node): NodeState {
    if GpuUsed(node.gres) == 0 && node.cpusUsed == 0 then Idle
    else if GpuUsed(node.gres) == GpuTotal(node.gres) && node.cpusUsed == node.cpus then Allocated
    else Mixed
  }

  /** The label tells idle nodes, full nodes and the rest apart. Memory in use does not show. */
  predicate LabelTells(node: Node) {
    var idle := node.cpusUsed == 0 && GpuUsed(node.gres) == 0;
    var full := node.cpusUsed == node.cpus && GpuUsed(node.gres) == GpuTotal(node.gres);
    && (node.state == Idle <==> idle)
    && (node.state == Allocated <==> full && !idle)
    && (node.state == Mixed <==> !full && !idle)
  }

  function Relabelled(node: Node): Node {
    node.(state := Label(node))
  }

  /** The checks of tryScheduleJob on one node. */
  predicate Fits(node: Node, job: Job) {
    var k := FirstGpu(node.gres);
    && node.cpus - node.cpusUsed >= job.cpus
    && (job.memory.isSet ==> node.memory - node.memoryUsed >= job.memory.number)
    && k != -1 && node.gres[k].count - node.gres[k].used >= job.gpus
  }

  function MemoryCharge(job: Job): int {
    if job.memory.isSet then job.memory.number else 0
  }

  /** Allocation on a node: the first "gpu" entry takes the GPUs. */
  function Allocate(node: Node, job: Job): Node
    requires FirstGpu(node.gres) != -1
  {
    var k := FirstGpu(node.gres);
    Relabelled(node.(
      cpusUsed := node.cpusUsed + job.cpus,
      memoryUsed := node.memoryUsed + MemoryCharge(job),
      gres := node.gres[k := node.gres[k].(used := node.gres[k].used + job.gpus)]))
  }

  /** Every "gpu" entry gives GPUs back, each clamped at zero. */
  function ReleaseGres(gres: seq<Gres>, gpus: int): (res: seq<Gres>)
    ensures |res| == |gres|
    ensures forall k :: 0 <= k < |gres| ==>
              res[k] == if gres[k].name == "gpu" then gres[k].(used := Clamp(gres[k].used - gpus)) else gres[k]
  {
    seq(|gres|, k requires 0 <= k < |gres| =>
      if gres[k].name == "gpu" then gres[k].(used := Clamp(gres[k].used - gpus)) else gres[k])
  }

  /** releaseResources on a node. The memory request is subtracted whether or not it was set. */
  function ReleaseNode(node: Node, job: Job): Node {
    Relabelled(node.(
      cpusUsed := Clamp(node.cpusUsed - job.cpus),
      memoryUsed := Clamp(node.memoryUsed - job.memory.number),
      gres := ReleaseGres(node.gres, job.gpus)))
  }

  function Release(nodes: map<string, Node>, job: Job): map<string, Node> {
    if job.nodeList in nodes then nodes[job.nodeList := ReleaseNode(nodes[job.nodeList], job)] else nodes
  }

  /** First fit: the first listed node that exists and passes every check. */
  function FirstFit(nodes: map<string, Node>, names: seq<string>, job: Job): (r: Option<string>)
    ensures r.Some? ==> r.value in nodes && r.value in names && Fits(nodes[r.value], job)
    ensures r.None? ==> forall name :: name in names && name in nodes ==> !Fits(nodes[name], job)
  {
    if names == [] then None
    else if names[0] in nodes && Fits(nodes[names[0]], job) then Some(names[0])
    else FirstFit(nodes, names[1..], job)
  }

  // ---------- what becomes of one job's record ----------

  /** The request of a job never changes. */
  predicate SameRequest(a: Job, b: Job) {
    && b.id == a.id && b.name == a.name && b.partition == a.partition && b.cpus == a.cpus && b.gpus == a.gpus
    && b.duration == a.duration && b.memory == a.memory && b.submitTime == a.submitTime
  }

  /** The pending job a has been started as b, to end when its duration has passed. */
  predicate StartedNow(a: Job, b: Job, now: int) {
    && SameRequest(a, b) && a.state == Pending && b.state == Running
    && b.startTime == Amount(now, true) && b.endTime == Amount(Wrap64(now + a.duration), true)
  }

  /** The job a, in whatever state, has been cancelled: it ends now. The record keeps where and since when it ran. */
  predicate CancelledNow(a: Job, b: Job, now: int) {
    && SameRequest(a, b) && b.state == Cancelled && b.endTime == Amount(now, true)
    && b.nodeList == a.nodeList && b.startTime == a.startTime
  }

  /** A pending job that has never been started, submitted now with this request. */
  predicate SubmittedNow(
    b: Job, name: string, partition: string, cpus: int, gpus: int, memory: int, duration: int, now: int)
  {
    && b.state == Pending && b.name == name && b.partition == partition && b.submitTime == Amount(now, true)
    && b.cpus == cpus && b.gpus == gpus && b.duration == duration && NeverStarted(b)
    && b.memory.number == memory && (b.memory.isSet <==> memory > 0)
  }

  predicate NeverStarted(job: Job) {
    job.nodeList == "" && job.startTime == Amount(0, false)
  }

  // ---------- transitions ----------

  /** SubmitJob. Nothing rejects negative requests. */
  function Submit(
    c: Cluster, name: string, partition: string, cpus: int, gpus: int, memory: int, duration: int, now: int): Cluster
  {
    var job := Job(c.nextJobID, name, Pending, partition, "", cpus, gpus, duration,
                   Amount(0, false), Amount(0, false), Amount(now, true), Amount(memory, memory > 0));
    c.(jobs := c.jobs[c.nextJobID := job], nextJobID := c.nextJobID + 1)
  }

  /** CancelJob on an existing job, whatever its state. */
  function Cancel(c: Cluster, id: int, now: int): Cluster {
    if id !in c.jobs then c
    else
      var job := c.jobs[id];
      c.(nodes := if job.state == Running then Release(c.nodes, job) else c.nodes,
         jobs := c.jobs[id := job.(state := Cancelled, endTime := Amount(now, true))])
  }

  predicate Expired(job: Job, now: int) {
    job.state == Running && now >= job.endTime.number
  }

  function CompleteOne(c: Cluster, id: int, now: int): Cluster
    requires id in c.jobs
  {
    var job := c.jobs[id];
    if Expired(job, now) then
      c.(nodes := Release(c.nodes, job), jobs := c.jobs[id := job.(state := Completed)])
    else c
  }

  function Start(c: Cluster, id: int, node: string, now: int): Cluster
    requires id in c.jobs && node in c.nodes && FirstGpu(c.nodes[node].gres) != -1
  {
    var job := c.jobs[id];
    c.(nodes := c.nodes[node := Allocate(c.nodes[node], job)],
       jobs := c.jobs[id := Started(job, c.nodes[node].name, now)])
  }

  function Started(job: Job, nodeName: string, now: int): Job {
    job.(state := Running, nodeList := nodeName,
         startTime := Amount(now, true), endTime := Amount(Wrap64(now + job.duration), true))
  }

  /** tryScheduleJob. */
  function TrySchedule(c: Cluster, id: int, now: int): Cluster
    requires id in c.jobs
  {
    var job := c.jobs[id];
    if job.partition !in c.partitions then c.(jobs := c.jobs[id := job.(state := Failed)])
    else
      match FirstFit(c.nodes, Split(c.partitions[job.partition]), job)
      case None => c
      case Some(node) => Start(c, id, node, now)
  }

  function ScheduleOne(c: Cluster, id: int, now: int): Cluster
    requires id in c.jobs
  {
    if c.jobs[id].state == Pending then TrySchedule(c, id, now) else c
  }

  /** The first pass of reconcileJobs, visiting the jobs in the given order. */
  function CompletePass(c: Cluster, order: seq<int>, now: int): (r: Cluster)
    requires forall id :: id in order ==> id in c.jobs
    ensures r.jobs.Keys == c.jobs.Keys && r.nodes.Keys == c.nodes.Keys
    ensures r.partitions == c.partitions && r.nextJobID == c.nextJobID
  {
    if order == [] then c
    else CompleteOne(CompletePass(c, order[..|order| - 1], now), order[|order| - 1], now)
  }

  /** The second pass of reconcileJobs, visiting the jobs in the given order. */
  function SchedulePass(c: Cluster, order: seq<int>, now: int): (r: Cluster)
    requires forall id :: id in order ==> id in c.jobs
    ensures r.jobs.Keys == c.jobs.Keys && r.nodes.Keys == c.nodes.Keys
    ensures r.partitions == c.partitions && r.nextJobID == c.nextJobID
  {
    if order == [] then c
    else ScheduleOne(SchedulePass(c, order[..|order| - 1], now), order[|order| - 1], now)
  }

  /** A map iteration visits every job once, in some order. */
  predicate IsOrder(c: Cluster, order: seq<int>) {
    Distinct(order) && Members(order) == c.jobs.Keys
  }

  lemma OrderedJobsExist(c: Cluster, order: seq<int>)
    requires IsOrder(c, order)
    ensures forall id :: id in order ==> id in c.jobs
  {
    forall id | id in order ensures id in c.jobs {
      assert id in Members(order);
    }
  }

  function Reconcile(c: Cluster, first: seq<int>, second: seq<int>, now: int): (r: Cluster)
    requires IsOrder(c, first) && IsOrder(c, second)
    ensures r.jobs.Keys == c.jobs.Keys && r.nodes.Keys == c.nodes.Keys
    ensures r.partitions == c.partitions && r.nextJobID == c.nextJobID
  {
    OrderedJobsExist(c, first);
    OrderedJobsExist(c, second);
    SchedulePass(CompletePass(c, first, now), second, now)
  }

  /** NewClusterStore. */
  function NewCluster(): Cluster {
    Cluster(
      map["node-1" := NewNode("node-1", 64, 256000, 8), "node-2" := NewNode("node-2", 64, 256000, 8),
          "node-3" := NewNode("node-3", 32, 128000, 4), "node-4" := NewNode("node-4", 32, 128000, 4)],
      map["h100-partition" := "node-1,node-2", "a100-partition" := "node-3,node-4"],
      map[], FIRST_JOB_ID)
  }

  function NewNode(name: string, cpus: int, memory: int, gpus: int): Node {
    Node(name, Idle, cpus, 0, memory, 0, [Gres("gpu", gpus, 0)])
  }
}

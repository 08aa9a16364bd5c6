/** What allocation and release do to the counters of one node. */
module Resources {
  import opened Cluster

  datatype Usage = Usage(cpus: int, memory: int, gpus: int)

  function Plus(a: Usage, b: Usage): Usage { Usage(a.cpus + b.cpus, a.memory + b.memory, a.gpus + b.gpus) }

  function Minus(a: Usage, b: Usage): Usage { Usage(a.cpus - b.cpus, a.memory - b.memory, a.gpus - b.gpus) }

  predicate AtMost(a: Usage, b: Usage) { a.cpus <= b.cpus && a.memory <= b.memory && a.gpus <= b.gpus }

  const NOTHING := Usage(0, 0, 0)

  lemma UsageArithmetic(a: Usage, b: Usage)
    ensures Minus(Plus(a, b), NOTHING) == Plus(a, b) && Minus(Plus(a, NOTHING), b) == Minus(a, b)
  {
  }

  function Request(job: Job): Usage { Usage(job.cpus, MemoryCharge(job), job.gpus) }

  function UsedOf(node: Node): Usage { Usage(node.cpusUsed, node.memoryUsed, GpuUsed(node.gres)) }

  function CapacityOf(node: Node): Usage { Usage(node.cpus, node.memory, GpuTotal(node.gres)) }

  // ---------- "gpu" entries ----------

  /** At most one entry named "gpu". */
  predicate OneGpu(gres: seq<Gres>) {
    forall j, k :: 0 <= j < k < |gres| ==> !(gres[j].name == "gpu" && gres[k].name == "gpu")
  }

  lemma {:induction false} SingleGpu(gres: seq<Gres>)
    requires OneGpu(gres)
    ensures var k := FirstGpu(gres);
            && GpuUsed(gres) == (if k == -1 then 0 else gres[k].used)
            && GpuTotal(gres) == (if k == -1 then 0 else gres[k].count)
  {
    if gres != [] {
      SingleGpu(gres[..|gres| - 1]);
    }
  }

  /** The label counts all the entries of a list, wherever it is cut. */
  lemma {:induction false} GpuSums(a: seq<Gres>, b: seq<Gres>)
    ensures GpuUsed(a + b) == GpuUsed(a) + GpuUsed(b) && GpuTotal(a + b) == GpuTotal(a) + GpuTotal(b)
    ensures |b| == 1 ==>
              && GpuUsed(b) == (if b[0].name == "gpu" then b[0].used else 0)
              && GpuTotal(b) == (if b[0].name == "gpu" then b[0].count else 0)
  {
    if b == [] {
      assert a + b == a;
    } else {
      var last := |b| - 1;
      assert (a + b)[..|a + b| - 1] == a + b[..last];
      GpuSums(a, b[..last]);
    }
  }

  /** Placing a job looks at the first "gpu" entry alone, and takes its GPUs from there. */
  lemma {:induction false} FirstGpuEntry(node: Node, job: Job, k: nat)
    requires k < |node.gres| && node.gres[k].name == "gpu" && forall j :: 0 <= j < k ==> node.gres[j].name != "gpu"
    ensures Fits(node, job) <==>
              && node.cpus - node.cpusUsed >= job.cpus && node.gres[k].count - node.gres[k].used >= job.gpus
              && (job.memory.isSet ==> node.memory - node.memoryUsed >= job.memory.number)
    ensures FirstGpu(node.gres) != -1 && |Allocate(node, job).gres| == |node.gres|
    ensures Allocate(node, job).gres[k] == node.gres[k].(used := node.gres[k].used + job.gpus)
    ensures forall j :: 0 <= j < |node.gres| && j != k ==> Allocate(node, job).gres[j] == node.gres[j]
  {
  }

  /** Changing only `used` fields changes neither the names nor the counts. */
  predicate SameShape(a: seq<Gres>, b: seq<Gres>) {
    |a| == |b| && forall k :: 0 <= k < |a| ==> a[k].name == b[k].name && a[k].count == b[k].count
  }

  lemma {:induction false} SameShapeFacts(a: seq<Gres>, b: seq<Gres>)
    requires SameShape(a, b)
    ensures FirstGpu(a) == FirstGpu(b) && GpuTotal(a) == GpuTotal(b) && (OneGpu(a) <==> OneGpu(b))
  {
    assert forall k :: 0 <= k < |a| ==> a[k].name == b[k].name && a[k].count == b[k].count;
    if a != [] {
      SameShapeFacts(a[..|a| - 1], b[..|b| - 1]);
    }
  }

  /** Charging one "gpu" entry raises the sum over all of them by the charge. */
  lemma {:induction false} GpuUsedAfter(gres: seq<Gres>, k: nat, gpus: int)
    requires k < |gres| && gres[k].name == "gpu"
    ensures GpuUsed(gres[k := gres[k].(used := gres[k].used + gpus)]) == GpuUsed(gres) + gpus
  {
    var last := |gres| - 1;
    var after := gres[k := gres[k].(used := gres[k].used + gpus)];
    if k < last {
      assert after[..last] == gres[..last][k := gres[k].(used := gres[k].used + gpus)];
      GpuUsedAfter(gres[..last], k, gpus);
    } else {
      assert after[..last] == gres[..last];
    }
  }

  function GpuEntries(gres: seq<Gres>): nat {
    if gres == [] then 0
    else GpuEntries(gres[..|gres| - 1]) + if gres[|gres| - 1].name == "gpu" then 1 else 0
  }

  lemma OneMoreEntry(entries: int, gpus: int)
    ensures (entries + 1) * gpus == entries * gpus + gpus
  {
  }

  /** A release credits every "gpu" entry, not only the one an allocation charges. */
  lemma {:induction false} ReleaseCreditsEveryEntry(gres: seq<Gres>, gpus: int)
    requires forall k :: 0 <= k < |gres| && gres[k].name == "gpu" ==> gres[k].used >= gpus
    ensures GpuUsed(ReleaseGres(gres, gpus)) == GpuUsed(gres) - GpuEntries(gres) * gpus
  {
    if gres != [] {
      var last := |gres| - 1;
      assert ReleaseGres(gres, gpus)[..last] == ReleaseGres(gres[..last], gpus);
      ReleaseCreditsEveryEntry(gres[..last], gpus);
      OneMoreEntry(GpuEntries(gres[..last]), gpus);
    }
  }

  /** Charge the first "gpu" entry, then release. */
  function ChargedAndReleased(gres: seq<Gres>, gpus: int): (res: seq<Gres>)
    requires FirstGpu(gres) != -1
    ensures |res| == |gres|
  {
    var k := FirstGpu(gres);
    ReleaseGres(gres[k := gres[k].(used := gres[k].used + gpus)], gpus)
  }

  lemma {:induction false} ChargedAndReleasedAt(gres: seq<Gres>, gpus: int, j: nat)
    requires FirstGpu(gres) != -1 && gpus >= 0 && j < |gres| && (gres[j].name == "gpu" ==> gres[j].used >= 0)
    ensures ChargedAndReleased(gres, gpus)[j] == gres[j] <==>
            j == FirstGpu(gres) || gres[j].name != "gpu" || gpus == 0 || gres[j].used == 0
  {
  }

  /** That is the identity exactly when no other "gpu" entry has anything to give. */
  lemma {:induction false} GresRoundTripExactly(gres: seq<Gres>, gpus: int)
    requires FirstGpu(gres) != -1 && gpus >= 0
    requires forall j :: 0 <= j < |gres| && gres[j].name == "gpu" ==> gres[j].used >= 0
    ensures ChargedAndReleased(gres, gpus) == gres <==>
            || gpus == 0
            || forall j :: 0 <= j < |gres| && j != FirstGpu(gres) && gres[j].name == "gpu" ==> gres[j].used == 0
  {
    forall j | 0 <= j < |gres|
      ensures ChargedAndReleased(gres, gpus)[j] == gres[j] <==>
              j == FirstGpu(gres) || gres[j].name != "gpu" || gpus == 0 || gres[j].used == 0
    {
      ChargedAndReleasedAt(gres, gpus, j);
    }
  }

  // ---------- capacities ----------

  predicate SameCapacity(a: Node, b: Node) {
    a.cpus == b.cpus && a.memory == b.memory && SameShape(a.gres, b.gres)
  }

  /** The checks of tryScheduleJob on the node with nothing in use. */
  predicate FitsEmpty(node: Node, job: Job) {
    var k := FirstGpu(node.gres);
    && node.cpus >= job.cpus && (job.memory.isSet ==> node.memory >= job.memory.number)
    && k != -1 && node.gres[k].count >= job.gpus
  }

  lemma FitsEmptyFrame(a: Node, b: Node, job: Job)
    requires SameCapacity(a, b)
    ensures FitsEmpty(a, job) <==> FitsEmpty(b, job)
  {
    SameShapeFacts(a.gres, b.gres);
  }

  lemma AllocateEffect(node: Node, job: Job)
    requires FirstGpu(node.gres) != -1
    ensures var r := Allocate(node, job);
            && UsedOf(r) == Plus(UsedOf(node), Request(job)) && SameCapacity(node, r)
            && r.name == node.name && r.state == Label(r)
  {
    GpuUsedAfter(node.gres, FirstGpu(node.gres), job.gpus);
  }

  lemma ReleaseEffect(node: Node, job: Job)
    ensures var r := ReleaseNode(node, job);
            && r.cpusUsed == Clamp(node.cpusUsed - job.cpus)
            && r.memoryUsed == Clamp(node.memoryUsed - job.memory.number)
            && SameCapacity(node, r) && r.name == node.name && r.state == Label(r)
    ensures OneGpu(node.gres) ==>
              GpuUsed(ReleaseNode(node, job).gres) ==
              if FirstGpu(node.gres) == -1 then 0 else Clamp(GpuUsed(node.gres) - job.gpus)
  {
    var gres := ReleaseGres(node.gres, job.gpus);
    if OneGpu(node.gres) {
      SameShapeFacts(node.gres, gres);
      SingleGpu(node.gres);
      SingleGpu(gres);
    }
  }

  /**
   A job fits exactly when its request does, on a node that has a GPU entry; an unset memory request is not checked.
   */
  lemma FitsIsRoom(node: Node, job: Job)
    requires OneGpu(node.gres) && FirstGpu(node.gres) != -1
    ensures Fits(node, job) <==>
              var used := Plus(UsedOf(node), Request(job));
              && used.cpus <= node.cpus && used.gpus <= GpuTotal(node.gres)
              && (job.memory.isSet ==> used.memory <= node.memory)
  {
    SingleGpu(node.gres);
  }

  /** Whatever is in use, a job that fits would fit the empty node. */
  lemma FitsImpliesFitsEmpty(node: Node, job: Job)
    requires OneGpu(node.gres) && AtMost(NOTHING, UsedOf(node)) && Fits(node, job)
    ensures FitsEmpty(node, job)
  {
    SingleGpu(node.gres);
  }

  // ---------- one node, one request ----------

  /** A request without negative parts, with the memory flag as SubmitJob sets it. */
  predicate NonNegative(job: Job) {
    && job.cpus >= 0 && job.gpus >= 0 && job.memory.number >= 0
    && (job.memory.isSet <==> job.memory.number > 0)
  }

  ghost predicate HealthyNode(node: Node) {
    && OneGpu(node.gres) && AtMost(NOTHING, UsedOf(node)) && AtMost(UsedOf(node), CapacityOf(node))
    && node.state == Label(node)
  }

  lemma AllocateStaysHealthy(node: Node, job: Job)
    requires NonNegative(job) && HealthyNode(node) && Fits(node, job)
    ensures HealthyNode(Allocate(node, job)) && UsedOf(Allocate(node, job)) == Plus(UsedOf(node), Request(job))
  {
    AllocateEffect(node, job);
    SameShapeFacts(node.gres, Allocate(node, job).gres);
    FitsIsRoom(node, job);
  }

  lemma ReleaseStaysHealthy(node: Node, job: Job)
    requires NonNegative(job) && HealthyNode(node) && FirstGpu(node.gres) != -1 && AtMost(Request(job), UsedOf(node))
    ensures HealthyNode(ReleaseNode(node, job)) && UsedOf(ReleaseNode(node, job)) == Minus(UsedOf(node), Request(job))
  {
    ReleaseEffect(node, job);
    SameShapeFacts(node.gres, ReleaseNode(node, job).gres);
  }

  lemma RoundTrip(node: Node, job: Job)
    requires NonNegative(job) && HealthyNode(node) && Fits(node, job)
    ensures ReleaseNode(Allocate(node, job), job) == node
  {
    SingleGpu(node.gres);
    GresRoundTripExactly(node.gres, job.gpus);
  }

  /** On every healthy node it fits, the job can be allocated and released again, leaving the node as it was. */
  ghost predicate Safe(job: Job) {
    forall node :: HealthyNode(node) && Fits(node, job) ==>
      HealthyNode(Allocate(node, job)) && ReleaseNode(Allocate(node, job), job) == node
  }

  /** An empty node just large enough for the job. */
  function TightNode(job: Job): (node: Node)
    ensures FirstGpu(node.gres) == 0 && OneGpu(node.gres) && Fits(node, job)
  {
    var gres := [Gres("gpu", Clamp(job.gpus), 0)];
    assert gres[0].name == "gpu";
    Node("n", Idle, Clamp(job.cpus), 0, Clamp(job.memory.number), 0, gres)
  }

  lemma NegativeIsUnsafe(job: Job, node: Node)
    requires !NonNegative(job) && (job.memory.isSet <==> job.memory.number > 0) && node == TightNode(job)
    ensures HealthyNode(node) && Fits(node, job)
    ensures !HealthyNode(Allocate(node, job)) || ReleaseNode(Allocate(node, job), job) != node
  {
    SingleGpu(node.gres);
    AllocateEffect(node, job);
    ReleaseEffect(Allocate(node, job), job);
  }

  /** One node and one request: the request is safe if and only if none of its three parts is negative. */
  lemma SafeExactlyWhenNonNegative(job: Job)
    requires job.memory.isSet <==> job.memory.number > 0
    ensures Safe(job) <==> job.cpus >= 0 && job.gpus >= 0 && job.memory.number >= 0
  {
    if NonNegative(job) {
      forall node | HealthyNode(node) && Fits(node, job)
        ensures HealthyNode(Allocate(node, job)) && ReleaseNode(Allocate(node, job), job) == node
      {
        AllocateStaysHealthy(node, job);
        RoundTrip(node, job);
      }
    } else {
      NegativeIsUnsafe(job, TightNode(job));
    }
  }

  /**
   Whatever the requests, a release leaves a balanced node balanced if and only if no clamp fires and the
   memory request is not negative.
   */
  lemma ReleaseBalancedExactly(node: Node, job: Job, rest: Usage)
    requires OneGpu(node.gres) && FirstGpu(node.gres) != -1 && UsedOf(node) == Plus(rest, Request(job))
    requires job.memory.isSet <==> job.memory.number > 0
    ensures UsedOf(ReleaseNode(node, job)) == rest <==>
            && node.cpusUsed - job.cpus >= 0 && node.memoryUsed - job.memory.number >= 0
            && GpuUsed(node.gres) - job.gpus >= 0 && job.memory.number >= 0
  {
    ReleaseEffect(node, job);
  }
}

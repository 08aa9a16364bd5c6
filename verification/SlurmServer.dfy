/** Any stream of client requests and scheduler ticks against one store: the object program performs a run. */
module SlurmServer {
  import opened Cluster
  import opened Resources
  import opened Accounting
  import opened Lifecycle
  import opened ClusterStore

  datatype Request =
    | SubmitRequest(name: string, partition: string, cpus: int, gpus: int, memory: int, duration: int)
    | CancelRequest(id: int)
    | Tick

  /** What a request does at a given time. A tick may walk the jobs in any two orders. */
  predicate Performs(op: Op, r: Request, now: int) {
    match r
    case SubmitRequest(name, partition, cpus, gpus, memory, duration) =>
      op == SubmitOp(name, partition, cpus, gpus, memory, duration, now)
    case CancelRequest(id) => op == CancelOp(id, now)
    case Tick => op.ReconcileOp? && op.now == now
  }

  /** The request asks for no negative amount, or for what no empty node of its partition has. */
  predicate HarmlessRequest(r: Request) {
    r.SubmitRequest? ==>
      HarmlessOp(NewCluster(), SubmitOp(r.name, r.partition, r.cpus, r.gpus, r.memory, r.duration, 0))
  }

  ghost predicate PerformsAll(ops: seq<Op>, requests: seq<Request>, clock: seq<int>)
    requires |clock| == |requests|
  {
    |ops| == |requests| && forall k :: 0 <= k < |ops| ==> Performs(ops[k], requests[k], clock[k])
  }

  lemma PerformsOneMore(ops: seq<Op>, requests: seq<Request>, clock: seq<int>, k: nat, op: Op)
    requires k < |requests| == |clock| && PerformsAll(ops, requests[..k], clock[..k])
    requires Performs(op, requests[k], clock[k])
    ensures PerformsAll(ops + [op], requests[..k + 1], clock[..k + 1])
  {
  }

  /** One request, at the time the clock shows. */
  method Perform(store: ClusterStore, request: Request, now: int) returns (ghost op: Op)
    requires store.Valid()
    modifies store`contents, store`jobs, store`nextJobID, store.nodes.Values, store.jobs.Values
    ensures store.Valid() && OpOk(old(store.contents), op) && store.contents == Apply(old(store.contents), op)
    ensures Performs(op, request, now)
    ensures fresh(store.jobs.Values - old(store.jobs.Values))
  {
    match request
    case SubmitRequest(name, partition, cpus, gpus, memory, duration) =>
      var job := store.SubmitJob(name, partition, cpus, gpus, memory, duration, now);
      op := SubmitOp(name, partition, cpus, gpus, memory, duration, now);
    case CancelRequest(id) =>
      var job := store.CancelJob(id, now);
      op := CancelOp(id, now);
    case Tick =>
      ghost var first, second := store.ReconcileJobs(now);
      op := ReconcileOp(first, second, now);
  }

  /** One more request of a run. */
  method PerformNext(store: ClusterStore, request: Request, now: int, ghost ops: seq<Op>) returns (ghost op: Op)
    requires store.Valid() && IsRun(NewCluster(), ops, store.contents)
    modifies store`contents, store`jobs, store`nextJobID, store.nodes.Values, store.jobs.Values
    ensures store.Valid() && IsRun(NewCluster(), ops + [op], store.contents) && Performs(op, request, now)
    ensures fresh(store.jobs.Values - old(store.jobs.Values))
  {
    op := Perform(store, request, now);
    RunExtends(NewCluster(), ops, old(store.contents), op);
  }

  /** The counters of a node object are the sums over the jobs running on it, within capacity, and its label fits. */
  ghost predicate Balanced(store: ClusterStore, name: string)
    requires store.Valid() && name in store.nodes
    reads store, store.nodes.Values, store.jobs.Values
  {
    && Contiguous(store.contents)
    && UsedOf(store.nodes[name].View()) == Held(store.contents.jobs, name, store.nextJobID)
    && AtMost(NOTHING, UsedOf(store.nodes[name].View()))
    && AtMost(UsedOf(store.nodes[name].View()), CapacityOf(store.nodes[name].View()))
    && LabelTells(store.nodes[name].View())
  }

  lemma {:induction false} HarmlessStaysBalanced(
    store: ClusterStore, requests: seq<Request>, clock: seq<int>, ops: seq<Op>)
    requires store.Valid() && IsRun(NewCluster(), ops, store.contents)
    requires |clock| == |requests| && PerformsAll(ops, requests, clock)
    requires forall k :: 0 <= k < |requests| ==> HarmlessRequest(requests[k])
    ensures forall name :: name in store.nodes ==> Balanced(store, name)
  {
    forall k | 0 <= k < |ops| ensures HarmlessOp(NewCluster(), ops[k]) {
      assert Performs(ops[k], requests[k], clock[k]) && HarmlessRequest(requests[k]);
    }
    forall name | name in store.nodes ensures Balanced(store, name) {
      ResourcesConserved(ops, store.contents, name);
    }
  }

  /**
   Serve every request, whatever the clock shows at each: the store goes through the run of these requests. When every
   one is harmless, all node objects are balanced.
   */
  method Serve(requests: seq<Request>, clock: seq<int>) returns (store: ClusterStore, ghost ops: seq<Op>)
    requires |clock| == |requests|
    ensures store.Valid() && IsRun(NewCluster(), ops, store.contents) && PerformsAll(ops, requests, clock)
    ensures (forall k :: 0 <= k < |requests| ==> HarmlessRequest(requests[k])) ==>
              forall name :: name in store.nodes ==> Balanced(store, name)
  {
    store := new ClusterStore();
    ops := [];
    for k := 0 to |requests|
      invariant store.Valid() && fresh(store) && fresh(store.nodes.Values) && fresh(store.jobs.Values)
      invariant IsRun(NewCluster(), ops, store.contents) && PerformsAll(ops, requests[..k], clock[..k])
    {
      ghost var op := PerformNext(store, requests[k], clock[k], ops);
      PerformsOneMore(ops, requests, clock, k, op);
      ops := ops + [op];
    }
    assert requests[..|requests|] == requests && clock[..|requests|] == clock;
    if forall k :: 0 <= k < |requests| ==> HarmlessRequest(requests[k]) {
      HarmlessStaysBalanced(store, requests, clock, ops);
    }
  }
}

/**
 With no new submissions the scheduler drains its queue: what is left pending could not run even on an empty node. Here
 each call comes after the end of every job that runs; the calls of the real ticker, which need not, are in Ticking.
 */
module Draining {
  import opened Cluster
  import opened Resources
  import opened Accounting
  import opened Scheduling
  import opened Counting

  /** The scheduler can dispose of the job: its partition is unknown, or one of its nodes would take it when empty. */
  ghost predicate Disposable(c: Cluster, job: Job) {
    job.partition !in c.partitions || !Unplaceable(c.nodes, c.partitions, job)
  }

  ghost predicate AllExpired(c: Cluster, now: int) {
    forall id :: id in c.jobs && c.jobs[id].state == Running ==> now >= c.jobs[id].endTime.number
  }

  function PendingJobs(c: Cluster): set<int> {
    set id | id in c.jobs && c.jobs[id].state == Pending
  }

  /** Nothing pending can ever be disposed of. */
  ghost predicate Drained(c: Cluster) {
    forall id :: id in PendingJobs(c) ==> !Disposable(c, c.jobs[id])
  }

  // ---------- one call ----------

  /** On a node where nothing runs, fitting is fitting the empty node. */
  lemma IdleNodeIsEmpty(c: Cluster, name: string, job: Job)
    requires Inv(c) && name in c.nodes && forall id :: id in c.jobs ==> c.jobs[id].state != Running
    ensures Fits(c.nodes[name], job) <==> FitsEmpty(c.nodes[name], job)
  {
    var node := c.nodes[name];
    assert NodeOk(name, node, Held(c.jobs, name, c.nextJobID));
    HeldNothing(c.jobs, name, c.nextJobID);
    SingleGpu(node.gres);
  }

  /** A pass that leaves every visited pending job pending has changed nothing. */
  lemma {:induction false} NothingStarted(c: Cluster, order: seq<int>, now: int)
    requires Distinct(order) && forall id :: id in order ==> id in c.jobs
    requires forall id :: id in order && c.jobs[id].state == Pending ==>
               SchedulePass(c, order, now).jobs[id].state == Pending
    ensures SchedulePass(c, order, now) == c
  {
    if order != [] {
      var k := |order| - 1;
      var prefix, last := order[..k], order[k];
      assert order == prefix + [last];
      forall id | id in prefix && c.jobs[id].state == Pending
        ensures SchedulePass(c, prefix, now).jobs[id].state == Pending
      {
        assert id in order && id != last;
      }
      NothingStarted(c, prefix, now);
      assert last in order;
    }
  }

  lemma PendingOnlyShrinks(c: Cluster, first: seq<int>, second: seq<int>, now: int)
    requires IsOrder(c, first) && IsOrder(c, second)
    ensures var t := Reconcile(c, first, second, now);
            PendingJobs(t) <= PendingJobs(c) && forall id :: id in PendingJobs(t) ==> t.jobs[id] == c.jobs[id]
  {
    var t := Reconcile(c, first, second, now);
    forall id | id in PendingJobs(t) ensures id in PendingJobs(c) && t.jobs[id] == c.jobs[id] {
      ReconcileJob(c, first, second, now, id);
    }
  }

  lemma {:induction false} IdleAfterCompletion(c: Cluster, first: seq<int>, second: seq<int>, now: int)
    requires IsOrder(c, first) && IsOrder(c, second) && AllExpired(c, now)
    ensures (forall k :: k in first ==> k in c.jobs)
    ensures forall id :: id in c.jobs ==> CompletePass(c, first, now).jobs[id].state != Running
    ensures forall id :: id in c.jobs ==>
              (CompletePass(c, first, now).jobs[id].state == Pending <==> c.jobs[id].state == Pending)
  {
    OrderedJobsExist(c, first);
    forall id | id in c.jobs
      ensures CompletePass(c, first, now).jobs[id].state != Running
      ensures CompletePass(c, first, now).jobs[id].state == Pending <==> c.jobs[id].state == Pending
    {
      assert id in Members(first);
      CompleteFrame(c, first, now, id);
    }
  }

  /** If the call left the pending jobs as they were, its second pass started nothing and no job is running. */
  lemma NothingPendingStarted(c: Cluster, first: seq<int>, second: seq<int>, now: int)
    requires IsOrder(c, first) && IsOrder(c, second) && AllExpired(c, now)
    requires PendingJobs(Reconcile(c, first, second, now)) == PendingJobs(c)
    ensures forall id :: id in c.jobs ==> Reconcile(c, first, second, now).jobs[id].state != Running
  {
    IdleAfterCompletion(c, first, second, now);
    OrderedJobsExist(c, second);
    var s := CompletePass(c, first, now);
    forall id | id in second && s.jobs[id].state == Pending
      ensures SchedulePass(s, second, now).jobs[id].state == Pending
    {
      assert id in PendingJobs(c);
    }
    NothingStarted(s, second, now);
  }

  /** Progress: a call past every running job's end disposes of some pending job, if any can be disposed of. */
  lemma DrainProgress(c: Cluster, first: seq<int>, second: seq<int>, now: int)
    requires Inv(c) && IsOrder(c, first) && IsOrder(c, second) && AllExpired(c, now) && !Drained(c)
    ensures |PendingJobs(Reconcile(c, first, second, now))| < |PendingJobs(c)|
  {
    var t := Reconcile(c, first, second, now);
    PendingOnlyShrinks(c, first, second, now);
    SubsetCount(PendingJobs(t), PendingJobs(c));
    if PendingJobs(t) == PendingJobs(c) {
      var id :| id in PendingJobs(c) && Disposable(c, c.jobs[id]);
      IdleAfterCompletion(c, first, second, now);
      NothingPendingStarted(c, first, second, now);
      BalancedStaysOrderly(c, first, now);
      WorkConserving(c, first, second, now, id);
      ReconcileKeepsInv(c, first, second, now);
      ReconcileKeepsCapacities(c, first, second, now);
      UnplaceableByCapacity(c, t, c.jobs[id]);
      var name :|
        name in Split(t.partitions[t.jobs[id].partition]) && name in t.nodes && FitsEmpty(t.nodes[name], t.jobs[id]);
      IdleNodeIsEmpty(t, name, t.jobs[id]);
      assert false;
    }
  }

  // ---------- many calls ----------

  datatype Call = Call(first: seq<int>, second: seq<int>, now: int)

  /** A sequence of calls without submissions, each past the end of every job then running. */
  ghost predicate IsDrain(c: Cluster, calls: seq<Call>, t: Cluster)
    decreases |calls|
  {
    if calls == [] then c == t
    else
      && IsOrder(c, calls[0].first) && IsOrder(c, calls[0].second) && AllExpired(c, calls[0].now)
      && IsDrain(Reconcile(c, calls[0].first, calls[0].second, calls[0].now), calls[1..], t)
  }

  lemma DrainedPersists(c: Cluster, first: seq<int>, second: seq<int>, now: int)
    requires IsOrder(c, first) && IsOrder(c, second) && Drained(c)
    ensures Drained(Reconcile(c, first, second, now))
  {
    var t := Reconcile(c, first, second, now);
    PendingOnlyShrinks(c, first, second, now);
    ReconcileKeepsCapacities(c, first, second, now);
    forall id | id in PendingJobs(t) ensures !Disposable(t, t.jobs[id]) {
      assert id in PendingJobs(c);
      UnplaceableByCapacity(c, t, c.jobs[id]);
    }
  }

  /** As many such calls as there are pending jobs drain the queue. */
  lemma {:induction false} DrainCompletes(c: Cluster, calls: seq<Call>, t: Cluster)
    requires Inv(c) && IsDrain(c, calls, t) && (Drained(c) || |calls| >= |PendingJobs(c)|)
    ensures Drained(t)
    decreases |calls|
  {
    if calls != [] {
      var call := calls[0];
      ReconcileKeepsInv(c, call.first, call.second, call.now);
      if Drained(c) {
        DrainedPersists(c, call.first, call.second, call.now);
      } else {
        DrainProgress(c, call.first, call.second, call.now);
      }
      DrainCompletes(Reconcile(c, call.first, call.second, call.now), calls[1..], t);
    }
  }
}

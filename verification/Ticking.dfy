/**
 Draining under the real ticker: calls come at arbitrary times, while other jobs still run. The time it takes is at most
 the work that is left, which is the run times that remain and one gap between ticks per unfinished job.
 */
module Ticking {
  import opened Cluster
  import opened Resources
  import opened Accounting
  import opened Scheduling
  import opened Draining

  ghost predicate SomeoneRuns(c: Cluster) {
    exists id :: id in c.jobs && c.jobs[id].state == Running
  }

  lemma BlockedOnIdleNodes(t: Cluster, job: Job)
    requires Inv(t) && !SomeoneRuns(t) && Blocked(t, job)
    ensures !Disposable(t, job)
  {
    forall name | name in Split(t.partitions[job.partition]) && name in t.nodes ensures !FitsEmpty(t.nodes[name], job) {
      IdleNodeIsEmpty(t, name, job);
    }
  }

  /** After any call, some job runs unless nothing that is pending can be placed. */
  lemma BusyUntilDrained(c: Cluster, first: seq<int>, second: seq<int>, now: int)
    requires Inv(c) && IsOrder(c, first) && IsOrder(c, second)
    ensures var t := Reconcile(c, first, second, now); Drained(t) || SomeoneRuns(t)
  {
    var t := Reconcile(c, first, second, now);
    ReconcileKeepsInv(c, first, second, now);
    BalancedStaysOrderly(c, first, now);
    if !SomeoneRuns(t) {
      forall id | id in PendingJobs(t) ensures !Disposable(t, t.jobs[id]) {
        WorkConserving(c, first, second, now, id);
        BlockedOnIdleNodes(t, t.jobs[id]);
      }
    }
  }

  // ---------- the work that is left ----------

  function Positive(x: int): nat {
    if x > 0 then x else 0
  }

  /** How long a job can still keep the cluster busy: its run time, and the wait for the tick that ends it. */
  function Weight(job: Job, now: int, gap: nat): nat {
    match job.state
    case Pending => Positive(job.duration) + gap
    case Running => Positive(job.endTime.number - now) + gap
    case _ => 0
  }

  function Backlog(jobs: map<int, Job>, now: int, gap: nat, hi: int): nat
    requires forall id :: FIRST_JOB_ID <= id < hi ==> id in jobs
    decreases hi - FIRST_JOB_ID
  {
    if hi <= FIRST_JOB_ID then 0 else Backlog(jobs, now, gap, hi - 1) + Weight(jobs[hi - 1], now, gap)
  }

  /** A tick does not add to any job's weight, and takes the time that has passed from every running job's. */
  lemma WeightShrinks(c: Cluster, first: seq<int>, second: seq<int>, now: int, later: int, gap: nat, id: int)
    requires IsOrder(c, first) && IsOrder(c, second) && id in c.jobs && Int64Durations(c)
    requires 0 <= now <= later <= now + gap
    ensures var a, b := c.jobs[id], Reconcile(c, first, second, later).jobs[id];
            && Weight(b, later, gap) <= Weight(a, now, gap)
            && (a.state == Running ==> Weight(b, later, gap) <= Weight(a, now, gap) - (later - now))
  {
    ReconcileJob(c, first, second, later, id);
  }

  lemma {:induction false} BacklogShrinks(
    a: map<int, Job>, b: map<int, Job>, now: int, later: int, gap: nat, hi: int, id: int)
    requires forall k :: FIRST_JOB_ID <= k < hi ==>
               k in a && k in b && Weight(b[k], later, gap) <= Weight(a[k], now, gap)
    requires FIRST_JOB_ID <= id < hi ==> Weight(b[id], later, gap) <= Weight(a[id], now, gap) - (later - now)
    ensures Backlog(b, later, gap, hi) <= Backlog(a, now, gap, hi)
    ensures FIRST_JOB_ID <= id < hi ==> Backlog(b, later, gap, hi) <= Backlog(a, now, gap, hi) - (later - now)
    decreases hi - FIRST_JOB_ID
  {
    if hi > FIRST_JOB_ID {
      BacklogShrinks(a, b, now, later, gap, hi - 1, id);
    }
  }

  lemma {:induction false} TickAddsNothing(c: Cluster, first: seq<int>, second: seq<int>, now: int, gap: nat)
    requires Contiguous(c) && IsOrder(c, first) && IsOrder(c, second) && Int64Durations(c) && now >= 0
    ensures var t := Reconcile(c, first, second, now);
            && (forall id :: FIRST_JOB_ID <= id < t.nextJobID ==> id in t.jobs)
            && Backlog(t.jobs, now, gap, t.nextJobID) <= Backlog(c.jobs, now, gap, c.nextJobID)
  {
    var t := Reconcile(c, first, second, now);
    forall id | id in c.jobs ensures id in t.jobs && Weight(t.jobs[id], now, gap) <= Weight(c.jobs[id], now, gap) {
      WeightShrinks(c, first, second, now, now, gap, id);
    }
    BacklogShrinks(c.jobs, t.jobs, now, now, gap, c.nextJobID, FIRST_JOB_ID - 1);
  }

  /** While some job runs, every tick pays for the time since the last one. */
  lemma {:induction false} TickPays(c: Cluster, first: seq<int>, second: seq<int>, now: int, later: int, gap: nat)
    requires Contiguous(c) && IsOrder(c, first) && IsOrder(c, second) && Int64Durations(c)
    requires 0 <= now <= later <= now + gap && SomeoneRuns(c)
    ensures var t := Reconcile(c, first, second, later);
            && (forall id :: FIRST_JOB_ID <= id < t.nextJobID ==> id in t.jobs)
            && Backlog(t.jobs, later, gap, t.nextJobID) <= Backlog(c.jobs, now, gap, c.nextJobID) - (later - now)
  {
    var t := Reconcile(c, first, second, later);
    var runner :| runner in c.jobs && c.jobs[runner].state == Running;
    forall id | id in c.jobs ensures id in t.jobs && Weight(t.jobs[id], later, gap) <= Weight(c.jobs[id], now, gap) {
      WeightShrinks(c, first, second, now, later, gap, id);
    }
    WeightShrinks(c, first, second, now, later, gap, runner);
    BacklogShrinks(c.jobs, t.jobs, now, later, gap, c.nextJobID, runner);
  }

  // ---------- many ticks ----------

  /** Calls without submissions, at nondecreasing times no further than `gap` apart. */
  predicate IsTicking(c: Cluster, calls: seq<Call>, t: Cluster, now: int, gap: nat)
    decreases |calls|
  {
    if calls == [] then c == t
    else
      && IsOrder(c, calls[0].first) && IsOrder(c, calls[0].second) && now <= calls[0].now <= now + gap
      && IsTicking(Reconcile(c, calls[0].first, calls[0].second, calls[0].now), calls[1..], t, calls[0].now, gap)
  }

  function Elapsed(calls: seq<Call>, now: int): int {
    if calls == [] then 0 else calls[|calls| - 1].now - now
  }

  lemma ElapsedSplits(calls: seq<Call>, now: int)
    requires calls != []
    ensures Elapsed(calls, now) == (calls[0].now - now) + Elapsed(calls[1..], calls[0].now)
  {
  }

  /** What a tick keeps for the next one. */
  lemma AfterTick(c: Cluster, first: seq<int>, second: seq<int>, now: int)
    requires Inv(c) && IsOrder(c, first) && IsOrder(c, second) && Int64Durations(c)
    ensures var t := Reconcile(c, first, second, now);
            && Inv(t) && Int64Durations(t) && (Drained(t) || SomeoneRuns(t)) && (Drained(c) ==> Drained(t))
  {
    var t := Reconcile(c, first, second, now);
    ReconcileKeepsInv(c, first, second, now);
    BusyUntilDrained(c, first, second, now);
    if Drained(c) {
      DrainedPersists(c, first, second, now);
    }
    forall id | id in t.jobs ensures t.jobs[id].duration == c.jobs[id].duration {
      ReconcileJob(c, first, second, now, id);
    }
  }

  /** The queue is drained once the ticks have gone on for longer than the work that was left. */
  lemma {:induction false} TicksDrain(c: Cluster, calls: seq<Call>, t: Cluster, now: int, gap: nat)
    requires Inv(c) && Int64Durations(c) && now >= 0 && (Drained(c) || SomeoneRuns(c))
    requires IsTicking(c, calls, t, now, gap)
    ensures Drained(t) || Elapsed(calls, now) <= Backlog(c.jobs, now, gap, c.nextJobID)
    ensures Drained(c) ==> Drained(t)
    decreases |calls|
  {
    if calls != [] {
      var call := calls[0];
      var next := Reconcile(c, call.first, call.second, call.now);
      AfterTick(c, call.first, call.second, call.now);
      ElapsedSplits(calls, now);
      TicksDrain(next, calls[1..], t, call.now, gap);
      if !Drained(c) {
        TickPays(c, call.first, call.second, now, call.now, gap);
      }
    }
  }

  /** The same from any balanced store, counting from the first tick. */
  lemma {:induction false} TicksDrainFromAnyStore(c: Cluster, calls: seq<Call>, t: Cluster, gap: nat)
    requires Inv(c) && Int64Durations(c) && calls != [] && calls[0].now >= 0
    requires IsTicking(c, calls, t, calls[0].now, gap)
    ensures Drained(t) || Elapsed(calls, calls[0].now) <= Backlog(c.jobs, calls[0].now, gap, c.nextJobID)
  {
    var call := calls[0];
    AfterTick(c, call.first, call.second, call.now);
    ElapsedSplits(calls, call.now);
    TickAddsNothing(c, call.first, call.second, call.now, gap);
    TicksDrain(Reconcile(c, call.first, call.second, call.now), calls[1..], t, call.now, gap);
  }
}

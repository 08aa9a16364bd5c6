/**
 What reconcileJobs achieves for every order in which the maps are walked: first fit, work conservation and end times,
 and exactly which requests and durations break them in one call.
 */
module Scheduling {
  import opened Cluster
  import opened Options
  import opened Resources
  import opened Accounting
  import opened Counting

  // ---------- a job and the room for it ----------

  /** No listed node of the job's partition has room for it. */
  ghost predicate Blocked(c: Cluster, job: Job) {
    && job.partition in c.partitions
    && forall name :: name in Split(c.partitions[job.partition]) && name in c.nodes ==> !Fits(c.nodes[name], job)
  }

  /** A visit would start the job. */
  ghost predicate Startable(c: Cluster, job: Job) {
    job.partition in c.partitions && !Blocked(c, job)
  }

  /** What the job takes from a node is not negative. A memory request that is not set is not taken. */
  predicate TakesOnly(job: Job) {
    job.cpus >= 0 && job.gpus >= 0 && (job.memory.isSet ==> job.memory.number >= 0)
  }

  /** Starting such a job never makes room for another. */
  lemma NoRoomAppears(node: Node, other: Job, job: Job)
    requires FirstGpu(node.gres) != -1 && TakesOnly(other) && Fits(Allocate(node, other), job)
    ensures Fits(node, job)
  {
    AllocateEffect(node, other);
    SameShapeFacts(node.gres, Allocate(node, other).gres);
  }

  /** Wherever the job fits, starting it there lets nothing fit that did not fit before. */
  ghost predicate NeverMakesRoom(other: Job) {
    forall node: Node, job: Job :: Fits(node, other) && Fits(Allocate(node, other), job) ==> Fits(node, job)
  }

  /** A job that fits only once `other` has been started beside it, when that takes a negative amount. */
  function Latecomer(other: Job, id: int): Job {
    var node := TightNode(other);
    other.(id := id, memory := Amount(0, false),
           cpus := node.cpus - other.cpus, gpus := node.gres[0].count - other.gpus)
  }

  lemma LatecomerFitsLate(other: Job, id: int)
    requires other.cpus < 0 || other.gpus < 0
    ensures !Fits(TightNode(other), Latecomer(other, id))
    ensures Fits(Allocate(TightNode(other), other), Latecomer(other, id))
  {
    AllocateEffect(TightNode(other), other);
    SameShapeFacts(TightNode(other).gres, Allocate(TightNode(other), other).gres);
  }

  /** On one node, a job makes room for another exactly when its CPU or GPU count is negative. */
  lemma NeverMakesRoomExactly(other: Job)
    requires other.memory.isSet <==> other.memory.number > 0
    ensures NeverMakesRoom(other) <==> other.cpus >= 0 && other.gpus >= 0
  {
    if other.cpus >= 0 && other.gpus >= 0 {
      forall node: Node, job: Job | Fits(node, other) && Fits(Allocate(node, other), job) ensures Fits(node, job) {
        NoRoomAppears(node, other, job);
      }
    } else {
      LatecomerFitsLate(other, 0);
    }
  }

  /** A visit starts exactly the pending jobs that are startable. */
  lemma VisitStarts(c: Cluster, id: int, now: int)
    requires id in c.jobs && c.jobs[id].state == Pending
    ensures ScheduleOne(c, id, now).jobs[id].state == Running <==> Startable(c, c.jobs[id])
    ensures !Startable(c, c.jobs[id]) ==> ScheduleOne(c, id, now).nodes == c.nodes
  {
  }

  lemma VisitBlocked(c: Cluster, id: int, now: int)
    requires id in c.jobs && Blocked(c, c.jobs[id])
    ensures ScheduleOne(c, id, now) == c
  {
  }

  lemma VisitTakesFirst(c: Cluster, id: int, now: int, at: string)
    requires id in c.jobs && c.jobs[id].state == Pending && c.jobs[id].partition in c.partitions
    requires Split(c.partitions[c.jobs[id].partition])[0] == at && at in c.nodes && Fits(c.nodes[at], c.jobs[id])
    ensures ScheduleOne(c, id, now) == Start(c, id, at, now)
  {
    assert FirstFit(c.nodes, Split(c.partitions[c.jobs[id].partition]), c.jobs[id]) == Some(at);
  }

  // ---------- the second pass ----------

  /** Every pending job that could start now takes a non-negative amount. */
  ghost predicate Orderly(c: Cluster) {
    forall id :: id in c.jobs && c.jobs[id].state == Pending && Startable(c, c.jobs[id]) ==> TakesOnly(c.jobs[id])
  }

  lemma BlockedPersists(c: Cluster, id: int, now: int, job: Job)
    requires Orderly(c) && id in c.jobs && Blocked(c, job)
    ensures Blocked(ScheduleOne(c, id, now), job)
  {
    var t := ScheduleOne(c, id, now);
    if c.jobs[id].state == Pending {
      VisitStarts(c, id, now);
      forall name | name in Split(c.partitions[job.partition]) && name in t.nodes ensures !Fits(t.nodes[name], job) {
        ScheduleOneNode(c, id, now, name);
        if Startable(c, c.jobs[id]) && t.nodes[name] != c.nodes[name] && Fits(t.nodes[name], job) {
          NoRoomAppears(c.nodes[name], c.jobs[id], job);
        }
      }
    }
  }

  lemma OrderlyPersists(c: Cluster, id: int, now: int)
    requires Orderly(c) && id in c.jobs
    ensures Orderly(ScheduleOne(c, id, now))
  {
    var t := ScheduleOne(c, id, now);
    forall k | k in t.jobs && t.jobs[k].state == Pending && Startable(t, t.jobs[k]) ensures TakesOnly(t.jobs[k]) {
      assert t.jobs[k] == c.jobs[k];
      if Blocked(c, c.jobs[k]) {
        BlockedPersists(c, id, now, c.jobs[k]);
      }
    }
  }

  lemma {:induction false} PassKeepsOrderly(c: Cluster, order: seq<int>, now: int)
    requires Orderly(c) && forall k :: k in order ==> k in c.jobs
    ensures Orderly(SchedulePass(c, order, now))
  {
    if order != [] {
      PassKeepsOrderly(c, order[..|order| - 1], now);
      OrderlyPersists(SchedulePass(c, order[..|order| - 1], now), order[|order| - 1], now);
    }
  }

  lemma {:induction false} PassKeepsBlocked(c: Cluster, order: seq<int>, now: int, job: Job)
    requires Orderly(c) && Blocked(c, job) && forall k :: k in order ==> k in c.jobs
    ensures Blocked(SchedulePass(c, order, now), job)
  {
    if order != [] {
      var s := SchedulePass(c, order[..|order| - 1], now);
      PassKeepsBlocked(c, order[..|order| - 1], now, job);
      PassKeepsOrderly(c, order[..|order| - 1], now);
      BlockedPersists(s, order[|order| - 1], now, job);
    }
  }

  lemma {:induction false} PassConcat(c: Cluster, a: seq<int>, b: seq<int>, now: int)
    requires forall k :: k in a + b ==> k in c.jobs
    ensures (forall k :: k in a ==> k in c.jobs) && (forall k :: k in b ==> k in c.jobs)
    ensures SchedulePass(c, a + b, now) == SchedulePass(SchedulePass(c, a, now), b, now)
  {
    assert forall k :: k in a || k in b ==> k in a + b;
    if b == [] {
      assert a + b == a;
    } else {
      var init := b[..|b| - 1];
      assert (a + b)[..|a + b| - 1] == a + init;
      PassConcat(c, a, init, now);
    }
  }

  /** Visits touch only the visited job, and no visit makes a job pending. */
  lemma {:induction false} PassFrame(c: Cluster, order: seq<int>, now: int, id: int)
    requires (forall k :: k in order ==> k in c.jobs) && id in c.jobs
    ensures id !in order ==> SchedulePass(c, order, now).jobs[id] == c.jobs[id]
    ensures c.jobs[id].state != Pending ==> SchedulePass(c, order, now).jobs[id] == c.jobs[id]
    ensures SchedulePass(c, order, now).jobs[id].state == Pending ==> SchedulePass(c, order, now).jobs[id] == c.jobs[id]
  {
    if order != [] {
      PassFrame(c, order[..|order| - 1], now, id);
      assert order == order[..|order| - 1] + [order[|order| - 1]];
    }
  }

  /** Each job is decided at its own turn, on the store as it then is. */
  lemma {:induction false} DecidedAtItsTurn(c: Cluster, before: seq<int>, id: int, after: seq<int>, now: int)
    requires Distinct(before + [id] + after) && forall k :: k in before + [id] + after ==> k in c.jobs
    ensures id in c.jobs && (forall k :: k in before ==> k in c.jobs) && (forall k :: k in after ==> k in c.jobs)
    ensures var turn := SchedulePass(c, before, now);
            && turn.jobs[id] == c.jobs[id]
            && SchedulePass(c, before + [id] + after, now) == SchedulePass(ScheduleOne(turn, id, now), after, now)
            && SchedulePass(c, before + [id] + after, now).jobs[id] == ScheduleOne(turn, id, now).jobs[id]
  {
    var order := before + [id] + after;
    assert order[|before|] == id;
    assert id !in before && id !in after by {
      assert forall j :: 0 <= j < |before| ==> order[j] == before[j];
      assert forall j :: 0 <= j < |after| ==> order[|before| + 1 + j] == after[j];
    }
    PassConcat(c, before + [id], after, now);
    PassConcat(c, before, [id], now);
    var turn := SchedulePass(c, before, now);
    assert [id][..0] == [];
    assert SchedulePass(turn, [id], now) == ScheduleOne(turn, id, now);
    PassFrame(c, before, now, id);
    PassFrame(ScheduleOne(turn, id, now), after, now, id);
  }

  lemma SplitOrder(order: seq<int>, id: int) returns (before: seq<int>, after: seq<int>)
    requires id in order
    ensures order == before + [id] + after
  {
    var k :| 0 <= k < |order| && order[k] == id;
    before, after := order[..k], order[k + 1..];
  }

  /** A job still pending after its turn was blocked then, and stays so. */
  lemma {:induction false} BlockedFromItsTurn(
    c: Cluster, before: seq<int>, id: int, after: seq<int>, now: int, job: Job)
    requires Orderly(c) && (forall k :: k in before ==> k in c.jobs) && (forall k :: k in after ==> k in c.jobs)
    requires id in c.jobs && SchedulePass(c, before, now).jobs[id] == job && job.state == Pending
    requires ScheduleOne(SchedulePass(c, before, now), id, now).jobs[id].state == Pending
    ensures Blocked(SchedulePass(ScheduleOne(SchedulePass(c, before, now), id, now), after, now), job)
  {
    var turn := SchedulePass(c, before, now);
    VisitStarts(turn, id, now);
    PassKeepsOrderly(c, before, now);
    BlockedPersists(turn, id, now, job);
    OrderlyPersists(turn, id, now);
    PassKeepsBlocked(ScheduleOne(turn, id, now), after, now, job);
  }

  /** Work conservation within the pass: a job still pending is blocked in the final state. */
  lemma {:induction false} PassLeavesBlocked(c: Cluster, order: seq<int>, now: int, id: int)
    requires Orderly(c) && Distinct(order) && (forall k :: k in order ==> k in c.jobs)
    requires id in order && SchedulePass(c, order, now).jobs[id].state == Pending
    ensures Blocked(SchedulePass(c, order, now), c.jobs[id])
  {
    var before, after := SplitOrder(order, id);
    DecidedAtItsTurn(c, before, id, after, now);
    PassFrame(c, order, now, id);
    BlockedFromItsTurn(c, before, id, after, now, c.jobs[id]);
  }

  /** The chosen node is the first in the list that exists and fits: every earlier entry is unknown or has no room. */
  lemma {:induction false} FirstFitIsFirst(nodes: map<string, Node>, names: seq<string>, job: Job) returns (k: nat)
    requires FirstFit(nodes, names, job).Some?
    ensures k < |names| && names[k] == FirstFit(nodes, names, job).value && names[k] in nodes
    ensures Fits(nodes[names[k]], job)
    ensures forall j :: 0 <= j < k && names[j] in nodes ==> !Fits(nodes[names[j]], job)
  {
    if names[0] in nodes && Fits(nodes[names[0]], job) {
      k := 0;
    } else {
      var r := FirstFitIsFirst(nodes, names[1..], job);
      k := r + 1;
    }
  }

  // ---------- reconcileJobs ----------

  /** The store between the two passes. */
  function AfterCompletions(c: Cluster, first: seq<int>, now: int): (s: Cluster)
    requires IsOrder(c, first)
    ensures s.jobs.Keys == c.jobs.Keys && s.nodes.Keys == c.nodes.Keys && s.partitions == c.partitions
  {
    OrderedJobsExist(c, first);
    CompletePass(c, first, now)
  }

  lemma {:induction false} CompleteFrame(c: Cluster, order: seq<int>, now: int, id: int)
    requires (forall k :: k in order ==> k in c.jobs) && id in c.jobs
    ensures var job := CompletePass(c, order, now).jobs[id];
            job == if id in order && Expired(c.jobs[id], now) then c.jobs[id].(state := Completed) else c.jobs[id]
  {
    if order != [] {
      CompleteFrame(c, order[..|order| - 1], now, id);
      assert order == order[..|order| - 1] + [order[|order| - 1]];
    }
  }

  /** The first pass completes exactly the expired jobs. */
  lemma JobBetween(c: Cluster, first: seq<int>, now: int, id: int)
    requires IsOrder(c, first) && id in c.jobs
    ensures AfterCompletions(c, first, now).jobs[id] ==
            if Expired(c.jobs[id], now) then c.jobs[id].(state := Completed) else c.jobs[id]
  {
    OrderedJobsExist(c, first);
    assert id in Members(first);
    CompleteFrame(c, first, now, id);
  }

  /** The second pass over all jobs. */
  function AfterStarts(s: Cluster, second: seq<int>, now: int): (t: Cluster)
    requires IsOrder(s, second)
    ensures t.jobs.Keys == s.jobs.Keys && t.nodes.Keys == s.nodes.Keys && t.partitions == s.partitions
  {
    OrderedJobsExist(s, second);
    SchedulePass(s, second, now)
  }

  lemma {:induction false} ReconcileIsTwoPasses(c: Cluster, first: seq<int>, second: seq<int>, now: int)
    requires IsOrder(c, first) && IsOrder(c, second)
    ensures IsOrder(AfterCompletions(c, first, now), second) && forall k :: k in second ==> k in c.jobs
    ensures Reconcile(c, first, second, now) == AfterStarts(AfterCompletions(c, first, now), second, now)
    ensures Reconcile(c, first, second, now) == SchedulePass(AfterCompletions(c, first, now), second, now)
  {
    OrderedJobsExist(c, first);
    OrderedJobsExist(c, second);
  }

  /** What a visit of the second pass does to the visited job, depending on whether its partition exists. */
  predicate Decided(known: bool, a: Job, b: Job, now: int) {
    if known then b == a || StartedNow(a, b, now) else b == a.(state := Failed)
  }

  lemma VisitDecides(c: Cluster, id: int, now: int)
    requires id in c.jobs && c.jobs[id].state == Pending
    ensures Decided(c.jobs[id].partition in c.partitions, c.jobs[id], ScheduleOne(c, id, now).jobs[id], now)
  {
  }

  lemma {:induction false} PassDecides(c: Cluster, order: seq<int>, now: int, id: int)
    requires Distinct(order) && (forall k :: k in order ==> k in c.jobs) && id in order && c.jobs[id].state == Pending
    ensures Decided(c.jobs[id].partition in c.partitions, c.jobs[id], SchedulePass(c, order, now).jobs[id], now)
  {
    var before, after := SplitOrder(order, id);
    DecidedAtItsTurn(c, before, id, after, now);
    VisitDecides(SchedulePass(c, before, now), id, now);
  }

  /** What one call does to a job, in terms of the store before it. */
  lemma ReconcileJob(c: Cluster, first: seq<int>, second: seq<int>, now: int, id: int)
    requires IsOrder(c, first) && IsOrder(c, second) && id in c.jobs
    ensures var a, b := c.jobs[id], Reconcile(c, first, second, now).jobs[id];
            && (Expired(a, now) ==> b == a.(state := Completed))
            && (a.state != Pending && !Expired(a, now) ==> b == a)
            && (a.state == Pending ==> Decided(a.partition in c.partitions, a, b, now))
  {
    ReconcileIsTwoPasses(c, first, second, now);
    JobBetween(c, first, now, id);
    var s := AfterCompletions(c, first, now);
    PassFrame(s, second, now, id);
    if c.jobs[id].state == Pending {
      assert id in Members(second);
      PassDecides(s, second, now, id);
    }
  }

  /** The second pass may come to the job after visiting these others. */
  predicate IsTurn(s: Cluster, before: seq<int>, id: int) {
    id in s.jobs && Distinct(before + [id]) && forall k :: k in before ==> k in s.jobs
  }

  /** The store when the second pass comes to a job. */
  function AtTurn(s: Cluster, before: seq<int>, id: int, now: int): (turn: Cluster)
    requires IsTurn(s, before, id)
    ensures turn.jobs.Keys == s.jobs.Keys && turn.partitions == s.partitions
  {
    SchedulePass(s, before, now)
  }

  /** Each job the call started sits on the first node of its partition's list that fitted at its turn. */
  lemma StartedOnFirstFit(c: Cluster, first: seq<int>, second: seq<int>, now: int, id: int)
    returns (before: seq<int>, turn: Cluster, k: nat)
    requires IsOrder(c, first) && IsOrder(c, second) && id in c.jobs && c.jobs[id].state == Pending
    requires Reconcile(c, first, second, now).jobs[id].state == Running
    ensures before + [id] <= second && IsTurn(AfterCompletions(c, first, now), before, id)
    ensures turn == AtTurn(AfterCompletions(c, first, now), before, id, now) && Startable(turn, c.jobs[id])
    ensures turn.partitions == c.partitions && c.jobs[id].partition in c.partitions
    ensures var names, job := Split(c.partitions[c.jobs[id].partition]), c.jobs[id];
            && k < |names| && names[k] in turn.nodes && Fits(turn.nodes[names[k]], job)
            && (forall j :: 0 <= j < k && names[j] in turn.nodes ==> !Fits(turn.nodes[names[j]], job))
            && StartedNow(job, Reconcile(c, first, second, now).jobs[id], now)
            && Reconcile(c, first, second, now).jobs[id].nodeList == turn.nodes[names[k]].name
  {
    ReconcileIsTwoPasses(c, first, second, now);
    JobBetween(c, first, now, id);
    var s := AfterCompletions(c, first, now);
    assert id in Members(second);
    var after;
    before, after := SplitOrder(second, id);
    DecidedAtItsTurn(s, before, id, after, now);
    assert before + [id] == second[..|before| + 1];
    turn := AtTurn(s, before, id, now);
    k := FirstFitIsFirst(turn.nodes, Split(c.partitions[c.jobs[id].partition]), c.jobs[id]);
  }

  // ---------- work conservation ----------

  /** After a call, in any order, no pending job fits any node of its partition. */
  lemma WorkConserving(c: Cluster, first: seq<int>, second: seq<int>, now: int, id: int)
    requires IsOrder(c, first) && IsOrder(c, second) && id in c.jobs && Orderly(AfterCompletions(c, first, now))
    requires Reconcile(c, first, second, now).jobs[id].state == Pending
    ensures Blocked(Reconcile(c, first, second, now), Reconcile(c, first, second, now).jobs[id])
  {
    ReconcileIsTwoPasses(c, first, second, now);
    assert id in Members(second);
    PassFrame(AfterCompletions(c, first, now), second, now, id);
    PassLeavesBlocked(AfterCompletions(c, first, now), second, now, id);
  }

  /** It is enough that no pending request is negative in what it takes ... */
  lemma TakersAreOrderly(c: Cluster, first: seq<int>, now: int)
    requires IsOrder(c, first)
    requires forall id :: id in c.jobs && c.jobs[id].state == Pending ==> TakesOnly(c.jobs[id])
    ensures Orderly(AfterCompletions(c, first, now))
  {
    forall id | id in c.jobs
      ensures AfterCompletions(c, first, now).jobs[id].state == Pending ==>
                AfterCompletions(c, first, now).jobs[id] == c.jobs[id]
    {
      JobBetween(c, first, now, id);
    }
  }

  /** ... or that the books balance. */
  lemma BalancedIsOrderly(c: Cluster)
    requires Inv(c)
    ensures Orderly(c)
  {
    forall id | id in c.jobs && c.jobs[id].state == Pending && Startable(c, c.jobs[id]) ensures TakesOnly(c.jobs[id]) {
      var at :| at in Split(c.partitions[c.jobs[id].partition]) && at in c.nodes && Fits(c.nodes[at], c.jobs[id]);
      FittingIsNonNegative(c, id, at);
    }
  }

  lemma BalancedStaysOrderly(c: Cluster, first: seq<int>, now: int)
    requires Inv(c) && IsOrder(c, first)
    ensures Orderly(AfterCompletions(c, first, now))
  {
    OrderedJobsExist(c, first);
    CompletePassKeepsInv(c, first, now);
    BalancedIsOrderly(AfterCompletions(c, first, now));
  }

  /** Beside other pending jobs that only take, the job leaves every pass work-conserving. */
  ghost predicate ConservesWork(c: Cluster, other: Job) {
    && other.id in c.jobs && c.jobs[other.id] == other
    && (forall k :: k in c.jobs && k != other.id && c.jobs[k].state == Pending ==> TakesOnly(c.jobs[k])) ==>
      forall order, now, id ::
        IsOrder(c, order) && id in c.jobs && AfterStarts(c, order, now).jobs[id].state == Pending ==>
        Blocked(AfterStarts(c, order, now), c.jobs[id])
  }

  ghost predicate Harmless(other: Job) {
    forall c :: ConservesWork(c, other)
  }

  /** A store on which a negative request spoils the pass. */
  function SpoiledStore(other: Job): Cluster {
    Cluster(map["n" := TightNode(other)], map[other.partition := "n"],
            map[other.id := other, other.id + 1 := Latecomer(other, other.id + 1)], other.id + 2)
  }

  lemma TwoVisits(c: Cluster, a: int, b: int, now: int)
    requires c.jobs.Keys == {a, b} && a != b
    ensures IsOrder(c, [a, b]) && AfterStarts(c, [a, b], now) == ScheduleOne(ScheduleOne(c, a, now), b, now)
  {
    var order := [a, b];
    assert order[0] in Members(order) && order[1] in Members(order);
    assert Members(order) == {a, b};
    OrderedJobsExist(c, order);
    assert order[..1] == [a] && [a][..0] == [];
    assert SchedulePass(c, [a], now) == ScheduleOne(c, a, now);
  }

  lemma SpoiledPass(other: Job, now: int)
    requires other.state == Pending && (other.cpus < 0 || other.gpus < 0)
    ensures var c, order := SpoiledStore(other), [other.id + 1, other.id];
            && IsOrder(c, order) && AfterStarts(c, order, now).jobs[other.id + 1] == Latecomer(other, other.id + 1)
            && !Blocked(AfterStarts(c, order, now), Latecomer(other, other.id + 1))
  {
    var c := SpoiledStore(other);
    LatecomerFitsLate(other, other.id + 1);
    SplitWithoutComma("n");
    assert c.jobs.Keys == {other.id + 1, other.id};
    TwoVisits(c, other.id + 1, other.id, now);
    VisitBlocked(c, other.id + 1, now);
    VisitTakesFirst(c, other.id, now, "n");
    var t := Start(c, other.id, "n", now);
    assert "n" in Split(t.partitions[other.partition]) && t.nodes["n"] == Allocate(TightNode(other), other);
  }

  lemma TakerConservesWork(c: Cluster, other: Job)
    requires TakesOnly(other)
    ensures ConservesWork(c, other)
  {
    if other.id in c.jobs && c.jobs[other.id] == other
      && forall k :: k in c.jobs && k != other.id && c.jobs[k].state == Pending ==> TakesOnly(c.jobs[k])
    {
      forall order, now, id | IsOrder(c, order) && id in c.jobs && AfterStarts(c, order, now).jobs[id].state == Pending
        ensures Blocked(AfterStarts(c, order, now), c.jobs[id])
      {
        OrderedJobsExist(c, order);
        assert id in Members(order);
        PassFrame(c, order, now, id);
        PassLeavesBlocked(c, order, now, id);
      }
    }
  }

  /** reconcileJobs is work-conserving beside a request if and only if its CPU and GPU counts are not negative. */
  lemma HarmlessExactly(other: Job)
    requires other.state == Pending && (other.memory.isSet <==> other.memory.number > 0)
    ensures Harmless(other) <==> other.cpus >= 0 && other.gpus >= 0
  {
    if other.cpus >= 0 && other.gpus >= 0 {
      forall c ensures ConservesWork(c, other) {
        TakerConservesWork(c, other);
      }
    } else {
      SpoiledPass(other, 0);
      assert !ConservesWork(SpoiledStore(other), other);
    }
  }

  // ---------- running jobs end in the future ----------

  lemma {:induction false} SomeOrder(ids: set<int>) returns (order: seq<int>)
    ensures Distinct(order) && Members(order) == ids
    decreases |ids|
  {
    if ids == {} {
      order := [];
    } else {
      var id := SomeMember(ids);
      var rest := SomeOrder(ids - {id});
      assert id !in Members(rest);
      order := [id] + rest;
      assert Members(order) == {id} + Members(rest);
    }
  }

  /** A job started with this duration now ends in the future. */
  predicate EndsLater(now: int, duration: int) {
    0 < duration < 0x8000_0000_0000_0000 - now
  }

  lemma EndTimeExactly(now: int, duration: int)
    requires 0 <= now < 0x8000_0000_0000_0000 && -0x8000_0000_0000_0000 <= duration < 0x8000_0000_0000_0000
    ensures Wrap64(now + duration) > now <==> EndsLater(now, duration)
  {
  }

  ghost predicate RunningEndLater(c: Cluster, now: int) {
    forall id :: id in c.jobs && c.jobs[id].state == Running ==> c.jobs[id].endTime.number > now
  }

  ghost predicate EveryOrderEndsLater(c: Cluster, first: seq<int>, now: int)
    requires IsOrder(c, first)
  {
    forall second :: IsOrder(c, second) ==> RunningEndLater(Reconcile(c, first, second, now), now)
  }

  /** Every pending job that could start now asks for a positive duration that does not overflow the clock. */
  ghost predicate StartableEndLater(c: Cluster, now: int) {
    forall id :: id in c.jobs && c.jobs[id].state == Pending && Startable(c, c.jobs[id]) ==>
      EndsLater(now, c.jobs[id].duration)
  }

  ghost predicate Int64Durations(c: Cluster) {
    forall id :: id in c.jobs ==> -0x8000_0000_0000_0000 <= c.jobs[id].duration < 0x8000_0000_0000_0000
  }

  /** A map may be walked so that this job's turn comes after exactly these others. */
  lemma OrderThrough(s: Cluster, before: seq<int>, id: int) returns (after: seq<int>)
    requires IsTurn(s, before, id)
    ensures IsOrder(s, before + [id] + after)
  {
    var visited := Members(before + [id]);
    after := SomeOrder(s.jobs.Keys - visited);
    forall j, k | 0 <= j < |before + [id]| && 0 <= k < |after| ensures (before + [id])[j] != after[k] {
      assert (before + [id])[j] in visited && after[k] in Members(after);
    }
    forall k | k in visited ensures k in s.jobs.Keys {
      assert k in before + [id] && (k in before || k == id);
    }
    assert Members(before + [id] + after) == visited + Members(after);
  }

  /** A job that can start at its turn is started by every order that gives it that turn. */
  lemma SomeOrderStarts(c: Cluster, first: seq<int>, before: seq<int>, now: int, id: int) returns (second: seq<int>)
    requires IsOrder(c, first) && IsTurn(AfterCompletions(c, first, now), before, id) && c.jobs[id].state == Pending
    requires Startable(AtTurn(AfterCompletions(c, first, now), before, id, now), c.jobs[id])
    ensures IsOrder(c, second) && before + [id] <= second
    ensures Reconcile(c, first, second, now).jobs[id].state == Running
    ensures Reconcile(c, first, second, now).jobs[id].endTime.number == Wrap64(now + c.jobs[id].duration)
  {
    hide Blocked, Fits, SchedulePass, CompletePass, AfterCompletions, Reconcile, Wrap64;
    var s := AfterCompletions(c, first, now);
    var after := OrderThrough(s, before, id);
    second := before + [id] + after;
    ReconcileIsTwoPasses(c, first, second, now);
    JobBetween(c, first, now, id);
    DecidedAtItsTurn(s, before, id, after, now);
    VisitStarts(AtTurn(s, before, id, now), id, now);
    ReconcileJob(c, first, second, now, id);
  }

  /** A pending job is started by some order if and only if it can start at some turn. */
  lemma StartedBySomeOrderExactly(c: Cluster, first: seq<int>, now: int, id: int)
    requires IsOrder(c, first) && id in c.jobs && c.jobs[id].state == Pending
    ensures var s := AfterCompletions(c, first, now);
            (exists second :: IsOrder(c, second) && Reconcile(c, first, second, now).jobs[id].state == Running) <==>
            (exists before :: IsTurn(s, before, id) && Startable(AtTurn(s, before, id, now), c.jobs[id]))
  {
    var s := AfterCompletions(c, first, now);
    if second :| IsOrder(c, second) && Reconcile(c, first, second, now).jobs[id].state == Running {
      var before, turn, k := StartedOnFirstFit(c, first, second, now, id);
    }
    if before :| IsTurn(s, before, id) && Startable(AtTurn(s, before, id, now), c.jobs[id]) {
      var second := SomeOrderStarts(c, first, before, now, id);
    }
  }

  /** Whenever the second pass may come to a pending job that can then start, it asks for such a duration. */
  ghost predicate EveryTurnEndsLater(s: Cluster, now: int) {
    forall before, id ::
      IsTurn(s, before, id) && s.jobs[id].state == Pending && Startable(AtTurn(s, before, id, now), s.jobs[id]) ==>
        EndsLater(now, s.jobs[id].duration)
  }

  lemma StartedEndLater(c: Cluster, first: seq<int>, second: seq<int>, now: int)
    requires IsOrder(c, first) && IsOrder(c, second) && 0 <= now < 0x8000_0000_0000_0000 && Int64Durations(c)
    requires EveryTurnEndsLater(AfterCompletions(c, first, now), now)
    ensures RunningEndLater(Reconcile(c, first, second, now), now)
  {
    var r := Reconcile(c, first, second, now);
    forall id | id in r.jobs && r.jobs[id].state == Running ensures r.jobs[id].endTime.number > now {
      ReconcileJob(c, first, second, now, id);
      if c.jobs[id].state == Pending {
        JobBetween(c, first, now, id);
        var before, turn, k := StartedOnFirstFit(c, first, second, now, id);
        EndTimeExactly(now, c.jobs[id].duration);
      }
    }
  }

  lemma EndsLaterIsNeeded(c: Cluster, first: seq<int>, before: seq<int>, now: int, id: int)
    requires IsOrder(c, first) && 0 <= now < 0x8000_0000_0000_0000 && Int64Durations(c)
    requires EveryOrderEndsLater(c, first, now) && IsTurn(AfterCompletions(c, first, now), before, id)
    requires var s := AfterCompletions(c, first, now);
             s.jobs[id].state == Pending && Startable(AtTurn(s, before, id, now), s.jobs[id])
    ensures EndsLater(now, AfterCompletions(c, first, now).jobs[id].duration)
  {
    JobBetween(c, first, now, id);
    var second := SomeOrderStarts(c, first, before, now, id);
    EndTimeExactly(now, c.jobs[id].duration);
    assert RunningEndLater(Reconcile(c, first, second, now), now);
  }

  /**
   Whatever order the second pass takes, every running job ends in the future, if and only if every pending job that
   can start at some turn of it asks for a positive duration that does not overflow the clock.
   */
  lemma RunningEndLaterExactly(c: Cluster, first: seq<int>, now: int)
    requires IsOrder(c, first) && 0 <= now < 0x8000_0000_0000_0000 && Int64Durations(c)
    ensures EveryOrderEndsLater(c, first, now) <==> EveryTurnEndsLater(AfterCompletions(c, first, now), now)
  {
    var s := AfterCompletions(c, first, now);
    if EveryTurnEndsLater(s, now) {
      forall second | IsOrder(c, second) ensures RunningEndLater(Reconcile(c, first, second, now), now) {
        StartedEndLater(c, first, second, now);
      }
    }
    if EveryOrderEndsLater(c, first, now) {
      forall before, id |
        IsTurn(s, before, id) && s.jobs[id].state == Pending && Startable(AtTurn(s, before, id, now), s.jobs[id])
        ensures EndsLater(now, s.jobs[id].duration)
      {
        EndsLaterIsNeeded(c, first, before, now, id);
      }
    }
  }

  // ---------- ... beside requests that only take ----------

  /** On an orderly store no turn makes room: what can start at its turn can start at once. */
  lemma OrderlyTurn(s: Cluster, before: seq<int>, id: int, now: int)
    requires Orderly(s) && IsTurn(s, before, id) && Startable(AtTurn(s, before, id, now), s.jobs[id])
    ensures Startable(s, s.jobs[id])
  {
    if Blocked(s, s.jobs[id]) {
      PassKeepsBlocked(s, before, now, s.jobs[id]);
    }
  }

  /** There it is enough to look at the jobs that can start at once. */
  lemma OrderlyTurnsEndLater(s: Cluster, now: int)
    requires Orderly(s)
    ensures EveryTurnEndsLater(s, now) <==> StartableEndLater(s, now)
  {
    if StartableEndLater(s, now) {
      forall before, id |
        IsTurn(s, before, id) && s.jobs[id].state == Pending && Startable(AtTurn(s, before, id, now), s.jobs[id])
        ensures EndsLater(now, s.jobs[id].duration)
      {
        OrderlyTurn(s, before, id, now);
      }
    }
    if EveryTurnEndsLater(s, now) {
      forall id | id in s.jobs && s.jobs[id].state == Pending && Startable(s, s.jobs[id])
        ensures EndsLater(now, s.jobs[id].duration)
      {
        assert IsTurn(s, [], id) && AtTurn(s, [], id, now) == s;
      }
    }
  }

  lemma OrderlyEndLaterExactly(c: Cluster, first: seq<int>, now: int)
    requires IsOrder(c, first) && 0 <= now < 0x8000_0000_0000_0000 && Int64Durations(c)
    requires Orderly(AfterCompletions(c, first, now))
    ensures EveryOrderEndsLater(c, first, now) <==> StartableEndLater(AfterCompletions(c, first, now), now)
  {
    RunningEndLaterExactly(c, first, now);
    OrderlyTurnsEndLater(AfterCompletions(c, first, now), now);
  }
}

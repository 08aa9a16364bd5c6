/**
 On a balanced store the first pass of reconcileJobs does not depend on the order in which the map is walked, so what
 holds in every order of a call can be told from the store before it. This is used for the end times of running jobs.
 */
module PassOrder {
  import opened Cluster
  import opened Resources
  import opened Accounting
  import opened Scheduling

  /** The same node but for its counters: entries not named "gpu" are untouched. */
  predicate Kin(a: Node, b: Node) {
    && a.name == b.name && SameCapacity(a, b)
    && forall k :: 0 <= k < |a.gres| && a.gres[k].name != "gpu" ==> a.gres[k] == b.gres[k]
  }

  lemma {:induction false} CompletedNodesAreKin(c: Cluster, order: seq<int>, now: int, name: string)
    requires (forall id :: id in order ==> id in c.jobs) && name in c.nodes
    ensures Kin(c.nodes[name], CompletePass(c, order, now).nodes[name])
  {
    if order != [] {
      CompletedNodesAreKin(c, order[..|order| - 1], now, name);
    }
  }

  /** Kin of one node with the same usage are the same node. */
  lemma KinWithSameUsage(node: Node, a: Node, b: Node)
    requires Kin(node, a) && Kin(node, b) && OneGpu(node.gres) && UsedOf(a) == UsedOf(b)
    requires a.state == Label(a) && b.state == Label(b)
    ensures a == b
  {
    SameShapeFacts(node.gres, a.gres);
    SameShapeFacts(node.gres, b.gres);
    SingleGpu(a.gres);
    SingleGpu(b.gres);
    forall k | 0 <= k < |node.gres| ensures a.gres[k] == b.gres[k] {
      if node.gres[k].name == "gpu" {
        assert k == FirstGpu(a.gres) == FirstGpu(b.gres);
      }
    }
    assert a.gres == b.gres;
  }

  lemma SameBooks(a: Cluster, b: Cluster, node: Node, name: string)
    requires Conserved(a) && Conserved(b) && a.jobs == b.jobs && a.nextJobID == b.nextJobID
    requires name in a.nodes && name in b.nodes && OneGpu(node.gres)
    requires Kin(node, a.nodes[name]) && Kin(node, b.nodes[name])
    ensures a.nodes[name] == b.nodes[name]
  {
    assert NodeOk(name, a.nodes[name], Held(a.jobs, name, a.nextJobID));
    assert NodeOk(name, b.nodes[name], Held(b.jobs, name, b.nextJobID));
    KinWithSameUsage(node, a.nodes[name], b.nodes[name]);
  }

  /** Balanced books determine what each node looks like after the first pass. */
  lemma FirstPassIsOrderFree(c: Cluster, x: seq<int>, y: seq<int>, now: int)
    requires Inv(c) && IsOrder(c, x) && IsOrder(c, y)
    ensures AfterCompletions(c, x, now) == AfterCompletions(c, y, now)
  {
    var a, b := AfterCompletions(c, x, now), AfterCompletions(c, y, now);
    OrderedJobsExist(c, x);
    OrderedJobsExist(c, y);
    CompletePassKeepsInv(c, x, now);
    CompletePassKeepsInv(c, y, now);
    forall id | id in c.jobs ensures a.jobs[id] == b.jobs[id] {
      JobBetween(c, x, now, id);
      JobBetween(c, y, now, id);
    }
    assert a.jobs == b.jobs;
    forall name | name in c.nodes ensures a.nodes[name] == b.nodes[name] {
      assert NodeOk(name, c.nodes[name], Held(c.jobs, name, c.nextJobID));
      CompletedNodesAreKin(c, x, now, name);
      CompletedNodesAreKin(c, y, now, name);
      SameBooks(a, b, c.nodes[name], name);
    }
    assert a.nodes == b.nodes;
  }

  /** After every call, whatever the two orders. */
  ghost predicate EveryCallEndsLater(c: Cluster, now: int) {
    forall first, second :: IsOrder(c, first) && IsOrder(c, second) ==>
      RunningEndLater(Reconcile(c, first, second, now), now)
  }

  /** Every order of both passes, on any store. */
  lemma AnyCallEndsLaterExactly(c: Cluster, now: int)
    requires 0 <= now < 0x8000_0000_0000_0000 && Int64Durations(c)
    ensures EveryCallEndsLater(c, now) <==>
            forall first :: IsOrder(c, first) ==> EveryTurnEndsLater(AfterCompletions(c, first, now), now)
  {
    if EveryCallEndsLater(c, now) {
      forall first | IsOrder(c, first) ensures EveryTurnEndsLater(AfterCompletions(c, first, now), now) {
        RunningEndLaterExactly(c, first, now);
      }
    }
    if forall first :: IsOrder(c, first) ==> EveryTurnEndsLater(AfterCompletions(c, first, now), now) {
      forall first, second | IsOrder(c, first) && IsOrder(c, second)
        ensures RunningEndLater(Reconcile(c, first, second, now), now)
      {
        StartedEndLater(c, first, second, now);
      }
    }
  }

  /**
   On a balanced store, and before the call: in every order of both passes all running jobs end in the future, if and
   only if every pending job for which the expired jobs leave room asks for a positive duration that does not overflow.
   */
  lemma CallsEndLaterExactly(c: Cluster, order: seq<int>, now: int)
    requires Inv(c) && IsOrder(c, order) && 0 <= now < 0x8000_0000_0000_0000 && Int64Durations(c)
    ensures EveryCallEndsLater(c, now) <==> StartableEndLater(AfterCompletions(c, order, now), now)
  {
    AnyCallEndsLaterExactly(c, now);
    BalancedStaysOrderly(c, order, now);
    OrderlyTurnsEndLater(AfterCompletions(c, order, now), now);
    forall first | IsOrder(c, first) ensures AfterCompletions(c, first, now) == AfterCompletions(c, order, now) {
      FirstPassIsOrderFree(c, order, first, now);
    }
  }
}

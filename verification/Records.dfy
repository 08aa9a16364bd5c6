/**
 What the record of a job tells about the run that made it: by which operation the job was submitted, at which tick it
 was started, and why it is in the state it is in.
 */
module Records {
  import opened Cluster
  import opened Options
  import opened Accounting
  import opened Scheduling
  import opened Lifecycle

  // ---------- operations from some position of a run on ----------

  /** Some operation from position lo on cancels the job. */
  predicate CancelledFrom(ops: seq<Op>, lo: nat, id: int) {
    exists j :: lo <= j < |ops| && Cancels(ops[j], id)
  }

  /** Some tick from position lo on. */
  predicate TickFrom(ops: seq<Op>, lo: nat) {
    exists j :: lo <= j < |ops| && ops[j].ReconcileOp?
  }

  predicate TicksAfter(op: Op, end: int) {
    op.ReconcileOp? && op.now >= end
  }

  /** Some tick from position lo on, at or after the given time. */
  predicate TickPast(ops: seq<Op>, lo: nat, end: int) {
    exists j :: lo <= j < |ops| && TicksAfter(ops[j], end)
  }

  /** The rest of a run, one operation later. */
  lemma {:induction false} RestOfRun(c: Cluster, ops: seq<Op>, lo: nat, t: Cluster, id: int)
    requires lo < |ops| && Contiguous(c) && IsRun(c, ops[lo..], t)
    ensures OpOk(c, ops[lo]) && IsRun(Apply(c, ops[lo]), ops[lo + 1..], t) && Contiguous(Apply(c, ops[lo]))
    ensures Apply(c, ops[lo]).partitions == c.partitions
    ensures id in c.jobs ==>
              && id in Apply(c, ops[lo]).jobs
              && Recorded(c, ops[lo], id, c.jobs[id], Apply(c, ops[lo]).jobs[id])
  {
    assert ops[lo..][0] == ops[lo] && ops[lo..][1..] == ops[lo + 1..];
    OperationIds(c, ops[lo]);
    if id in c.jobs {
      OneOperation(c, ops[lo], id);
    }
  }

  // ---------- cancelled jobs ----------

  /** A cancelled job keeps the time of the last cancellation as its end time. */
  lemma {:induction false} FromCancelled(c: Cluster, ops: seq<Op>, lo: nat, t: Cluster, id: int)
    requires lo <= |ops| && Contiguous(c) && IsRun(c, ops[lo..], t) && id in c.jobs && c.jobs[id].state == Cancelled
    requires !CancelledFrom(ops, lo, id)
    ensures id in t.jobs && t.jobs[id] == c.jobs[id]
    decreases |ops| - lo
  {
    hide Reconcile;
    if lo < |ops| {
      RestOfRun(c, ops, lo, t, id);
      assert !Cancels(ops[lo], id);
      FromCancelled(Apply(c, ops[lo]), ops, lo + 1, t, id);
    }
  }

  /** The operation at position q is the last to cancel the job, and the record says when. */
  predicate CancelledAt(ops: seq<Op>, q: nat, id: int, job: Job) {
    && q < |ops| && Cancels(ops[q], id) && !CancelledFrom(ops, q + 1, id)
    && job.state == Cancelled && job.endTime == Amount(ops[q].now, true)
  }

  /** Whatever its state, a job that is cancelled ends as cancelled, at the time of the last cancellation. */
  lemma {:induction false} LastCancelled(c: Cluster, ops: seq<Op>, lo: nat, t: Cluster, id: int) returns (q: nat)
    requires lo <= |ops| && Contiguous(c) && IsRun(c, ops[lo..], t) && id in c.jobs && CancelledFrom(ops, lo, id)
    ensures lo <= q && id in t.jobs && CancelledAt(ops, q, id, t.jobs[id])
    decreases |ops| - lo
  {
    RestOfRun(c, ops, lo, t, id);
    if CancelledFrom(ops, lo + 1, id) {
      q := LastCancelled(Apply(c, ops[lo]), ops, lo + 1, t, id);
    } else {
      q := lo;
      FromCancelled(Apply(c, ops[lo]), ops, lo + 1, t, id);
    }
  }

  // ---------- jobs that are not cancelled ----------

  lemma {:induction false} FromFinished(c: Cluster, ops: seq<Op>, lo: nat, t: Cluster, id: int)
    requires lo <= |ops| && Contiguous(c) && IsRun(c, ops[lo..], t) && id in c.jobs && Finished(c.jobs[id].state)
    requires !CancelledFrom(ops, lo, id)
    ensures id in t.jobs && t.jobs[id] == c.jobs[id]
  {
    FinalExactlyUntilCancelled(c, ops[lo..], t, id);
    forall k | 0 <= k < |ops[lo..]| ensures !Cancels(ops[lo..][k], id) {
      assert ops[lo..][k] == ops[lo + k];
    }
  }

  /** A running job completes exactly if some tick comes at or after its end time. */
  lemma {:induction false} FromRunning(c: Cluster, ops: seq<Op>, lo: nat, t: Cluster, id: int)
    requires lo <= |ops| && Contiguous(c) && IsRun(c, ops[lo..], t) && id in c.jobs && c.jobs[id].state == Running
    requires !CancelledFrom(ops, lo, id)
    ensures id in t.jobs
    ensures t.jobs[id] == if TickPast(ops, lo, c.jobs[id].endTime.number) then c.jobs[id].(state := Completed)
                          else c.jobs[id]
    decreases |ops| - lo
  {
    if lo < |ops| {
      RestOfRun(c, ops, lo, t, id);
      assert !Cancels(ops[lo], id);
      if TicksAfter(ops[lo], c.jobs[id].endTime.number) {
        FromFinished(Apply(c, ops[lo]), ops, lo + 1, t, id);
      } else {
        FromRunning(Apply(c, ops[lo]), ops, lo + 1, t, id);
      }
    }
  }

  // ---------- when a job was started ----------

  /** The operation at position m started the job, or m is the end of the run and nothing did. */
  predicate StartedAt(ops: seq<Op>, m: nat, job: Job) {
    if m < |ops| then ops[m].ReconcileOp? && job.startTime == Amount(ops[m].now, true)
    else m == |ops| && NeverStarted(job)
  }

  /**
   The state and the end time of a job that is not cancelled, given the operations from position lo on, after its
   submission, the position m of its start, and whether its partition is known.
   */
  predicate Explained(ops: seq<Op>, lo: nat, m: nat, known: bool, job: Job) {
    if m < |ops| then
      && known && job.endTime == Amount(Wrap64(ops[m].now + job.duration), true)
      && job.state == if TickPast(ops, m + 1, job.endTime.number) then Completed else Running
    else
      && job.endTime == Amount(0, false)
      && job.state == if !known && TickFrom(ops, lo) then Failed else Pending
  }

  /** Once a job has left PENDING, its node and start time stay as they are. */
  lemma {:induction false} KeepsStart(c: Cluster, ops: seq<Op>, lo: nat, t: Cluster, id: int)
    requires lo <= |ops| && Contiguous(c) && IsRun(c, ops[lo..], t) && id in c.jobs && c.jobs[id].state != Pending
    ensures id in t.jobs && t.jobs[id].nodeList == c.jobs[id].nodeList && t.jobs[id].startTime == c.jobs[id].startTime
  {
    JobHistories(c, ops[lo..], t, id);
  }

  /** A pending job is cancelled, completed, failed, running or still pending for one reason each. */
  lemma {:induction false} FromPending(c: Cluster, ops: seq<Op>, lo: nat, t: Cluster, id: int) returns (m: nat)
    requires lo <= |ops| && Contiguous(c) && IsRun(c, ops[lo..], t) && id in c.jobs && c.jobs[id].state == Pending
    requires NeverStarted(c.jobs[id]) && c.jobs[id].endTime == Amount(0, false)
    ensures id in t.jobs && lo <= m <= |ops| && StartedAt(ops, m, t.jobs[id]) && SameRequest(c.jobs[id], t.jobs[id])
    ensures !CancelledFrom(ops, lo, id) ==>
              Explained(ops, lo, m, c.jobs[id].partition in c.partitions, t.jobs[id])
    decreases |ops| - lo
  {
    hide IsRun, Apply;
    m := |ops|;
    if lo < |ops| {
      RestOfRun(c, ops, lo, t, id);
      var next := Apply(c, ops[lo]);
      if next.jobs[id].state == Pending {
        m := FromPending(next, ops, lo + 1, t, id);
      } else {
        KeepsStart(next, ops, lo + 1, t, id);
        JobHistories(next, ops[lo + 1..], t, id);
        if next.jobs[id].state == Running {
          m := lo;
        }
        if !CancelledFrom(ops, lo, id) {
          assert !Cancels(ops[lo], id);
          if next.jobs[id].state == Running {
            FromRunning(next, ops, lo + 1, t, id);
          } else {
            FromFinished(next, ops, lo + 1, t, id);
          }
        }
      }
    } else {
      EmptyRun(c, ops[lo..], t);
    }
  }

  lemma {:induction false} EmptyRun(c: Cluster, ops: seq<Op>, t: Cluster)
    requires ops == [] && IsRun(c, ops, t)
    ensures c == t
  {
  }

  // ---------- the whole record ----------

  /** The operation submitted the job. */
  predicate Submits(op: Op, job: Job) {
    && op.SubmitOp?
    && job.name == op.name && job.partition == op.partition && job.cpus == op.cpus && job.gpus == op.gpus
    && job.duration == op.duration && job.submitTime == Amount(op.now, true)
    && job.memory.number == op.memory && (job.memory.isSet <==> op.memory > 0)
  }

  /** A job that was not there before the operation is the one it submitted. */
  lemma SubmissionOf(c: Cluster, op: Op, id: int)
    requires Contiguous(c) && OpOk(c, op) && id !in c.jobs && id in Apply(c, op).jobs
    ensures op.SubmitOp? && id == c.nextJobID
    ensures var job := Apply(c, op).jobs[id];
            && job.id == id && Submits(op, job) && job.endTime == Amount(0, false)
            && SubmittedNow(
                 job, op.name, op.partition, op.cpus, op.gpus, op.memory, op.duration, op.now)
  {
    OperationIds(c, op);
  }

  lemma {:induction false} RecordFrom(c: Cluster, ops: seq<Op>, lo: nat, t: Cluster, id: int)
    returns (k: nat, m: nat, q: nat)
    requires lo <= |ops| && Contiguous(c) && IsRun(c, ops[lo..], t) && id !in c.jobs && id in t.jobs
    ensures lo <= k < m <= |ops| && Submits(ops[k], t.jobs[id]) && t.jobs[id].id == id
    ensures Submissions(ops[lo..k]) == id - c.nextJobID && StartedAt(ops, m, t.jobs[id])
    ensures if CancelledFrom(ops, k + 1, id) then k < q && CancelledAt(ops, q, id, t.jobs[id])
            else Explained(ops, k + 1, m, t.jobs[id].partition in c.partitions, t.jobs[id])
    decreases |ops| - lo
  {
    hide IsRun, Apply;
    if lo == |ops| {
      EmptyRun(c, ops[lo..], t);
      assert false;
    } else {
      RestOfRun(c, ops, lo, t, id);
      OperationIds(c, ops[lo]);
      var next := Apply(c, ops[lo]);
      if id in next.jobs {
        SubmissionOf(c, ops[lo], id);
        k, q := lo, lo;
        m := FromPending(next, ops, lo + 1, t, id);
        if CancelledFrom(ops, lo + 1, id) {
          q := LastCancelled(next, ops, lo + 1, t, id);
        }
      } else {
        k, m, q := RecordFrom(next, ops, lo + 1, t, id);
        assert ops[lo..k][0] == ops[lo] && ops[lo..k][1..] == ops[lo + 1..k];
      }
    }
  }

  /**
   The record of every job, after every run from any store with consecutive ids, is the story of the run. It holds the
   request and the time of the job's own submission, the one its id counts. It has a start time exactly if a tick
   started the job, and then that tick's. If the job was cancelled later than submitted, it is CANCELLED, with the time
   of the last cancellation. If not, it is COMPLETED exactly if a tick after its start came at or past its end time,
   RUNNING if it was started and none did, FAILED exactly if its partition is unknown and a tick came after its
   submission, and PENDING otherwise.
   */
  lemma JobRecord(c: Cluster, ops: seq<Op>, t: Cluster, id: int) returns (k: nat, m: nat, q: nat)
    requires Contiguous(c) && IsRun(c, ops, t) && id !in c.jobs && id in t.jobs
    ensures k < m <= |ops| && Submits(ops[k], t.jobs[id]) && Submissions(ops[..k]) == id - c.nextJobID
    ensures t.jobs[id].id == id && StartedAt(ops, m, t.jobs[id])
    ensures if CancelledFrom(ops, k + 1, id) then k < q && CancelledAt(ops, q, id, t.jobs[id])
            else Explained(ops, k + 1, m, t.jobs[id].partition in c.partitions, t.jobs[id])
  {
    assert ops[0..] == ops;
    k, m, q := RecordFrom(c, ops, 0, t, id);
    assert ops[0..k] == ops[..k];
  }
}

/**
 All operations together with the dispatcher and the workers, as a transition
 system: every interleaving of submissions, jobs, reconciles, cancels, resumes and
 process restarts is a run.
 */
module OperationSystem {
  import opened OperationCore
  import opened OperationProtocol

  datatype Sys = Sys(
    ops: map<string, Op>,
    pending: seq<Job>,          // the dispatcher's list
    sent: bool,                 // pending[0] is already in the channel
    jobs: seq<Job>,             // the worker channel
    held: multiset<Job>,        // received by a worker, not yet looked at
    enqueuedLog: seq<Job>,      // history: everything appended to pending by this process
    takenLog: seq<Job>          // history: everything received by its workers
  )

  datatype Event =
    | Submit(id: string, deps: seq<seq<nat>>)
    | Activate(id: string)
    | TakeSnapshot(id: string)
    | Enqueue(id: string, snapshot: seq<StepRow>)
    | Send
    | Pop
    | Receive
    | Begin(job: Job)
    | Finish(job: Job, outcome: Outcome)
    | Reconcile(id: string)
    | Cancel(id: string)
    | Resume(id: string, step: nat, token: string, hasExecutor: bool)
    | Restart(cut: Cut)

  const MAX_STEPS := 32

  ghost predicate ValidDeps(deps: seq<seq<nat>>) {
    var steps := Submitted(deps).slice.row.steps;
    0 < |deps| <= MAX_STEPS && WellFormed(steps) && Acyclic(steps)
  }

  /** Jobs on the dispatcher's list that are not in the channel yet. */
  function Rest(s: Sys): seq<Job> { if s.sent && s.pending != [] then s.pending[1..] else s.pending }

  /** The section that a cut interrupts can be under way; only one is, since all of them hold the same lock. */
  predicate CanDie(s: Sys, cut: Cut) {
    match cut
    case Between => true
    case InBegin(job) => job in s.held && job.op in s.ops
    case InCancel(id) => id in s.ops
    case InSkips(id, _) => id in s.ops && s.ops[id].reconcileDue > 0
  }

  ghost predicate Enabled(s: Sys, e: Event, capacity: nat) {
    match e
    case Submit(id, deps) => id !in s.ops && ValidDeps(deps)
    case Activate(id) => id in s.ops && s.ops[id].activateDue
    case TakeSnapshot(id) => id in s.ops && s.ops[id].enqueueDue > 0
    case Enqueue(id, snapshot) => id in s.ops && snapshot in s.ops[id].snapshots
    case Send => !s.sent && s.pending != [] && |s.jobs| < capacity
    case Pop => s.sent && s.pending != []
    case Receive => s.jobs != []
    case Begin(job) => job in s.held && job.op in s.ops
    case Finish(job, _) => job.op in s.ops && job.step in s.ops[job.op].executing && job.step < |s.ops[job.op].slice.row.steps|
    case Reconcile(id) => id in s.ops && s.ops[id].reconcileDue > 0
    case Cancel(id) => id in s.ops
    case Resume(id, _, _, _) => id in s.ops
    case Restart(cut) => CanDie(s, cut)
  }

  ghost function Apply(s: Sys, e: Event, capacity: nat): Sys
    requires Enabled(s, e, capacity)
  {
    match e
    case Submit(id, deps) => s.(ops := s.ops[id := Submitted(deps)])
    case Activate(id) => s.(ops := s.ops[id := Activated(s.ops[id])])
    case TakeSnapshot(id) => s.(ops := s.ops[id := SnapshotTaken(s.ops[id])])
    case Enqueue(id, snapshot) =>
      var r := Enqueued(s.ops[id], snapshot);
      s.(ops := s.ops[id := r.0], pending := s.pending + JobsOf(id, r.1), enqueuedLog := s.enqueuedLog + JobsOf(id, r.1))
    case Send => s.(jobs := s.jobs + [s.pending[0]], sent := true)
    case Pop => s.(pending := s.pending[1..], sent := false)
    case Receive => s.(jobs := s.jobs[1..], held := s.held + multiset{s.jobs[0]}, takenLog := s.takenLog + [s.jobs[0]])
    case Begin(job) => s.(ops := s.ops[job.op := Begun(s.ops[job.op], job.step)], held := s.held - multiset{job})
    case Finish(job, outcome) => s.(ops := s.ops[job.op := Finished(s.ops[job.op], job.step, outcome)])
    case Reconcile(id) => s.(ops := s.ops[id := Reconciled(s.ops[id])])
    case Cancel(id) => s.(ops := s.ops[id := CancelCalled(s.ops[id])])
    case Resume(id, step, token, hasExecutor) => s.(ops := s.ops[id := Resumed(s.ops[id], step, token, hasExecutor)])
    case Restart(cut) => Sys(map id | id in s.ops :: Restarted(CutShort(s.ops[id], cut, id)), [], false, [], multiset{}, [], [])
  }

  const INITIAL := Sys(map[], [], false, [], multiset{}, [], [])

  // ---------------------------------------------------------------- invariant

  /** The step has a job on the dispatcher's list, in the channel, or in a worker's hands. */
  predicate HasJob(s: Sys, job: Job) { job in Rest(s) || job in s.jobs || job in s.held }

  function Out(s: Sys, id: string): set<nat> {
    (set j | j in Rest(s) && j.op == id :: j.step) + (set j | j in s.jobs && j.op == id :: j.step)
    + (set j | j in s.held && j.op == id :: j.step)
  }

  lemma OutMeansJob(s: Sys, id: string)
    ensures forall i: nat :: i in Out(s, id) <==> HasJob(s, Job(id, i))
  {
    forall i: nat | HasJob(s, Job(id, i)) ensures i in Out(s, id) {
      assert Job(id, i).op == id && Job(id, i).step == i;
    }
  }

  /** What was put in comes out, in order, once. */
  predicate Fifo(s: Sys) {
    (s.sent ==> s.pending != []) && s.enqueuedLog == s.takenLog + s.jobs + Rest(s)
  }

  ghost predicate SysInv(s: Sys) {
    && Fifo(s)
    && (forall job | HasJob(s, job) :: job.op in s.ops)
    && (forall id | id in s.ops :: OpInv(s.ops[id], Out(s, id)))
  }

  /** The parts of the invariant, for one operation. */
  lemma InvOf(s: Sys, id: string)
    requires SysInv(s) && id in s.ops
    ensures var o := s.ops[id]; var out := Out(s, id);
      OpInv(o, out) && Layout(o) && Executing(o) && Ordered(o, out) && Closed(o) && Counted(o) && Scheduled(o, out)
  {
    hide Layout, Executing, Ordered, Closed, Counted, Scheduled, Accurate, Out;
  }

  /** Operations keep their invariant while no job of theirs appears or disappears. */
  lemma SameJobs(s: Sys, t: Sys, id: string)
    requires forall i: nat :: HasJob(s, Job(id, i)) <==> HasJob(t, Job(id, i))
    ensures Out(s, id) == Out(t, id)
  {
    OutMeansJob(s, id);
    OutMeansJob(t, id);
    hide Out, HasJob;
    assert forall i :: i in Out(s, id) <==> i in Out(t, id);
  }

  lemma SendKeepsFifo(s: Sys, capacity: nat)
    requires Fifo(s) && Enabled(s, Send, capacity)
    ensures Fifo(Apply(s, Send, capacity))
  {
    assert s.pending == [s.pending[0]] + s.pending[1..];
    assert s.takenLog + s.jobs + ([s.pending[0]] + s.pending[1..]) == s.takenLog + (s.jobs + [s.pending[0]]) + s.pending[1..];
  }

  lemma ReceiveKeepsFifo(s: Sys, capacity: nat)
    requires Fifo(s) && Enabled(s, Receive, capacity)
    ensures Fifo(Apply(s, Receive, capacity))
  {
    assert s.jobs == [s.jobs[0]] + s.jobs[1..];
    assert s.takenLog + ([s.jobs[0]] + s.jobs[1..]) + Rest(s) == (s.takenLog + [s.jobs[0]]) + s.jobs[1..] + Rest(s);
  }

  lemma QueueKeepsFifo(s: Sys, e: Event, capacity: nat)
    requires Fifo(s) && Enabled(s, e, capacity) && (e.Send? || e.Pop? || e.Receive?)
    ensures Fifo(Apply(s, e, capacity)) && Apply(s, e, capacity).ops == s.ops
  {
    if e.Send? {
      SendKeepsFifo(s, capacity);
    } else if e.Receive? {
      ReceiveKeepsFifo(s, capacity);
    }
  }

  lemma QueueKeepsJobs(s: Sys, e: Event, capacity: nat, job: Job)
    requires Fifo(s) && Enabled(s, e, capacity) && (e.Send? || e.Pop? || e.Receive?)
    ensures HasJob(Apply(s, e, capacity), job) <==> HasJob(s, job)
  {
    match e {
      case Send => assert s.pending == [s.pending[0]] + s.pending[1..];
      case Pop =>
      case Receive => assert s.jobs == [s.jobs[0]] + s.jobs[1..];
      case _ =>
    }
  }

  /** The dispatcher and the channel only move jobs around. */
  lemma QueueMoves(s: Sys, e: Event, capacity: nat)
    requires SysInv(s) && Enabled(s, e, capacity) && (e.Send? || e.Pop? || e.Receive?)
    ensures SysInv(Apply(s, e, capacity))
  {
    hide OpInv, HasJob, Out, Fifo, Enabled, Apply, Rest;
    var t := Apply(s, e, capacity);
    QueueKeepsFifo(s, e, capacity);
    forall job ensures HasJob(t, job) <==> HasJob(s, job) { QueueKeepsJobs(s, e, capacity, job); }
    SameJobsEverywhere(s, t);
  }

  lemma SameJobsEverywhere(s: Sys, t: Sys)
    requires SysInv(s) && Fifo(t) && t.ops == s.ops
    requires forall job :: HasJob(t, job) <==> HasJob(s, job)
    ensures SysInv(t)
  {
    hide OpInv, HasJob, Out, Fifo, Rest;
    forall id | id in t.ops ensures OpInv(t.ops[id], Out(t, id)) {
      SameJobs(s, t, id);
    }
  }

  /** One operation changes and no job moves. */
  lemma OneOpMoves(s: Sys, t: Sys, id: string)
    requires SysInv(s) && t == s.(ops := t.ops)
    requires id in t.ops && t.ops == s.ops[id := t.ops[id]]
    requires OpInv(t.ops[id], Out(s, id))
    ensures SysInv(t)
  {
    hide OpInv;
    assert forall job :: HasJob(t, job) <==> HasJob(s, job);
    forall i | i in t.ops ensures OpInv(t.ops[i], Out(t, i)) {
      SameJobs(s, t, i);
    }
  }

  /** Appending jobs of one operation. */
  lemma EnqueueMoves(s: Sys, id: string, snapshot: seq<StepRow>, capacity: nat)
    requires SysInv(s) && Enabled(s, Enqueue(id, snapshot), capacity)
    ensures SysInv(Apply(s, Enqueue(id, snapshot), capacity))
  {
    var t := Apply(s, Enqueue(id, snapshot), capacity);
    var steps := Enqueued(s.ops[id], snapshot).1;
    hide OpInv, Enqueued, HasJob, Out, Rest, Fifo;
    EnqueuedInv(s.ops[id], Out(s, id), snapshot);
    AppendedJobs(s, t, id, steps);
    OthersUntouched(s, t, id);
  }

  lemma AppendedJobs(s: Sys, t: Sys, id: string, steps: seq<nat>)
    requires Fifo(s)
    requires t.pending == s.pending + JobsOf(id, steps) && t.enqueuedLog == s.enqueuedLog + JobsOf(id, steps)
    requires t.jobs == s.jobs && t.held == s.held && t.sent == s.sent && t.takenLog == s.takenLog
    ensures Fifo(t)
    ensures forall job :: HasJob(t, job) <==> HasJob(s, job) || (job.op == id && job.step in steps)
    ensures Out(t, id) == Out(s, id) + Members(steps)
  {
    assert Rest(t) == Rest(s) + JobsOf(id, steps);
    hide Out, Rest, JobsOf;
    JobsOfMembers(id, steps);
    assert forall job :: HasJob(t, job) <==> HasJob(s, job) || job in JobsOf(id, steps);
    hide HasJob;
    OutGrows(s, t, id, steps);
  }

  lemma OutGrows(s: Sys, t: Sys, id: string, steps: seq<nat>)
    requires forall k: nat :: HasJob(t, Job(id, k)) <==> HasJob(s, Job(id, k)) || k in steps
    ensures Out(t, id) == Out(s, id) + Members(steps)
  {
    hide Out, HasJob;
    OutMeansJob(s, id);
    OutMeansJob(t, id);
    assert forall k :: k in Out(t, id) <==> k in Out(s, id) || k in steps;
  }

  lemma JobsOfMembers(id: string, steps: seq<nat>)
    ensures forall job :: job in JobsOf(id, steps) <==> job.op == id && job.step in steps
  {
    forall job: Job | job.op == id && job.step in steps ensures job in JobsOf(id, steps) {
      var k :| 0 <= k < |steps| && steps[k] == job.step;
      assert JobsOf(id, steps)[k] == job;
    }
  }

  lemma SameQueue(s: Sys, t: Sys)
    requires t.pending == s.pending && t.sent == s.sent
    ensures Rest(t) == Rest(s)
  {
  }

  lemma BeginMoves(s: Sys, job: Job, capacity: nat)
    requires SysInv(s) && Enabled(s, Begin(job), capacity)
    ensures SysInv(Apply(s, Begin(job), capacity))
  {
    hide OpInv, Begun, HasJob, Out, Rest;
    var t := Apply(s, Begin(job), capacity);
    assert job in s.held && job.op in s.ops;
    assert t.pending == s.pending && t.jobs == s.jobs && t.sent == s.sent && t.held == s.held - multiset{job};
    assert t.ops == s.ops[job.op := Begun(s.ops[job.op], job.step)];
    assert Fifo(t) by { assert Rest(t) == Rest(s) by { SameQueue(s, t); } }
    hide Enabled, Apply, Fifo;
    TakenJob(s, t, job);
    BegunInv(s.ops[job.op], Out(s, job.op), job.step, Out(t, job.op));
    OthersUntouched(s, t, job.op);
  }

  /** Only one operation changed, and only its jobs moved. */
  lemma OthersUntouched(s: Sys, t: Sys, id: string)
    requires SysInv(s) && Fifo(t) && id in t.ops && t.ops == s.ops[id := t.ops[id]]
    requires forall job: Job | job.op != id :: HasJob(t, job) <==> HasJob(s, job)
    requires OpInv(t.ops[id], Out(t, id))
    ensures SysInv(t)
  {
    hide OpInv, HasJob, Out, Rest, Fifo;
    forall i | i in t.ops ensures OpInv(t.ops[i], Out(t, i)) {
      if i != id {
        SameJobs(s, t, i);
      }
    }
  }

  lemma TakenJob(s: Sys, t: Sys, job: Job)
    requires job in s.held && t.held == s.held - multiset{job}
    requires t.pending == s.pending && t.jobs == s.jobs && t.sent == s.sent
    ensures forall other :: HasJob(t, other) ==> HasJob(s, other)
    ensures forall other | other != job :: HasJob(t, other) <==> HasJob(s, other)
    ensures job.step in Out(s, job.op)
    ensures Out(s, job.op) - {job.step} <= Out(t, job.op) <= Out(s, job.op)
  {
    OutMeansJob(s, job.op);
    OutMeansJob(t, job.op);
    assert HasJob(s, Job(job.op, job.step));
    hide Out;
  }

  lemma SubmitMoves(s: Sys, id: string, deps: seq<seq<nat>>, capacity: nat)
    requires SysInv(s) && Enabled(s, Submit(id, deps), capacity)
    ensures SysInv(Apply(s, Submit(id, deps), capacity))
  {
    SubmittedInv(deps);
    OutMeansJob(s, id);
    assert Out(s, id) == {};
    OneOpMoves(s, Apply(s, Submit(id, deps), capacity), id);
  }

  lemma CutIsPossible(s: Sys, cut: Cut, id: string)
    requires id in s.ops && CanDie(s, cut)
    ensures CanCut(s.ops[id], Out(s, id), cut, id)
  {
    OutMeansJob(s, id);
    if cut.InBegin? && cut.job.op == id { assert HasJob(s, Job(id, cut.job.step)); }
  }

  lemma RestartMoves(s: Sys, cut: Cut, capacity: nat)
    requires SysInv(s) && Enabled(s, Restart(cut), capacity)
    ensures SysInv(Apply(s, Restart(cut), capacity))
  {
    hide OpInv, Restarted, CutShort, Out, CanCut, CanDie;
    assert CanDie(s, cut);
    var t := Apply(s, Restart(cut), capacity);
    assert t.ops == map id | id in s.ops :: Restarted(CutShort(s.ops[id], cut, id));
    assert Fifo(t) && forall job :: !HasJob(t, job);
    hide Apply, Enabled, HasJob, Fifo, Rest;
    forall id | id in t.ops ensures OpInv(t.ops[id], Out(t, id)) {
      CutIsPossible(s, cut, id);
      RestartedInv(s.ops[id], Out(s, id), cut, id);
      OutMeansJob(t, id);
      assert Out(t, id) == {};
    }
  }

  /** Every step of the system keeps the invariant. */
  lemma StepKeepsInv(s: Sys, e: Event, capacity: nat)
    requires SysInv(s) && Enabled(s, e, capacity)
    ensures SysInv(Apply(s, e, capacity))
  {
    var t := Apply(s, e, capacity);
    hide SysInv, Out;
    match e {
      case Submit(id, deps) => SubmitMoves(s, id, deps, capacity);
      case Enqueue(id, snapshot) => EnqueueMoves(s, id, snapshot, capacity);
      case Begin(job) => BeginMoves(s, job, capacity);
      case Restart(cut) => RestartMoves(s, cut, capacity);
      case Send => QueueMoves(s, e, capacity);
      case Pop => QueueMoves(s, e, capacity);
      case Receive => QueueMoves(s, e, capacity);
      case _ => SimpleMoves(s, e, capacity);
    }
  }

  lemma SimpleMoves(s: Sys, e: Event, capacity: nat)
    requires SysInv(s) && Enabled(s, e, capacity)
    requires e.Activate? || e.TakeSnapshot? || e.Finish? || e.Reconcile? || e.Cancel? || e.Resume?
    ensures SysInv(Apply(s, e, capacity))
  {
    var t := Apply(s, e, capacity);
    hide OpInv, Out;
    match e {
      case Activate(id) =>
        ActivatedInv(s.ops[id], Out(s, id));
        OneOpMoves(s, t, id);
      case TakeSnapshot(id) =>
        SnapshotTakenInv(s.ops[id], Out(s, id));
        OneOpMoves(s, t, id);
      case Finish(job, outcome) =>
        FinishedInv(s.ops[job.op], Out(s, job.op), job.step, outcome);
        OneOpMoves(s, t, job.op);
      case Reconcile(id) =>
        ReconciledInv(s.ops[id], Out(s, id));
        OneOpMoves(s, t, id);
      case Cancel(id) =>
        CancelCalledInv(s.ops[id], Out(s, id));
        OneOpMoves(s, t, id);
      case Resume(id, step, token, hasExecutor) =>
        ResumedInv(s.ops[id], Out(s, id), step, token, hasExecutor);
        OneOpMoves(s, t, id);
      case _ =>
    }
  }
}

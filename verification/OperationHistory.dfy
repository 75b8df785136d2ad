/**
 What holds over whole runs of the operation service.
 */
module OperationHistory {
  import opened OperationCore
  import opened OperationProtocol
  import opened OperationSystem

  /** Event `i` of the run is allowed where it happens, and leads to the next state. */
  ghost predicate RunStep(states: seq<Sys>, events: seq<Event>, capacity: nat, i: nat)
    requires |states| == |events| + 1 && i < |events|
  {
    Enabled(states[i], events[i], capacity) && states[i + 1] == Apply(states[i], events[i], capacity)
  }

  ghost predicate Run(states: seq<Sys>, events: seq<Event>, capacity: nat) {
    && |states| == |events| + 1 && states[0] == INITIAL
    && forall i | 0 <= i < |events| :: RunStep(states, events, capacity, i)
  }

  lemma InitialInv()
    ensures SysInv(INITIAL)
  {
  }

  lemma {:induction false} RunKeepsInv(states: seq<Sys>, events: seq<Event>, capacity: nat, n: nat)
    requires Run(states, events, capacity) && n < |states|
    ensures SysInv(states[n])
  {
    InitialInv();
    hide SysInv, Enabled, Apply;
    if n > 0 {
      RunKeepsInv(states, events, capacity, n - 1);
      assert RunStep(states, events, capacity, n - 1);
      StepKeepsInv(states[n - 1], events[n - 1], capacity);
    }
  }

  // ------------------------------------------------------- what never changes

  /** Settled steps and terminal operations stay as they are. */
  predicate Continues(o: Op, p: Op) {
    Evolves(o.slice.row.steps, p.slice.row.steps)
    && (Terminal(o.slice.row.state) ==> p.slice.row.state == o.slice.row.state)
  }

  lemma SameRowContinues(o: Op, p: Op)
    requires o.slice.row == p.slice.row
    ensures Continues(o, p)
  {
  }

  lemma BegunContinues(o: Op, step: nat) ensures Continues(o, Begun(o, step)) {}

  lemma FinishedContinues(o: Op, step: nat, outcome: Outcome)
    requires Executing(o) && step in o.executing && step < |o.slice.row.steps|
    ensures Continues(o, Finished(o, step, outcome))
  {
  }

  lemma ReconciledContinues(o: Op)
    requires o.reconcileDue > 0
    ensures Continues(o, Reconciled(o))
  {
  }

  lemma CancelCalledContinues(o: Op) ensures Continues(o, CancelCalled(o)) {}

  lemma ResumedContinues(o: Op, step: nat, token: string, hasExecutor: bool)
    ensures Continues(o, Resumed(o, step, token, hasExecutor))
  {
  }

  lemma RestartedContinues(o: Op, cut: Cut, id: string)
    ensures Continues(o, Restarted(CutShort(o, cut, id)))
  {
    hide Continues, CutShort, Restarted;
    var p := CutShort(o, cut, id);
    CutContinues(o, cut, id);
    RecoveryContinues(p);
    ContinuesTransitive(o, p, Restarted(p));
  }

  lemma CutContinues(o: Op, cut: Cut, id: string)
    ensures Continues(o, CutShort(o, cut, id))
  {
    var p := CutShort(o, cut, id);
    assert p.slice.row.state == o.slice.row.state;
    assert Evolves(o.slice.row.steps, p.slice.row.steps);
  }

  lemma RecoveryContinues(o: Op) ensures Continues(o, Restarted(o)) {}

  /** What one event makes of one operation. */
  function OpAfter(o: Op, e: Event, id: string): Op {
    match e
    case Activate(r) => if r == id then Activated(o) else o
    case TakeSnapshot(r) => if r == id && o.enqueueDue > 0 then SnapshotTaken(o) else o
    case Enqueue(r, snapshot) => if r == id then Enqueued(o, snapshot).0 else o
    case Begin(job) => if job.op == id then Begun(o, job.step) else o
    case Finish(job, outcome) =>
      if job.op == id && job.step < |o.slice.row.steps| then Finished(o, job.step, outcome) else o
    case Reconcile(r) => if r == id && o.reconcileDue > 0 then Reconciled(o) else o
    case Cancel(r) => if r == id then CancelCalled(o) else o
    case Resume(r, step, token, hasExecutor) => if r == id then Resumed(o, step, token, hasExecutor) else o
    case Restart(cut) => Restarted(CutShort(o, cut, id))
    case _ => o
  }

  lemma ApplyIsOpAfter(s: Sys, e: Event, capacity: nat, id: string)
    requires Enabled(s, e, capacity) && id in s.ops
    ensures id in Apply(s, e, capacity).ops && Apply(s, e, capacity).ops[id] == OpAfter(s.ops[id], e, id)
  {
    hide Begun, Finished, Reconciled, CancelCalled, Resumed, Restarted, CutShort, Enqueued, SnapshotTaken, Activated, Submitted;
  }

  lemma OpAfterContinues(o: Op, e: Event, id: string)
    requires Executing(o) && (e.Finish? && e.job.op == id ==> e.job.step in o.executing)
    ensures Continues(o, OpAfter(o, e, id))
  {
    hide Continues, Executing, Begun, Finished, Reconciled, CancelCalled, Resumed, Restarted, CutShort;
    SameRowContinues(o, o);
    match e {
      case Begin(job) => BegunContinues(o, job.step);
      case Finish(job, outcome) =>
        if job.op == id && job.step < |o.slice.row.steps| { FinishedContinues(o, job.step, outcome); }
      case Reconcile(r) => if o.reconcileDue > 0 { ReconciledContinues(o); }
      case Cancel(r) => CancelCalledContinues(o);
      case Resume(r, step, token, hasExecutor) => ResumedContinues(o, step, token, hasExecutor);
      case Restart(cut) => RestartedContinues(o, cut, id);
      case _ => SameRowContinues(o, OpAfter(o, e, id));
    }
  }

  lemma FinishedIsExecuting(s: Sys, e: Event, capacity: nat, id: string)
    requires Enabled(s, e, capacity) && id in s.ops
    ensures e.Finish? && e.job.op == id ==> e.job.step in s.ops[id].executing
  {
  }

  lemma SystemStepContinues(s: Sys, e: Event, capacity: nat, id: string)
    requires SysInv(s) && Enabled(s, e, capacity) && id in s.ops
    ensures id in Apply(s, e, capacity).ops && Continues(s.ops[id], Apply(s, e, capacity).ops[id])
  {
    hide *;
    FinishedIsExecuting(s, e, capacity, id);
    InvOf(s, id);
    ApplyIsOpAfter(s, e, capacity, id);
    OpAfterContinues(s.ops[id], e, id);
  }

  lemma ContinuesTransitive(o: Op, p: Op, q: Op)
    requires Continues(o, p) && Continues(p, q)
    ensures Continues(o, q)
  {
  }

  /** Across a whole run, restarts included, no settled step and no terminal operation ever changes. */
  lemma {:induction false} RunContinues(states: seq<Sys>, events: seq<Event>, capacity: nat, i: nat, j: nat, id: string)
    requires Run(states, events, capacity) && i <= j < |states| && id in states[i].ops
    ensures id in states[j].ops && Continues(states[i].ops[id], states[j].ops[id])
    decreases j
  {
    hide SysInv, Enabled, Apply, Continues;
    if i < j {
      RunContinues(states, events, capacity, i, j - 1, id);
      RunKeepsInv(states, events, capacity, j - 1);
      assert RunStep(states, events, capacity, j - 1);
      SystemStepContinues(states[j - 1], events[j - 1], capacity, id);
      ContinuesTransitive(states[i].ops[id], states[j - 1].ops[id], states[j].ops[id]);
    } else {
      SameRowContinues(states[i].ops[id], states[i].ops[id]);
    }
  }

  // ------------------------------------------------------------------- safety

  /** The event puts the step into running, even if the process dies with it. */
  predicate Starts(s: Sys, e: Event, job: Job) {
    (e == Begin(job) || e == Restart(InBegin(job))) && job.op in s.ops && BeginSection(s.ops[job.op].slice, job.step).1
  }

  /** The event is an accepted resume of the step. */
  predicate AcceptsResume(s: Sys, e: Event, job: Job) {
    e.Resume? && e.id == job.op && e.step == job.step && job.op in s.ops
    && ResumeSection(s.ops[job.op].slice, e.step, e.token, e.hasExecutor).Accepted?
  }

  /** A step starts only when its dependencies have succeeded, and they stay succeeded for the rest of the run. */
  lemma StartsAfterDependencies(states: seq<Sys>, events: seq<Event>, capacity: nat, i: nat, job: Job, j: nat)
    requires Run(states, events, capacity) && i < |events| && Starts(states[i], events[i], job)
    requires i <= j < |states|
    ensures job.op in states[j].ops && job.step < |states[j].ops[job.op].slice.row.steps|
    ensures DepsSucceeded(states[j].ops[job.op].slice.row.steps, job.step)
  {
    var s := states[i];
    assert RunStep(states, events, capacity, i);
    assert job in s.held && job == Job(job.op, job.step);
    hide SysInv, Enabled, Apply, Starts, DepsSucceeded, Continues, Out;
    RunKeepsInv(states, events, capacity, i);
    JobInRange(s, job);
    RunContinues(states, events, capacity, i, j, job.op);
    DependenciesStay(s.ops[job.op], states[j].ops[job.op], Out(s, job.op), job.step);
  }

  lemma JobInRange(s: Sys, job: Job)
    requires SysInv(s) && job in s.held && job.op in s.ops
    ensures job.step in Out(s, job.op) && Ordered(s.ops[job.op], Out(s, job.op))
  {
    InvOf(s, job.op);
    OutMeansJob(s, job.op);
    assert HasJob(s, Job(job.op, job.step));
    hide *;
  }

  lemma DependenciesStay(o: Op, p: Op, out: set<nat>, step: nat)
    requires Ordered(o, out) && step in out && Continues(o, p)
    ensures step < |p.slice.row.steps| && DepsSucceeded(p.slice.row.steps, step)
  {
    EvolvesKeeps(o.slice.row.steps, p.slice.row.steps);
  }

  function CountStarts(states: seq<Sys>, events: seq<Event>, job: Job, n: nat): nat
    requires n <= |events| && n <= |states|
  {
    if n == 0 then 0
    else CountStarts(states, events, job, n - 1) + if Starts(states[n - 1], events[n - 1], job) then 1 else 0
  }

  function CountResumes(states: seq<Sys>, events: seq<Event>, job: Job, n: nat): nat
    requires n <= |events| && n <= |states|
  {
    if n == 0 then 0
    else CountResumes(states, events, job, n - 1) + if AcceptsResume(states[n - 1], events[n - 1], job) then 1 else 0
  }

  lemma CountsUnroll(states: seq<Sys>, events: seq<Event>, job: Job, n: nat)
    requires n <= |events| && n <= |states|
    ensures CountStarts(states, events, job, 0) == 0 && CountResumes(states, events, job, 0) == 0
    ensures n > 0 ==> (CountStarts(states, events, job, n) ==
      CountStarts(states, events, job, n - 1) + if Starts(states[n - 1], events[n - 1], job) then 1 else 0)
    ensures n > 0 ==> (CountResumes(states, events, job, n) ==
      CountResumes(states, events, job, n - 1) + if AcceptsResume(states[n - 1], events[n - 1], job) then 1 else 0)
  {
    hide Starts, AcceptsResume;
  }

  lemma AbsentDoesNothing(s: Sys, e: Event, job: Job)
    requires job.op !in s.ops
    ensures !Starts(s, e, job) && !AcceptsResume(s, e, job)
  {
  }

  predicate HistoryIs(o: Op, step: nat, runs: nat, resumes: nat) {
    step < |o.runs| && step < |o.resumes| && o.runs[step] == runs && o.resumes[step] == resumes
  }

  /** Nothing is counted before the operation exists. */
  lemma {:induction false} NoCountBeforeSubmit(states: seq<Sys>, events: seq<Event>, capacity: nat, job: Job, n: nat)
    requires Run(states, events, capacity) && n < |states| && job.op !in states[n].ops
    ensures CountStarts(states, events, job, n) == 0 && CountResumes(states, events, job, n) == 0
  {
    hide Enabled, Apply, OpAfter, Starts, AcceptsResume, CountStarts, CountResumes;
    CountsUnroll(states, events, job, n);
    if n > 0 {
      var s, e := states[n - 1], events[n - 1];
      assert RunStep(states, events, capacity, n - 1);
      if job.op in s.ops {
        ApplyIsOpAfter(s, e, capacity, job.op);
      }
      AbsentDoesNothing(s, e, job);
      NoCountBeforeSubmit(states, events, capacity, job, n - 1);
    }
  }

  lemma OpAfterCounts(s: Sys, e: Event, job: Job, runs: nat, resumes: nat)
    requires job.op in s.ops && HistoryIs(s.ops[job.op], job.step, runs, resumes)
    requires |s.ops[job.op].runs| == |s.ops[job.op].resumes| == |s.ops[job.op].slice.row.steps|
    ensures HistoryIs(OpAfter(s.ops[job.op], e, job.op), job.step,
      runs + (if Starts(s, e, job) then 1 else 0), resumes + (if AcceptsResume(s, e, job) then 1 else 0))
  {
    var o, id := s.ops[job.op], job.op;
    assert !e.Begin? && !e.Restart? ==> !Starts(s, e, job);
    assert !e.Resume? ==> !AcceptsResume(s, e, job);
    if !e.Begin? && !e.Resume? && !e.Restart? {
      OthersKeepHistory(o, e, id, job.step, runs, resumes);
    } else {
      RunsAndResumesCount(s, e, job, runs, resumes);
    }
    hide *;
  }

  lemma RunsAndResumesCount(s: Sys, e: Event, job: Job, runs: nat, resumes: nat)
    requires job.op in s.ops && HistoryIs(s.ops[job.op], job.step, runs, resumes) && (e.Begin? || e.Resume? || e.Restart?)
    ensures HistoryIs(OpAfter(s.ops[job.op], e, job.op), job.step,
      runs + (if Starts(s, e, job) then 1 else 0), resumes + (if AcceptsResume(s, e, job) then 1 else 0))
  {
    var o, id := s.ops[job.op], job.op;
    hide Begun, Resumed, CutShort, Restarted, BeginSection, ResumeSection, HistoryIs,
      Activated, SnapshotTaken, Enqueued, Finished, Reconciled, CancelCalled;
    assert Job(job.op, job.step) == job;
    match e {
      case Begin(other) => BegunCounts(o, other.step, job.step, runs, resumes);
      case Resume(r, step, token, hasExecutor) => ResumedCounts(o, step, token, hasExecutor, job.step, runs, resumes);
      case Restart(cut) => CutCounts(o, cut, id, job.step, runs, resumes);
      case _ =>
    }
  }

  lemma BegunCounts(o: Op, step: nat, i: nat, runs: nat, resumes: nat)
    requires HistoryIs(o, i, runs, resumes)
    ensures HistoryIs(Begun(o, step), i, runs + (if step == i && BeginSection(o.slice, step).1 then 1 else 0), resumes)
  {
    hide BeginSection;
  }

  lemma ResumedCounts(o: Op, step: nat, token: string, hasExecutor: bool, i: nat, runs: nat, resumes: nat)
    requires HistoryIs(o, i, runs, resumes)
    ensures HistoryIs(Resumed(o, step, token, hasExecutor), i, runs,
      resumes + (if step == i && ResumeSection(o.slice, step, token, hasExecutor).Accepted? then 1 else 0))
  {
    hide ResumeSection;
  }

  lemma CutCounts(o: Op, cut: Cut, id: string, i: nat, runs: nat, resumes: nat)
    requires HistoryIs(o, i, runs, resumes)
    ensures HistoryIs(Restarted(CutShort(o, cut, id)), i,
      runs + (if cut == InBegin(Job(id, i)) && BeginSection(o.slice, i).1 then 1 else 0), resumes)
  {
    hide RecoverRow, SkipPart, CancelSteps;
  }

  lemma OthersKeepHistory(o: Op, e: Event, id: string, i: nat, runs: nat, resumes: nat)
    requires HistoryIs(o, i, runs, resumes) && !e.Begin? && !e.Resume? && !e.Restart?
    ensures HistoryIs(OpAfter(o, e, id), i, runs, resumes)
  {
    hide FinishSection, ReconcileSection, CancelSection, EnqueueSection;
  }

  lemma CountsAfterStep(s: Sys, e: Event, capacity: nat, job: Job, runs: nat, resumes: nat)
    requires SysInv(s) && Enabled(s, e, capacity)
    requires job.op in s.ops && HistoryIs(s.ops[job.op], job.step, runs, resumes)
    ensures job.op in Apply(s, e, capacity).ops
    ensures HistoryIs(Apply(s, e, capacity).ops[job.op], job.step,
      runs + (if Starts(s, e, job) then 1 else 0), resumes + (if AcceptsResume(s, e, job) then 1 else 0))
  {
    hide SysInv, Enabled, Apply, OpAfter, Starts, AcceptsResume, HistoryIs, OpInv, Out;
    InvOf(s, job.op);
    ApplyIsOpAfter(s, e, capacity, job.op);
    OpAfterCounts(s, e, job, runs, resumes);
  }

  lemma CountsAfterSubmit(s: Sys, e: Event, capacity: nat, job: Job)
    requires Enabled(s, e, capacity) && job.op !in s.ops && job.op in Apply(s, e, capacity).ops
    requires job.step < |Apply(s, e, capacity).ops[job.op].slice.row.steps|
    ensures HistoryIs(Apply(s, e, capacity).ops[job.op], job.step, 0, 0)
    ensures !Starts(s, e, job) && !AcceptsResume(s, e, job)
  {
    hide Begun, Finished, Reconciled, CancelCalled, Resumed, Restarted, CutShort, Enqueued, SnapshotTaken, Activated;
    assert e.Submit? && e.id == job.op;
  }

  lemma CountsAfterEvent(s: Sys, e: Event, capacity: nat, job: Job, runs: nat, resumes: nat)
    requires SysInv(s) && Enabled(s, e, capacity)
    requires Tracked(Apply(s, e, capacity), job)
    requires Tracked(s, job) ==> HistoryIs(s.ops[job.op], job.step, runs, resumes)
    requires job.op !in s.ops ==> runs == 0 && resumes == 0
    ensures HistoryIs(Apply(s, e, capacity).ops[job.op], job.step,
      runs + (if Starts(s, e, job) then 1 else 0), resumes + (if AcceptsResume(s, e, job) then 1 else 0))
  {
    hide SysInv, Enabled, Apply, Starts, AcceptsResume, HistoryIs;
    if job.op in s.ops {
      SystemStepContinues(s, e, capacity, job.op);
      CountsAfterStep(s, e, capacity, job, runs, resumes);
    } else {
      CountsAfterSubmit(s, e, capacity, job);
    }
  }

  /** The job names a step of an operation that exists. */
  predicate Tracked(s: Sys, job: Job) {
    job.op in s.ops && job.step < |s.ops[job.op].slice.row.steps|
  }

  /** The history in the state is what the run did. */
  lemma {:induction false} CountsAreHistory(states: seq<Sys>, events: seq<Event>, capacity: nat, job: Job, n: nat)
    requires Run(states, events, capacity) && n < |states| && Tracked(states[n], job)
    ensures HistoryIs(states[n].ops[job.op], job.step, CountStarts(states, events, job, n), CountResumes(states, events, job, n))
  {
    hide SysInv, Enabled, Apply, Starts, AcceptsResume, HistoryIs, CountStarts, CountResumes;
    CountsUnroll(states, events, job, n);
    if n > 0 {
      assert RunStep(states, events, capacity, n - 1);
      RunKeepsInv(states, events, capacity, n - 1);
      if job.op !in states[n - 1].ops {
        NoCountBeforeSubmit(states, events, capacity, job, n - 1);
      } else if Tracked(states[n - 1], job) {
        CountsAreHistory(states, events, capacity, job, n - 1);
      }
      CountsAfterEvent(states[n - 1], events[n - 1], capacity, job,
        CountStarts(states, events, job, n - 1), CountResumes(states, events, job, n - 1));
    }
  }

  /** In any run a step enters running at most once, plus once for each accepted resume of it. */
  lemma StartsAtMostOncePerResume(states: seq<Sys>, events: seq<Event>, capacity: nat, job: Job)
    requires Run(states, events, capacity)
    ensures CountStarts(states, events, job, |events|) <= 1 + CountResumes(states, events, job, |events|)
  {
    var n := |events|;
    if Tracked(states[n], job) {
      hide SysInv, CountStarts, CountResumes;
      RunKeepsInv(states, events, capacity, n);
      InvOf(states[n], job.op);
      CountsAreHistory(states, events, capacity, job, n);
    } else {
      UntrackedNeverStarts(states, events, capacity, job, n);
    }
  }

  lemma OutOfRangeDoesNotStart(s: Sys, e: Event, job: Job)
    requires job.op in s.ops ==> job.step >= |s.ops[job.op].slice.row.steps|
    ensures !Starts(s, e, job)
  {
  }

  lemma UntrackedBefore(s: Sys, e: Event, capacity: nat, job: Job)
    requires SysInv(s) && Enabled(s, e, capacity) && !Tracked(Apply(s, e, capacity), job)
    ensures !Tracked(s, job) && !Starts(s, e, job)
  {
    hide SysInv, Enabled, Apply, Starts;
    if job.op in s.ops {
      SystemStepContinues(s, e, capacity, job.op);
    }
    OutOfRangeDoesNotStart(s, e, job);
  }

  lemma {:induction false} UntrackedNeverStarts(states: seq<Sys>, events: seq<Event>, capacity: nat, job: Job, n: nat)
    requires Run(states, events, capacity) && n < |states| && !Tracked(states[n], job)
    ensures CountStarts(states, events, job, n) == 0
  {
    hide SysInv, Enabled, Apply, Starts, AcceptsResume, CountStarts, CountResumes, Tracked;
    CountsUnroll(states, events, job, n);
    if n > 0 {
      assert RunStep(states, events, capacity, n - 1);
      RunKeepsInv(states, events, capacity, n - 1);
      UntrackedBefore(states[n - 1], events[n - 1], capacity, job);
      UntrackedNeverStarts(states, events, capacity, job, n - 1);
    }
  }
}

/**
 One operation as its durable rows, its in-memory handle and the calls that
 threads still owe it.  Threads are counted, not named: any number of workers and
 callers may be at each point.
 */
module OperationProtocol {
  import opened OperationCore

  datatype Op = Op(
    slice: Slice,
    executing: set<nat>,                   // steps between markStepRunning and finishStep
    runs: seq<nat>,                        // history: how often each step entered running
    resumes: seq<nat>,                     // history: accepted resumes of each step
    activateDue: bool,                     // Submit has committed, not yet registered
    reconcileDue: nat,                     // calls of reconcile still to be made
    enqueueDue: nat,                       // calls of enqueueReady that have not read yet
    snapshots: multiset<seq<StepRow>>      // records read by enqueueReady, not used yet
  )

  // -------------------------------------------------------------- transitions

  function Submitted(deps: seq<seq<nat>>): Op {
    var steps := QueuedSteps(deps);
    var zeros := seq(|deps|, i => 0);
    Op(Slice(OpRow(Queued, steps), None), {}, zeros, zeros, true, 0, 0, multiset{})
  }

  function Activated(o: Op): Op {
    o.(slice := o.slice.(active := Some(Active({}, {}, false))), activateDue := false, enqueueDue := o.enqueueDue + 1)
  }

  function SnapshotTaken(o: Op): Op
    requires o.enqueueDue > 0
  {
    o.(enqueueDue := o.enqueueDue - 1, snapshots := o.snapshots + multiset{o.slice.row.steps})
  }

  /** The new operation and the steps that get a job. */
  function Enqueued(o: Op, snapshot: seq<StepRow>): (Op, seq<nat>) {
    var r := EnqueueSection(o.slice.active, snapshot);
    (o.(slice := o.slice.(active := r.0), snapshots := o.snapshots - multiset{snapshot}), r.1)
  }

  function Bump(s: seq<nat>, i: nat): seq<nat> { if i < |s| then s[i := s[i] + 1] else s }

  function Begun(o: Op, step: nat): Op {
    var r := BeginSection(o.slice, step);
    if r.1 then o.(slice := r.0, executing := o.executing + {step}, runs := Bump(o.runs, step)) else o
  }

  function Finished(o: Op, step: nat, outcome: Outcome): Op
    requires step < |o.slice.row.steps|
  {
    o.(slice := FinishSection(o.slice, step, outcome), executing := o.executing - {step}, reconcileDue := o.reconcileDue + 1)
  }

  function Reconciled(o: Op): Op
    requires o.reconcileDue > 0
  {
    var r := ReconcileSection(o.slice);
    o.(slice := r.0, reconcileDue := o.reconcileDue - 1, enqueueDue := o.enqueueDue + if r.1 then 1 else 0)
  }

  /** Cancel owes a reconcile even when it reports an error. */
  function CancelCalled(o: Op): Op {
    o.(slice := CancelSection(o.slice), reconcileDue := o.reconcileDue + 1)
  }

  function Resumed(o: Op, step: nat, token: string, hasExecutor: bool): Op {
    match ResumeSection(o.slice, step, token, hasExecutor)
    case Rejected(_) => o
    case Accepted(slice) => o.(slice := slice, resumes := Bump(o.resumes, step), enqueueDue := o.enqueueDue + 1)
  }

  /**
   Where the process dies: between two sections, or inside the one section that may
   be under way, between its database statements.
   */
  datatype Cut =
    | Between
    | InBegin(job: Job)            // the step is marked running, the operation is not
    | InCancel(id: string)         // the steps are cancelled, the operation is not
    | InSkips(id: string, n: nat)  // the first steps were looked at, the state not stored

  /** The skip loop after its first `n` steps. */
  function SkipPart(steps: seq<StepRow>, n: nat): (r: seq<StepRow>)
    ensures SameDeps(steps, r)
  {
    seq(|steps|, i requires 0 <= i < |steps| =>
      if i < n && steps[i].state == Queued && HasBadDep(steps, i) then WithState(steps[i], Skipped) else steps[i])
  }

  /** What the database holds of an operation when the process dies. */
  function CutShort(o: Op, cut: Cut, id: string): Op {
    var steps := o.slice.row.steps;
    match cut
    case Between => o
    case InBegin(job) =>
      if job.op == id && BeginSection(o.slice, job.step).1 then
        o.(slice := o.slice.(row := o.slice.row.(steps := steps[job.step := WithState(steps[job.step], Running)])),
           runs := Bump(o.runs, job.step))
      else o
    case InCancel(op) =>
      if op == id && !Terminal(o.slice.row.state) then
        o.(slice := o.slice.(row := o.slice.row.(steps := CancelSteps(steps))))
      else o
    case InSkips(op, n) =>
      if op == id && !CancelRequested(o.slice) then
        o.(slice := o.slice.(row := o.slice.row.(steps := SkipPart(steps, n))))
      else o
  }

  /** The process dies and the next one starts: only rows and history survive. */
  function Restarted(o: Op): Op {
    Op(Slice(RecoverRow(o.slice.row), None), {}, o.runs, o.resumes, false, 0, 0, multiset{})
  }

  // ---------------------------------------------------------------- invariant

  /** Settled steps never change; dependencies never change. */
  predicate Evolves(s: seq<StepRow>, t: seq<StepRow>) {
    SameDeps(s, t) && forall i | 0 <= i < |s| && Settled(s[i].state) :: t[i].state == s[i].state
  }

  lemma EvolvesKeeps(s: seq<StepRow>, t: seq<StepRow>)
    requires Evolves(s, t)
    ensures WellFormed(s) ==> WellFormed(t)
    ensures Acyclic(s) ==> Acyclic(t)
    ensures forall i | 0 <= i < |s| :: DepsSucceeded(s, i) ==> DepsSucceeded(t, i)
    ensures forall i | 0 <= i < |s| :: HasBadDep(s, i) ==> HasBadDep(t, i)
  {
    if Acyclic(s) {
      var rank :| Ranked(s, rank);
      assert Ranked(t, rank);
    }
    forall i | 0 <= i < |s| && HasBadDep(s, i) ensures HasBadDep(t, i) {
      var d :| d in s[i].deps && d < |s| && Bad(s[d].state);
      assert d in t[i].deps && Bad(t[d].state);
    }
  }

  ghost predicate Layout(o: Op) {
    var steps := o.slice.row.steps;
    steps != [] && WellFormed(steps) && Acyclic(steps) && |o.runs| == |steps| && |o.resumes| == |steps|
  }

  /** Exactly the running steps are being executed, and each can be cancelled. */
  predicate Executing(o: Op) {
    var steps := o.slice.row.steps;
    && (forall i | 0 <= i < |steps| :: i in o.executing <==> steps[i].state == Running)
    && (forall i | i in o.executing :: i < |steps|)
    && match o.slice.active { case None => o.executing == {} case Some(a) => a.running == o.executing }
  }

  predicate Started(s: State) { s.Running? || s.Waiting? || s.Succeeded? || s.Failed? }

  predicate StartedInOrder(steps: seq<StepRow>) {
    forall i | 0 <= i < |steps| && Started(steps[i].state) :: DepsSucceeded(steps, i)
  }

  /** Nothing starts, or is scheduled to start, before its dependencies succeeded. */
  predicate Ordered(o: Op, out: set<nat>) {
    var steps := o.slice.row.steps;
    && StartedInOrder(steps)
    && (forall i | i in out :: i < |steps| && DepsSucceeded(steps, i))
    && (forall snap | snap in o.snapshots :: Evolves(snap, steps))
  }

  predicate CancelRequested(s: Slice) { s.active.Some? && s.active.value.cancelRequested }

  /** No step has started; between the two halves of Submit only a cancel can intervene. */
  predicate Untouched(o: Op) {
    var s := o.slice;
    && s.active.None? && !Any(s.row.steps, Waiting)
    && (Terminal(s.row.state) || (AllQueued(s.row) && o.reconcileDue == 0))
  }

  predicate AllQueued(row: OpRow) {
    row.state == Queued && forall i | 0 <= i < |row.steps| :: row.steps[i].state == Queued
  }

  /** What a finished, cancelled or skipped state says about the steps. */
  predicate Closed(o: Op) {
    var row := o.slice.row;
    && (Terminal(row.state) ==> AllSettled(row.steps))
    && row.state != Skipped
    && (CancelRequested(o.slice) ==> !Any(row.steps, Queued) && !Any(row.steps, Waiting))
    && SkipsExplained(row.steps)
    && (row.state == Succeeded ==> forall i | 0 <= i < |row.steps| :: row.steps[i].state == Succeeded)
    && (o.activateDue ==> Untouched(o))
  }

  /** A step runs once, and once more for each accepted resume. */
  predicate Counted(o: Op) {
    var steps := o.slice.row.steps;
    |o.runs| == |steps| && |o.resumes| == |steps|
    && forall i | 0 <= i < |steps| ::
        && o.runs[i] <= o.resumes[i] + 1
        && (steps[i].state == Queued ==> o.runs[i] <= o.resumes[i])
  }

  predicate Live(s: Slice) { s.active.Some? && !s.active.value.cancelRequested }

  /** Some pending enqueueReady will see the step as ready. */
  predicate EnqueueComing(o: Op, i: nat) {
    o.reconcileDue > 0 || o.enqueueDue > 0
    || exists snap | snap in o.snapshots :: i < |snap| && Ready(snap, i)
  }

  /** No ready step of a live operation is forgotten. */
  predicate Scheduled(o: Op, out: set<nat>) {
    var steps := o.slice.row.steps;
    Live(o.slice) ==> forall i | 0 <= i < |steps| ::
      && (i in o.slice.active.value.enqueued && steps[i].state == Queued ==> i in out)
      && (Ready(steps, i) ==> i in out || EnqueueComing(o, i))
  }

  predicate SomeReady(steps: seq<StepRow>) { exists i | 0 <= i < |steps| :: Ready(steps, i) }

  /** The stored operation state is the aggregate, up to calls that are still due. */
  predicate Accurate(o: Op) {
    var row := o.slice.row;
    Live(o.slice) ==>
      || Terminal(row.state)
      || o.reconcileDue > 0
      || row.state == Aggregate(row.steps)
      || (row.state == Queued && SomeReady(row.steps))
  }

  /** `out` are the steps with a job in the pending list, the channel or a worker's hands. */
  ghost predicate OpInv(o: Op, out: set<nat>) {
    Layout(o) && Executing(o) && Ordered(o, out) && Closed(o) && Counted(o) && Scheduled(o, out) && Accurate(o)
  }

  // --------------------------------------------------------- one step changed

  /** The effect of writing one step's state. */
  predicate StepWritten(s: seq<StepRow>, t: seq<StepRow>, i: nat, st: State) {
    SameDeps(s, t) && i < |s| && t[i].state == st
    && forall j | 0 <= j < |s| && j != i :: t[j].state == s[j].state
  }

  lemma RootIsReady(steps: seq<StepRow>)
    requires WellFormed(steps) && Acyclic(steps) && steps != []
    requires forall i | 0 <= i < |steps| :: steps[i].state == Queued
    ensures SomeReady(steps)
  {
    var rank :| Ranked(steps, rank);
    var i := FindRoot(steps, rank, 0);
    assert Ready(steps, i);
  }

  /** Follow first dependencies down to a step that has none. */
  lemma {:induction false} FindRoot(steps: seq<StepRow>, rank: seq<nat>, i: nat) returns (root: nat)
    requires Ranked(steps, rank) && i < |steps|
    ensures root < |steps| && steps[root].deps == []
    decreases rank[i]
  {
    if steps[i].deps == [] {
      root := i;
    } else {
      root := FindRoot(steps, rank, steps[i].deps[0]);
    }
  }

  /** Consecutive elements of the path are a step and one of its dependencies. */
  predicate DependencyPath(steps: seq<StepRow>, path: seq<nat>) {
    && path != []
    && (forall k | 0 <= k < |path| :: path[k] < |steps|)
    && forall k | 0 <= k < |path| - 1 :: path[k + 1] in steps[path[k]].deps
  }

  predicate SkipsExplained(steps: seq<StepRow>) {
    forall i | 0 <= i < |steps| && steps[i].state == Skipped :: HasBadDep(steps, i)
  }

  /** Every skipped step depends, directly or not, on one that failed, was cancelled or was interrupted. */
  lemma {:induction false} SkippedHasFailedAncestor(steps: seq<StepRow>, rank: seq<nat>, i: nat) returns (path: seq<nat>)
    requires Ranked(steps, rank) && SkipsExplained(steps)
    requires i < |steps| && steps[i].state == Skipped
    ensures DependencyPath(steps, path) && |path| > 1 && path[0] == i
    ensures var last := steps[path[|path| - 1]].state; last.Failed? || last.Cancelled? || last.Interrupted?
    decreases rank[i]
  {
    assert HasBadDep(steps, i);
    var d :| d in steps[i].deps && d < |steps| && Bad(steps[d].state);
    var k :| 0 <= k < |steps[i].deps| && steps[i].deps[k] == d;
    if steps[d].state == Skipped {
      var rest := SkippedHasFailedAncestor(steps, rank, d);
      path := [i] + rest;
      assert forall k | 0 < k < |path| - 1 :: path[k] == rest[k - 1] && path[k + 1] == rest[k];
    } else {
      path := [i, d];
    }
  }

  lemma NothingFailedNothingSkipped(steps: seq<StepRow>)
    requires Acyclic(steps) && SkipsExplained(steps)
    requires forall i | 0 <= i < |steps| :: steps[i].state == Succeeded || steps[i].state == Skipped
    ensures forall i | 0 <= i < |steps| :: steps[i].state == Succeeded
  {
    var rank :| Ranked(steps, rank);
    forall i | 0 <= i < |steps| ensures steps[i].state == Succeeded {
      if steps[i].state == Skipped {
        var path := SkippedHasFailedAncestor(steps, rank, i);
      }
    }
  }

  lemma SubmittedInv(deps: seq<seq<nat>>)
    requires deps != [] && WellFormed(Submitted(deps).slice.row.steps) && Acyclic(Submitted(deps).slice.row.steps)
    ensures OpInv(Submitted(deps), {})
  {
  }

  lemma ActivatedInv(o: Op, out: set<nat>)
    requires OpInv(o, out) && o.activateDue
    ensures OpInv(Activated(o), out)
  {
    if o.slice.row.state == Queued {
      RootIsReady(o.slice.row.steps);
    }
  }

  lemma SnapshotTakenInv(o: Op, out: set<nat>)
    requires OpInv(o, out) && o.enqueueDue > 0
    ensures OpInv(SnapshotTaken(o), out)
  {
    var p := SnapshotTaken(o);
    var steps := o.slice.row.steps;
    assert Evolves(steps, steps);
    assert steps in p.snapshots;
    forall i | 0 <= i < |steps| && Live(o.slice) && Ready(steps, i) ensures i in out || EnqueueComing(p, i) {
      assert steps in p.snapshots && i < |steps| && Ready(steps, i);
    }
  }

  lemma EnqueuedInv(o: Op, out: set<nat>, snapshot: seq<StepRow>)
    requires OpInv(o, out) && snapshot in o.snapshots
    ensures var r := Enqueued(o, snapshot); OpInv(r.0, out + Members(r.1))
  {
    var (p, jobs) := Enqueued(o, snapshot);
    var out' := out + Members(jobs);
    var steps := o.slice.row.steps;
    EvolvesKeeps(snapshot, steps);
    assert Ordered(p, out');
    if Live(o.slice) {
      forall i | 0 <= i < |steps| && Ready(steps, i) ensures i in out' || EnqueueComing(p, i) {
        if !(i in out || o.reconcileDue > 0 || o.enqueueDue > 0) {
          var snap :| snap in o.snapshots && i < |snap| && Ready(snap, i);
          if snap != snapshot {
            assert snap in p.snapshots;
          }
        }
      }
    }
  }

  /** A worker takes a job: it starts the step, or drops the job. */
  lemma BegunInv(o: Op, out: set<nat>, step: nat, out': set<nat>)
    requires OpInv(o, out) && step in out && out - {step} <= out' <= out
    ensures OpInv(Begun(o, step), out')
  {
    var p := Begun(o, step);
    if BeginSection(o.slice, step).1 {
      var steps, steps' := o.slice.row.steps, p.slice.row.steps;
      assert Evolves(steps, steps');
      EvolvesKeeps(steps, steps');
      BegunExecuting(o, step);
      BegunClosed(o, step);
      assert Ordered(p, out');
      BegunScheduled(o, out, step, out');
    } else {
      hide Layout, Executing, Closed, Counted;
    }
  }

  lemma BegunExecuting(o: Op, step: nat)
    requires Layout(o) && Executing(o) && Counted(o) && BeginSection(o.slice, step).1
    ensures Executing(Begun(o, step)) && Counted(Begun(o, step))
  {
  }

  lemma BegunClosed(o: Op, step: nat)
    requires Closed(o) && BeginSection(o.slice, step).1
    ensures Closed(Begun(o, step)) && Accurate(Begun(o, step))
  {
    var steps, steps' := o.slice.row.steps, Begun(o, step).slice.row.steps;
    assert StepWritten(steps, steps', step, Running) && Evolves(steps, steps');
    EvolvesKeeps(steps, steps');
    AggregateMeaning(steps');
    assert !Settled(steps[step].state);
    assert steps'[step].state == Running;
  }

  lemma BegunScheduled(o: Op, out: set<nat>, step: nat, out': set<nat>)
    requires Scheduled(o, out) && BeginSection(o.slice, step).1 && out - {step} <= out' <= out
    ensures Scheduled(Begun(o, step), out')
  {
  }

  /** Finishing writes one running step. */
  lemma FinishedWrites(o: Op, step: nat, outcome: Outcome)
    requires Executing(o) && step in o.executing
    ensures var (s, t) := (o.slice.row.steps, Finished(o, step, outcome).slice.row.steps);
      StepWritten(s, t, step, t[step].state) && Evolves(s, t) && s[step].state == Running
  {
  }

  lemma FinishedExecuting(o: Op, step: nat, outcome: Outcome)
    requires Executing(o) && Counted(o) && step in o.executing
    ensures Executing(Finished(o, step, outcome)) && Counted(Finished(o, step, outcome))
  {
  }

  lemma FinishedClosed(o: Op, step: nat, outcome: Outcome)
    requires Executing(o) && Closed(o) && step in o.executing
    ensures Closed(Finished(o, step, outcome))
  {
    FinishedWrites(o, step, outcome);
    EvolvesKeeps(o.slice.row.steps, Finished(o, step, outcome).slice.row.steps);
  }

  lemma FinishedOrdered(o: Op, out: set<nat>, step: nat, outcome: Outcome)
    requires Executing(o) && Ordered(o, out) && Layout(o) && step in o.executing
    ensures Ordered(Finished(o, step, outcome), out)
  {
    var p := Finished(o, step, outcome);
    FinishedWrites(o, step, outcome);
    EvolvesKeeps(o.slice.row.steps, p.slice.row.steps);
    assert p.snapshots == o.snapshots;
    hide Executing;
  }

  lemma FinishedInv(o: Op, out: set<nat>, step: nat, outcome: Outcome)
    requires OpInv(o, out) && step in o.executing
    ensures OpInv(Finished(o, step, outcome), out)
  {
    var p := Finished(o, step, outcome);
    FinishedWrites(o, step, outcome);
    EvolvesKeeps(o.slice.row.steps, p.slice.row.steps);
    assert Layout(p) && Accurate(p);
    FinishedExecuting(o, step, outcome);
    FinishedClosed(o, step, outcome);
    FinishedOrdered(o, out, step, outcome);
    assert Scheduled(p, out);
    hide *;
  }

  lemma CancelCalledInv(o: Op, out: set<nat>)
    requires OpInv(o, out)
    ensures OpInv(CancelCalled(o), out)
  {
    var p := CancelCalled(o);
    var steps, steps' := o.slice.row.steps, p.slice.row.steps;
    assert Evolves(steps, steps');
    EvolvesKeeps(steps, steps');
    assert Ordered(p, out) && Layout(p);
    assert Executing(p) && Counted(p);
    CancelCalledClosed(o);
    assert Scheduled(p, out) && Accurate(p);
    hide *;
  }

  lemma CancelCalledClosed(o: Op)
    requires Executing(o) && Closed(o)
    ensures Closed(CancelCalled(o))
  {
    EvolvesKeeps(o.slice.row.steps, CancelCalled(o).slice.row.steps);
  }

  lemma ResumedInv(o: Op, out: set<nat>, step: nat, token: string, hasExecutor: bool)
    requires OpInv(o, out)
    ensures OpInv(Resumed(o, step, token, hasExecutor), out)
  {
    var p := Resumed(o, step, token, hasExecutor);
    if ResumeSection(o.slice, step, token, hasExecutor).Accepted? {
      var steps, steps' := o.slice.row.steps, p.slice.row.steps;
      assert StepWritten(steps, steps', step, Queued);
      assert Evolves(steps, steps');
      EvolvesKeeps(steps, steps');
      assert Ordered(p, out);
      ResumedClosed(o, step, token, hasExecutor);
      ResumedScheduled(o, out, step, token, hasExecutor);
      assert Executing(p) && Layout(p);
      hide *;
    }
  }

  lemma ResumedClosed(o: Op, step: nat, token: string, hasExecutor: bool)
    requires Closed(o) && Counted(o) && ResumeSection(o.slice, step, token, hasExecutor).Accepted?
    ensures Closed(Resumed(o, step, token, hasExecutor)) && Counted(Resumed(o, step, token, hasExecutor))
  {
    var p := Resumed(o, step, token, hasExecutor);
    EvolvesKeeps(o.slice.row.steps, p.slice.row.steps);
  }

  lemma ResumedScheduled(o: Op, out: set<nat>, step: nat, token: string, hasExecutor: bool)
    requires Scheduled(o, out) && Ordered(o, out) && ResumeSection(o.slice, step, token, hasExecutor).Accepted?
    ensures Scheduled(Resumed(o, step, token, hasExecutor), out) && Accurate(Resumed(o, step, token, hasExecutor))
  {
    var p := Resumed(o, step, token, hasExecutor);
    EvolvesKeeps(o.slice.row.steps, p.slice.row.steps);
    assert Ready(p.slice.row.steps, step);
  }

  /** What the rows say by themselves; it holds between any two database statements. */
  ghost predicate RowInv(o: Op) {
    var row := o.slice.row;
    && Layout(o) && StartedInOrder(row.steps) && Counted(o) && SkipsExplained(row.steps)
    && row.state != Skipped
    && (Terminal(row.state) ==> AllSettled(row.steps))
    && (row.state == Succeeded ==> forall i | 0 <= i < |row.steps| :: row.steps[i].state == Succeeded)
  }

  /** Recovery makes good whatever the rows were. */
  lemma RecoveredInv(o: Op)
    requires RowInv(o)
    ensures OpInv(Restarted(o), {})
  {
    var p := Restarted(o);
    var steps, steps' := o.slice.row.steps, p.slice.row.steps;
    assert Evolves(steps, steps');
    EvolvesKeeps(steps, steps');
  }

  /** The cut is in a section that can be under way. */
  predicate CanCut(o: Op, out: set<nat>, cut: Cut, id: string) {
    match cut
    case InBegin(job) => job.op == id ==> job.step in out
    case InSkips(op, _) => op == id ==> o.reconcileDue > 0
    case _ => true
  }

  lemma CutInBegin(o: Op, out: set<nat>, cut: Cut, id: string)
    requires OpInv(o, out) && CanCut(o, out, cut, id) && cut.InBegin?
    ensures RowInv(CutShort(o, cut, id))
  {
    var steps, steps' := o.slice.row.steps, CutShort(o, cut, id).slice.row.steps;
    assert Evolves(steps, steps');
    EvolvesKeeps(steps, steps');
    if BeginSection(o.slice, cut.job.step).1 { assert !Settled(steps[cut.job.step].state); }
  }

  lemma CutInCancel(o: Op, out: set<nat>, cut: Cut, id: string)
    requires OpInv(o, out) && cut.InCancel?
    ensures RowInv(CutShort(o, cut, id))
  {
    hide Scheduled, Accurate, Executing;
    var p := CutShort(o, cut, id);
    if p != o {
      assert p == o.(slice := o.slice.(row := o.slice.row.(steps := CancelSteps(o.slice.row.steps))));
      hide CutShort;
      CancelKeepsRows(o, p);
    }
  }

  lemma CancelKeepsRows(o: Op, p: Op)
    requires RowInv(o) && !Terminal(o.slice.row.state)
    requires p == o.(slice := o.slice.(row := o.slice.row.(steps := CancelSteps(o.slice.row.steps))))
    ensures RowInv(p)
  {
    var steps, steps' := o.slice.row.steps, p.slice.row.steps;
    assert Evolves(steps, steps');
    EvolvesKeeps(steps, steps');
  }

  lemma PartSkipsKeep(steps: seq<StepRow>, n: nat)
    requires SkipsExplained(steps)
    ensures Evolves(steps, SkipPart(steps, n)) && SkipsExplained(SkipPart(steps, n))
  {
    EvolvesKeeps(steps, SkipPart(steps, n));
  }

  predicate OnlySkipped(a: StepRow, b: StepRow) { a == b || (a.state == Queued && b == WithState(a, Skipped)) }

  lemma SkipsKeepRows(o: Op, p: Op)
    requires RowInv(o) && p == o.(slice := o.slice.(row := o.slice.row.(steps := p.slice.row.steps)))
    requires var (steps, steps') := (o.slice.row.steps, p.slice.row.steps);
      && Evolves(steps, steps') && SkipsExplained(steps')
      && forall i | 0 <= i < |steps| :: OnlySkipped(steps[i], steps'[i])
    ensures RowInv(p)
  {
    EvolvesKeeps(o.slice.row.steps, p.slice.row.steps);
  }

  lemma CutInSkips(o: Op, out: set<nat>, cut: Cut, id: string)
    requires OpInv(o, out) && cut.InSkips?
    ensures RowInv(CutShort(o, cut, id))
  {
    hide Scheduled, Accurate, Executing;
    var p := CutShort(o, cut, id);
    if p != o {
      assert p == o.(slice := o.slice.(row := o.slice.row.(steps := p.slice.row.steps)));
      assert forall i | 0 <= i < |o.slice.row.steps| :: OnlySkipped(o.slice.row.steps[i], p.slice.row.steps[i]);
      PartSkipsKeep(o.slice.row.steps, cut.n);
      hide CutShort, SkipPart;
      SkipsKeepRows(o, p);
    }
  }

  /** A restart keeps the invariant wherever the process died. */
  lemma RestartedInv(o: Op, out: set<nat>, cut: Cut, id: string)
    requires OpInv(o, out) && CanCut(o, out, cut, id)
    ensures OpInv(Restarted(CutShort(o, cut, id)), {})
  {
    match cut {
      case Between =>
      case InBegin(_) => CutInBegin(o, out, cut, id);
      case InCancel(_) => CutInCancel(o, out, cut, id);
      case InSkips(_, _) => CutInSkips(o, out, cut, id);
    }
    RecoveredInv(CutShort(o, cut, id));
  }

  /** A scheduling call that reads in the middle of the skip loop sees the same steps ready. */
  lemma PartSkipsReadAlike(steps: seq<StepRow>, n: nat)
    ensures forall i | 0 <= i < |steps| :: Ready(SkipPart(steps, n), i) <==> Ready(steps, i)
  {
    var t := SkipPart(steps, n);
    forall i | 0 <= i < |steps| ensures Ready(t, i) <==> Ready(steps, i) {
      assert t[i].deps == steps[i].deps;
      assert forall d | 0 <= d < |steps| :: t[d].state == Succeeded <==> steps[d].state == Succeeded;
      assert DepsSucceeded(steps, i) ==> !HasBadDep(steps, i);
    }
  }

  lemma ReconciledOrdered(o: Op, out: set<nat>)
    requires Ordered(o, out) && Layout(o) && o.reconcileDue > 0 && !CancelRequested(o.slice)
    ensures Ordered(Reconciled(o), out) && Layout(Reconciled(o))
  {
    var steps, steps' := o.slice.row.steps, Reconciled(o).slice.row.steps;
    assert Evolves(steps, steps');
    EvolvesKeeps(steps, steps');
  }

  lemma ReconciledInv(o: Op, out: set<nat>)
    requires OpInv(o, out) && o.reconcileDue > 0
    ensures OpInv(Reconciled(o), out)
  {
    var p := Reconciled(o);
    if CancelRequested(o.slice) {
      CancelledEnds(o);
    } else {
      ReconciledOrdered(o, out);
      ReconciledClosed(o);
      ReconciledExecuting(o);
      ReconciledScheduled(o, out);
      hide *;
    }
  }

  lemma ReconciledScheduled(o: Op, out: set<nat>)
    requires Scheduled(o, out) && o.reconcileDue > 0 && !CancelRequested(o.slice)
    ensures Scheduled(Reconciled(o), out) && Accurate(Reconciled(o))
  {
  }

  lemma SkipPassExplained(steps: seq<StepRow>)
    requires SkipsExplained(steps)
    ensures SkipsExplained(SkipPass(steps)) && Evolves(steps, SkipPass(steps))
  {
    EvolvesKeeps(steps, SkipPass(steps));
  }

  lemma ReconciledClosed(o: Op)
    requires Layout(o) && Closed(o) && o.reconcileDue > 0 && !CancelRequested(o.slice)
    ensures Closed(Reconciled(o))
  {
    var row, row' := o.slice.row, Reconciled(o).slice.row;
    SkipPassExplained(row.steps);
    EvolvesKeeps(row.steps, row'.steps);
    AggregateMeaning(row'.steps);
    if Terminal(row.state) {
      assert AllSettled(row'.steps);
    } else if row'.state == Succeeded {
      NothingFailedNothingSkipped(row'.steps);
    }
  }

  /** A cancelled operation ends when nothing runs any more. */
  lemma CancelledEnds(o: Op)
    requires Layout(o) && Executing(o) && Closed(o) && Counted(o) && o.reconcileDue > 0 && CancelRequested(o.slice)
    ensures Executing(Reconciled(o)) && Closed(Reconciled(o)) && Counted(Reconciled(o))
  {
    var steps := o.slice.row.steps;
    if o.slice.active.value.running == {} {
      forall i | 0 <= i < |steps| ensures Settled(steps[i].state) {
        assert steps[i].state != Queued && steps[i].state != Waiting;
      }
    }
  }

  lemma ReconciledExecuting(o: Op)
    requires Executing(o) && Counted(o) && o.reconcileDue > 0 && !CancelRequested(o.slice)
    ensures Executing(Reconciled(o)) && Counted(Reconciled(o))
  {
    var steps, steps' := o.slice.row.steps, Reconciled(o).slice.row.steps;
    AggregateMeaning(steps');
    assert forall i | 0 <= i < |steps| :: steps'[i].state == Running <==> steps[i].state == Running;
  }
}

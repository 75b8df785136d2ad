/**
 Why steps and operations change: every change of a stored state in any run is the
 work of one event, and a resume needs the very token that was asked for.
 */
module OperationEvents {
  import Text
  import opened OperationCore
  import opened OperationProtocol
  import opened OperationSystem
  import opened OperationHistory

  /** What the end of an executor call makes of a running step. */
  predicate Records(outcome: Outcome, cancelled: bool, now: State) {
    match now
    case Interrupted => outcome == EffectsUnconfirmed
    case Cancelled => outcome != EffectsUnconfirmed && (cancelled || outcome == ContextCanceled)
    case Waiting => outcome.NeedsConfirmation? && !cancelled
    case Failed => outcome == Fault && !cancelled
    case Succeeded => outcome == Done && !cancelled
    case _ => false
  }

  /** The events that may change a step from one state to another. */
  predicate StepChange(o: Op, e: Event, id: string, i: nat, now: State)
    requires i < |o.slice.row.steps|
  {
    var was := o.slice.row.steps[i];
    match was.state
    case Queued =>
      (match now
       case Running => e == Begin(Job(id, i)) && Live(o.slice)
       case Skipped => (e == Reconcile(id) || (e.Restart? && e.cut.InSkips? && e.cut.id == id)) && HasBadDep(o.slice.row.steps, i)
       case Cancelled => e == Cancel(id) || e == Restart(InCancel(id))
       case Interrupted => e.Restart?
       case _ => false)
    case Running =>
      (e.Finish? && e.job == Job(id, i) && Records(e.outcome, CancelRequested(o.slice), now))
      || (e.Restart? && now == Interrupted)
    case Waiting =>
      (match now
       case Queued => e.Resume? && e.id == id && e.step == i && e.token == was.token && !Text.IsBlank(e.token)
       case Cancelled => e == Cancel(id) || e == Restart(InCancel(id))
       case Interrupted => e.Restart?
       case _ => false)
    case _ => false
  }

  lemma FinishIsRecorded(o: Op, step: nat, outcome: Outcome, id: string, i: nat)
    requires Executing(o) && step in o.executing && i < |o.slice.row.steps|
    ensures step < |o.slice.row.steps|
    ensures i < |Finished(o, step, outcome).slice.row.steps|
    ensures Allowed(o, Finish(Job(id, step), outcome), id, i, Finished(o, step, outcome).slice.row.steps[i])
  {
  }

  /** What a cut may have written of a step. */
  lemma CutWrites(o: Op, cut: Cut, id: string, i: nat)
    requires i < |o.slice.row.steps|
    ensures var (was, now) := (o.slice.row.steps[i], CutShort(o, cut, id).slice.row.steps[i]);
      && now.token == was.token
      && (now.state == was.state
          || (was.state == Queued && now.state == Running && !Settled(was.state))
          || (Settled(now.state) && now.state != Interrupted && StepChange(o, Restart(cut), id, i, now.state)))
    ensures CutShort(o, cut, id).slice.row.state == o.slice.row.state
    ensures CutShort(o, cut, id).slice.row.steps != o.slice.row.steps && cut.InBegin? ==> Live(o.slice)
  {
  }

  /** Recovery keeps settled steps, and interrupts all others or none. */
  lemma RecoveryWrites(row: OpRow, i: nat)
    requires i < |row.steps|
    ensures var (was, now) := (row.steps[i], RecoverRow(row).steps[i]);
      && now.token == was.token && (now.state == was.state || (!Settled(was.state) && now.state == Interrupted))
      && (was.state == Running && !Terminal(row.state) && row.state != Skipped ==> now.state == Interrupted)
  {
  }

  lemma RestartChanges(o: Op, cut: Cut, id: string, i: nat)
    requires i < |o.slice.row.steps| && Closed(o)
    ensures i < |Restarted(CutShort(o, cut, id)).slice.row.steps|
    ensures Allowed(o, Restart(cut), id, i, Restarted(CutShort(o, cut, id)).slice.row.steps[i])
  {
    CutWrites(o, cut, id, i);
    RecoveryWrites(CutShort(o, cut, id).slice.row, i);
    hide CutShort, RecoverRow;
  }

  /** From one row to the next: nothing changes, or it is in the table; only an end of an executor call makes a step wait. */
  predicate Allowed(o: Op, e: Event, id: string, i: nat, now: StepRow)
    requires i < |o.slice.row.steps|
  {
    var was := o.slice.row.steps[i];
    && (now.state == was.state || StepChange(o, e, id, i, now.state))
    && (now.state == Waiting ==>
         ((was.state == Waiting && now.token == was.token) || e == Finish(Job(id, i), NeedsConfirmation(now.token))))
  }

  /** Every change of a step by any event is in the table; tokens change only when a step waits or is resumed. */
  lemma StepChanges(o: Op, out: set<nat>, e: Event, id: string, i: nat)
    requires OpInv(o, out) && i < |o.slice.row.steps|
    requires e.Finish? && e.job.op == id ==> e.job.step in o.executing
    ensures i < |OpAfter(o, e, id).slice.row.steps| && Allowed(o, e, id, i, OpAfter(o, e, id).slice.row.steps[i])
  {
    assert Executing(o) && Closed(o);
    SameStepAllowed(o, e, id, i);
    hide OpInv, Executing, Closed, Allowed, Begun, Finished, Reconciled, CancelCalled, Resumed, Restarted, CutShort;
    match e {
      case Begin(job) => if job.op == id { BeginChanges(o, job.step, id, i); }
      case Finish(job, outcome) => if job.op == id { FinishIsRecorded(o, job.step, outcome, id, i); }
      case Reconcile(r) => if r == id && o.reconcileDue > 0 { ReconcileChanges(o, id, i); }
      case Cancel(r) => if r == id { CancelChanges(o, id, i); }
      case Resume(r, step, token, hasExecutor) => if r == id { ResumeChanges(o, step, token, hasExecutor, id, i); }
      case Restart(cut) => RestartChanges(o, cut, id, i);
      case _ =>
    }
  }

  lemma SameStepAllowed(o: Op, e: Event, id: string, i: nat)
    requires i < |o.slice.row.steps|
    ensures Allowed(o, e, id, i, o.slice.row.steps[i])
  {
  }

  lemma BeginChanges(o: Op, step: nat, id: string, i: nat)
    requires i < |o.slice.row.steps|
    ensures i < |Begun(o, step).slice.row.steps|
    ensures Allowed(o, Begin(Job(id, step)), id, i, Begun(o, step).slice.row.steps[i])
  {
  }

  lemma ReconcileChanges(o: Op, id: string, i: nat)
    requires i < |o.slice.row.steps| && o.reconcileDue > 0
    ensures i < |Reconciled(o).slice.row.steps| && Allowed(o, Reconcile(id), id, i, Reconciled(o).slice.row.steps[i])
  {
  }

  lemma CancelChanges(o: Op, id: string, i: nat)
    requires i < |o.slice.row.steps|
    ensures i < |CancelCalled(o).slice.row.steps| && Allowed(o, Cancel(id), id, i, CancelCalled(o).slice.row.steps[i])
  {
  }

  lemma ResumeChanges(o: Op, step: nat, token: string, hasExecutor: bool, id: string, i: nat)
    requires i < |o.slice.row.steps|
    ensures i < |Resumed(o, step, token, hasExecutor).slice.row.steps|
    ensures Allowed(o, Resume(id, step, token, hasExecutor), id, i, Resumed(o, step, token, hasExecutor).slice.row.steps[i])
  {
  }

  // ------------------------------------------------------------------ over runs

  /** In every run each change of a step's stored state is one of those in the table. */
  lemma EveryChangeHasItsEvent(states: seq<Sys>, events: seq<Event>, capacity: nat, n: nat, id: string, i: nat)
    requires Run(states, events, capacity) && n < |events| && id in states[n].ops
    requires i < |states[n].ops[id].slice.row.steps|
    ensures id in states[n + 1].ops && i < |states[n + 1].ops[id].slice.row.steps|
    ensures var (was, now) := (states[n].ops[id].slice.row.steps[i], states[n + 1].ops[id].slice.row.steps[i]);
      && (now.state == was.state || StepChange(states[n].ops[id], events[n], id, i, now.state))
      && (now.state == Waiting ==>
           ((was.state == Waiting && now.token == was.token) || events[n] == Finish(Job(id, i), NeedsConfirmation(now.token))))
  {
    hide SysInv, Enabled, Apply, Out, OpInv, OpAfter, StepChange;
    RunKeepsInv(states, events, capacity, n);
    assert RunStep(states, events, capacity, n);
    InvOf(states[n], id);
    FinishedIsExecuting(states[n], events[n], capacity, id);
    ApplyIsOpAfter(states[n], events[n], capacity, id);
    StepChanges(states[n].ops[id], Out(states[n], id), events[n], id, i);
  }

  /** Event `m` asked for this token, and the step has waited for it ever since. */
  predicate AskedAt(states: seq<Sys>, events: seq<Event>, m: nat, n: nat, id: string, i: nat, token: string) {
    && m < n < |states| && m < |events| && events[m] == Finish(Job(id, i), NeedsConfirmation(token))
    && forall k | m < k <= n :: WaitsFor(states[k], id, i, token)
  }

  predicate WaitsFor(s: Sys, id: string, i: nat, token: string) {
    id in s.ops && i < |s.ops[id].slice.row.steps| && s.ops[id].slice.row.steps[i].state == Waiting
    && s.ops[id].slice.row.steps[i].token == token
  }

  /** A waiting step waits for the token that its last executor call asked for. */
  lemma {:induction false} WaitingWasAsked(states: seq<Sys>, events: seq<Event>, capacity: nat, n: nat, id: string, i: nat,
                                           token: string)
    returns (m: nat)
    requires Run(states, events, capacity) && n < |states| && WaitsFor(states[n], id, i, token)
    ensures AskedAt(states, events, m, n, id, i, token)
  {
    assert |states| == |events| + 1 && n > 0;
    hide StepChange, Run, AskedAt;
    m := n - 1;
    if id in states[n - 1].ops && i < |states[n - 1].ops[id].slice.row.steps| {
      EveryChangeHasItsEvent(states, events, capacity, n - 1, id, i);
      if WaitsFor(states[n - 1], id, i, token) {
        m := WaitingWasAsked(states, events, capacity, n - 1, id, i, token);
        StillAsked(states, events, m, n, id, i, token);
      } else {
        JustAsked(states, events, n, id, i, token);
      }
    } else {
      NewStepsAreQueued(states, events, capacity, n - 1, id, i);
    }
  }

  lemma StillAsked(states: seq<Sys>, events: seq<Event>, m: nat, n: nat, id: string, i: nat, token: string)
    requires 0 < n < |states| && AskedAt(states, events, m, n - 1, id, i, token) && WaitsFor(states[n], id, i, token)
    ensures AskedAt(states, events, m, n, id, i, token)
  {
    hide WaitsFor;
  }

  lemma JustAsked(states: seq<Sys>, events: seq<Event>, n: nat, id: string, i: nat, token: string)
    requires 0 < n < |states| && n <= |events| && events[n - 1] == Finish(Job(id, i), NeedsConfirmation(token))
    requires WaitsFor(states[n], id, i, token)
    ensures AskedAt(states, events, n - 1, n, id, i, token)
  {
    hide WaitsFor;
  }

  lemma NewStepsAreQueued(states: seq<Sys>, events: seq<Event>, capacity: nat, n: nat, id: string, i: nat)
    requires Run(states, events, capacity) && n < |events| && id in states[n + 1].ops
    requires i < |states[n + 1].ops[id].slice.row.steps|
    requires id !in states[n].ops || i >= |states[n].ops[id].slice.row.steps|
    ensures states[n + 1].ops[id].slice.row.steps[i].state == Queued
  {
    hide SysInv, Out;
    assert RunStep(states, events, capacity, n);
    if id in states[n].ops {
      RunKeepsInv(states, events, capacity, n);
      SystemStepContinues(states[n], events[n], capacity, id);
    } else {
      hide Begun, Finished, Reconciled, CancelCalled, Resumed, Restarted, CutShort, Enqueued, SnapshotTaken, Activated;
      assert events[n].Submit? && events[n].id == id;
    }
  }

  /**
   A resume that queues a waiting step presents the token that the step's executor
   asked for; between the two the step has waited: it was neither started nor resumed.
   */
  lemma ResumesNeedTheirToken(states: seq<Sys>, events: seq<Event>, capacity: nat, n: nat, id: string, i: nat)
    returns (m: nat)
    requires Run(states, events, capacity) && n < |events| && id in states[n].ops && id in states[n + 1].ops
    requires i < |states[n].ops[id].slice.row.steps| && i < |states[n + 1].ops[id].slice.row.steps|
    requires states[n].ops[id].slice.row.steps[i].state == Waiting && states[n + 1].ops[id].slice.row.steps[i].state == Queued
    ensures events[n].Resume? && events[n].id == id && events[n].step == i
    ensures AskedAt(states, events, m, n, id, i, events[n].token)
    ensures forall k | m < k < n :: !Starts(states[k], events[k], Job(id, i)) && !AcceptsResume(states[k], events[k], Job(id, i))
  {
    assert |states| == |events| + 1;
    hide Run;
    EveryChangeHasItsEvent(states, events, capacity, n, id, i);
    var token := states[n].ops[id].slice.row.steps[i].token;
    m := WaitingWasAsked(states, events, capacity, n, id, i, token);
    forall k | m < k < n ensures !Starts(states[k], events[k], Job(id, i)) && !AcceptsResume(states[k], events[k], Job(id, i)) {
      assert WaitsFor(states[k], id, i, token) && WaitsFor(states[k + 1], id, i, token);
      NotStartedNorResumed(states, events, capacity, k, id, i, token);
    }
  }

  lemma NotStartedNorResumed(states: seq<Sys>, events: seq<Event>, capacity: nat, k: nat, id: string, i: nat, token: string)
    requires Run(states, events, capacity) && k < |events|
    requires WaitsFor(states[k], id, i, token) && WaitsFor(states[k + 1], id, i, token)
    ensures !Starts(states[k], events[k], Job(id, i)) && !AcceptsResume(states[k], events[k], Job(id, i))
  {
    assert RunStep(states, events, capacity, k);
    ApplyIsOpAfter(states[k], events[k], capacity, id);
    hide Apply, Enabled;
  }

  // --------------------------------------------------------------- how operations end

  /** The events that may end an operation, by the state it ends in. */
  predicate Ending(o: Op, e: Event, id: string, steps: seq<StepRow>, now: State) {
    match now
    case Succeeded =>
      e == Reconcile(id) && !CancelRequested(o.slice) && forall i | 0 <= i < |steps| :: steps[i].state == Succeeded
    case Failed =>
      e == Reconcile(id) && !CancelRequested(o.slice) && AllSettled(steps) && !Any(steps, Interrupted)
      && (Any(steps, Failed) || Any(steps, Cancelled))
    case Cancelled =>
      || (e == Cancel(id) && o.slice.active.None?)
      || (e == Reconcile(id) && CancelRequested(o.slice) && o.executing == {} && !Any(steps, Interrupted))
    case Interrupted => e.Restart? || (e == Reconcile(id) && Any(steps, Interrupted))
    case _ => true
  }

  lemma ReconcileEnds(o: Op, out: set<nat>, id: string)
    requires OpInv(o, out) && o.reconcileDue > 0 && !Terminal(o.slice.row.state)
    ensures var row := Reconciled(o).slice.row; Ending(o, Reconcile(id), id, row.steps, row.state)
    ensures CancelRequested(o.slice) && o.executing == {} ==> Terminal(Reconciled(o).slice.row.state)
    ensures !CancelRequested(o.slice) && AllSettled(SkipPass(o.slice.row.steps)) ==> Terminal(Reconciled(o).slice.row.state)
  {
    ReconciledFacts(o, out);
    AggregateMeaning(SkipPass(o.slice.row.steps));
    hide SkipPass;
  }

  lemma ReconciledFacts(o: Op, out: set<nat>)
    requires OpInv(o, out) && o.reconcileDue > 0
    ensures Closed(Reconciled(o)) && o.slice.row.steps != [] && SkipPass(o.slice.row.steps) != []
    ensures o.slice.active.Some? ==> o.slice.active.value.running == o.executing
  {
    ReconciledInv(o, out);
  }

  /** What recovery makes of an operation, from the rows as the process left them. */
  lemma RecoveryEnds(row: OpRow)
    ensures row.state == Queued || row.state == Running || (row.state == Waiting && Any(row.steps, Running)) ==>
      RecoverRow(row).state == Interrupted && AllSettled(RecoverRow(row).steps)
    ensures row.state == Waiting && !Any(row.steps, Running) ==> RecoverRow(row) == row
    ensures Terminal(row.state) ==> RecoverRow(row).state == row.state
  {
  }

  /** In every run an operation ends as one of these events says, and in no other way. */
  lemma EveryEndingHasItsEvent(states: seq<Sys>, events: seq<Event>, capacity: nat, n: nat, id: string)
    requires Run(states, events, capacity) && n < |events| && id in states[n].ops
    requires !Terminal(states[n].ops[id].slice.row.state)
    ensures id in states[n + 1].ops
    ensures var row := states[n + 1].ops[id].slice.row; Ending(states[n].ops[id], events[n], id, row.steps, row.state)
  {
    hide SysInv, Enabled, Apply, Out, OpAfter;
    RunKeepsInv(states, events, capacity, n);
    assert RunStep(states, events, capacity, n);
    InvOf(states[n], id);
    ApplyIsOpAfter(states[n], events[n], capacity, id);
    if events[n] == Reconcile(id) { DueIsEnabled(states[n], events[n], capacity, id); }
    EndsAfter(states[n].ops[id], Out(states[n], id), events[n], id);
  }

  lemma DueIsEnabled(s: Sys, e: Event, capacity: nat, id: string)
    requires Enabled(s, e, capacity) && id in s.ops && e == Reconcile(id)
    ensures s.ops[id].reconcileDue > 0
  {
  }

  lemma EndsAfter(o: Op, out: set<nat>, e: Event, id: string)
    requires OpInv(o, out) && !Terminal(o.slice.row.state)
    requires e == Reconcile(id) ==> o.reconcileDue > 0
    ensures var row := OpAfter(o, e, id).slice.row; Ending(o, e, id, row.steps, row.state)
  {
    match e {
      case Reconcile(r) => if r == id { ReconcileEnds(o, out, id); }
      case Restart(cut) => RecoveryEnds(CutShort(o, cut, id).slice.row); CutWrites(o, cut, id, 0);
      case _ =>
    }
  }
}

/**
 Operations whose dependency relation is transitively closed: one skip pass is
 always enough for them, so none of them is ever left unfinished.
 */
module OperationClosure {
  import opened OperationCore
  import opened OperationProtocol
  import opened OperationSettling
  import opened OperationSystem
  import opened OperationHistory

  /** A step names every step that its dependencies name. */
  predicate Transitive(steps: seq<StepRow>) {
    forall i, d, e | 0 <= i < |steps| && d in steps[i].deps && d < |steps| && e in steps[d].deps :: e in steps[i].deps
  }

  /** No queued step has a bad dependency. */
  predicate SkipsComplete(steps: seq<StepRow>) {
    forall i | 0 <= i < |steps| && steps[i].state == Queued :: !HasBadDep(steps, i)
  }

  lemma SameRelation(s: seq<StepRow>, t: seq<StepRow>)
    requires SameDeps(s, t)
    ensures Transitive(s) <==> Transitive(t)
  {
    if Transitive(s) {
      forall i, d, e | 0 <= i < |t| && d in t[i].deps && d < |t| && e in t[d].deps ensures e in t[i].deps {
        assert d in s[i].deps && e in s[d].deps;
      }
    }
    if Transitive(t) {
      forall i, d, e | 0 <= i < |s| && d in s[i].deps && d < |s| && e in s[d].deps ensures e in s[i].deps {
        assert d in t[i].deps && e in t[d].deps;
      }
    }
  }

  lemma CompleteIsFixpoint(steps: seq<StepRow>)
    ensures SkipsComplete(steps) <==> SkipPass(steps) == steps
  {
    forall i | 0 <= i < |steps| ensures SkipPass(steps)[i] == steps[i] <==> (steps[i].state == Queued ==> !HasBadDep(steps, i)) {
      SkipPassChanges(steps, i);
    }
    hide HasBadDep, SkipPass;
    if SkipsComplete(steps) {
      assert SkipPass(steps) == steps;
    }
  }

  // ------------------------------------------------- closed relations never strand

  /** With a closed relation one pass is enough. */
  lemma OnePassCompletes(steps: seq<StepRow>)
    requires Transitive(steps)
    ensures SkipsComplete(SkipPass(steps))
  {
    assert OneLevel(steps) by {
      forall i, d | 0 <= i < |steps| && d in steps[i].deps && steps[i].state == Queued && !HasBadDep(steps, i)
          && d < |steps| && steps[d].state == Queued
        ensures !HasBadDep(steps, d)
      {
        assert forall e | e in steps[d].deps :: e in steps[i].deps;
      }
    }
    OnePassIsEnoughExactlyWhen(steps);
    CompleteIsFixpoint(SkipPass(steps));
  }

  /** What a closed relation adds to the invariant: skips are complete unless a reconcile is due. */
  predicate Prompt(o: Op) {
    var row := o.slice.row;
    Transitive(row.steps) ==>
      && (Live(o.slice) && o.reconcileDue == 0 ==> SkipsComplete(row.steps))
      && (row.state == Waiting ==> SkipsComplete(row.steps) && !Any(row.steps, Running))
      && (o.slice.active.None? && !Terminal(row.state) ==> o.reconcileDue == 0 && (row.state == Waiting || AllQueued(row)))
  }

  lemma BegunPrompt(o: Op, step: nat)
    requires Prompt(o)
    ensures Prompt(Begun(o, step))
  {
    var steps, steps' := o.slice.row.steps, Begun(o, step).slice.row.steps;
    SameRelation(steps, steps');
    if SkipsComplete(steps) { NothingWorse(steps, steps'); }
  }

  /** Steps that are not bad stay so, and queued steps do not appear. */
  lemma NothingWorse(s: seq<StepRow>, t: seq<StepRow>)
    requires SkipsComplete(s) && SameDeps(s, t)
    requires forall i | 0 <= i < |s| :: (Bad(t[i].state) ==> Bad(s[i].state)) && (t[i].state == Queued ==> s[i].state == Queued)
    ensures SkipsComplete(t)
  {
    forall i | 0 <= i < |t| && t[i].state == Queued ensures !HasBadDep(t, i) {
      assert !HasBadDep(s, i);
    }
  }

  lemma SameRowPrompt(o: Op, p: Op)
    requires Prompt(o) && p.slice.row == o.slice.row
    requires p.slice.active.None? <==> o.slice.active.None?
    requires (Live(p.slice) ==> Live(o.slice)) && p.reconcileDue == o.reconcileDue
    ensures Prompt(p)
  {
  }

  lemma FinishedPrompt(o: Op, step: nat, outcome: Outcome)
    requires Prompt(o) && Executing(o) && step in o.executing && step < |o.slice.row.steps|
    ensures Prompt(Finished(o, step, outcome))
  {
    var steps, steps' := o.slice.row.steps, Finished(o, step, outcome).slice.row.steps;
    SameRelation(steps, steps');
    assert steps[step].state == Running;
    hide SkipsComplete, Transitive;
  }

  lemma ReconciledPrompt(o: Op)
    requires Prompt(o) && o.reconcileDue > 0
    ensures Prompt(Reconciled(o))
  {
    var steps, p := o.slice.row.steps, Reconciled(o);
    SameRelation(steps, p.slice.row.steps);
    if CancelRequested(o.slice) {
      assert p.slice.row.steps == steps && !Live(p.slice);
      assert p.slice.row.state == o.slice.row.state || Terminal(p.slice.row.state);
    } else if Transitive(steps) {
      assert p.slice.row.steps == SkipPass(steps);
      OnePassCompletes(steps);
      StoredWaiting(o.slice.row.state, SkipPass(steps));
      hide SkipsComplete, Transitive, SkipPass;
    }
  }

  /** A reconcile that stores waiting found nothing running. */
  lemma StoredWaiting(was: State, steps: seq<StepRow>)
    ensures Aggregate(steps) == Waiting ==> !Any(steps, Running)
    ensures Terminal(Aggregate(steps)) ==> Terminal(Persist(was, Aggregate(steps)))
    ensures Persist(was, Aggregate(steps)) == Waiting ==> Aggregate(steps) == Waiting
  {
    AggregateMeaning(steps);
  }

  lemma CancelCalledPrompt(o: Op)
    requires Prompt(o)
    ensures Prompt(CancelCalled(o))
  {
    var steps, steps' := o.slice.row.steps, CancelCalled(o).slice.row.steps;
    SameRelation(steps, steps');
    hide Transitive, HasBadDep;
  }

  lemma ResumedPrompt(o: Op, step: nat, token: string, hasExecutor: bool)
    requires Prompt(o) && StartedInOrder(o.slice.row.steps)
    ensures Prompt(Resumed(o, step, token, hasExecutor))
  {
    if ResumeSection(o.slice, step, token, hasExecutor).Accepted? {
      var steps, steps' := o.slice.row.steps, Resumed(o, step, token, hasExecutor).slice.row.steps;
      SameRelation(steps, steps');
      assert steps[step].state == Waiting && DepsSucceeded(steps, step);
      if SkipsComplete(steps) { RequeuedStaysComplete(steps, steps', step); }
    }
  }

  /** A step whose dependencies have succeeded may be queued again. */
  lemma RequeuedStaysComplete(s: seq<StepRow>, t: seq<StepRow>, step: nat)
    requires SkipsComplete(s) && StepWritten(s, t, step, Queued) && DepsSucceeded(s, step) && !Bad(s[step].state)
    ensures SkipsComplete(t)
  {
    forall i | 0 <= i < |t| && t[i].state == Queued ensures !HasBadDep(t, i) {
      if i == step { assert !HasBadDep(s, step); } else { assert !HasBadDep(s, i); }
    }
  }

  lemma RestartedPrompt(o: Op, cut: Cut, id: string)
    requires Prompt(o) && o.slice.row.state != Skipped
    ensures Prompt(Restarted(CutShort(o, cut, id)))
  {
    var p := CutShort(o, cut, id);
    var steps, steps', steps'' := o.slice.row.steps, p.slice.row.steps, Restarted(p).slice.row.steps;
    SameRelation(steps, steps'');
    if o.slice.row.state == Waiting && Transitive(steps) && !Any(steps', Running) {
      assert SkipsComplete(steps);
      CutStaysComplete(o, cut, id);
    }
    hide SkipsComplete, Transitive;
  }

  lemma CutStaysComplete(o: Op, cut: Cut, id: string)
    requires SkipsComplete(o.slice.row.steps) && !Any(CutShort(o, cut, id).slice.row.steps, Running)
    ensures SkipsComplete(CutShort(o, cut, id).slice.row.steps)
  {
    var steps, steps' := o.slice.row.steps, CutShort(o, cut, id).slice.row.steps;
    match cut
    case Between =>
    case InBegin(job) => NothingWorse(steps, steps');
    case InCancel(_) => if steps' != steps { assert steps' == CancelSteps(steps); }
    case InSkips(_, n) => assert SkipPart(steps, n) == steps;
  }

  lemma OpAfterPrompt(o: Op, out: set<nat>, e: Event, id: string)
    requires OpInv(o, out) && Prompt(o)
    requires e.Finish? && e.job.op == id ==> e.job.step in o.executing
    requires e.Activate? && e.id == id ==> o.activateDue
    ensures Prompt(OpAfter(o, e, id))
  {
    hide Prompt;
    match e {
      case Activate(r) => if r == id { ActivatedPrompt(o, out); }
      case TakeSnapshot(r) => SameRowPrompt(o, OpAfter(o, e, id));
      case Enqueue(r, snapshot) => SameRowPrompt(o, OpAfter(o, e, id));
      case Begin(job) => BegunPrompt(o, job.step);
      case Finish(job, outcome) =>
        if job.op == id && job.step < |o.slice.row.steps| { FinishedPrompt(o, job.step, outcome); }
      case Reconcile(r) => if o.reconcileDue > 0 { ReconciledPrompt(o); }
      case Cancel(r) => CancelCalledPrompt(o);
      case Resume(r, step, token, hasExecutor) => ResumedPrompt(o, step, token, hasExecutor);
      case Restart(cut) => RestartedPrompt(o, cut, id);
      case _ =>
    }
  }

  lemma ActivatedPrompt(o: Op, out: set<nat>)
    requires OpInv(o, out) && Prompt(o) && o.activateDue
    ensures Prompt(Activated(o))
  {
    assert Untouched(o);
  }

  lemma SubmittedPrompt(deps: seq<seq<nat>>)
    ensures Prompt(Submitted(deps))
  {
  }

  lemma {:induction false} RunStaysPrompt(states: seq<Sys>, events: seq<Event>, capacity: nat, n: nat, id: string)
    requires Run(states, events, capacity) && n < |states| && id in states[n].ops
    ensures Prompt(states[n].ops[id])
  {
    hide Prompt, SysInv, OpInv, OpAfter, Out;
    if n > 0 {
      var s, e := states[n - 1], events[n - 1];
      assert RunStep(states, events, capacity, n - 1);
      if id in s.ops {
        hide Apply;
        RunKeepsInv(states, events, capacity, n - 1);
        RunStaysPrompt(states, events, capacity, n - 1, id);
        InvOf(s, id);
        ApplyIsOpAfter(s, e, capacity, id);
        OpAfterPrompt(s.ops[id], Out(s, id), e, id);
      } else {
        hide Submitted, Restarted, CutShort;
        assert e.Submit? && e.id == id;
        SubmittedPrompt(e.deps);
      }
    }
  }

  /** In no run is an idle operation with a closed relation left unfinished, unless a step waits for confirmation. */
  lemma ClosedRelationsFinish(states: seq<Sys>, events: seq<Event>, capacity: nat, n: nat, id: string)
    requires Run(states, events, capacity) && n < |states| && id in states[n].ops
    requires Transitive(states[n].ops[id].slice.row.steps)
    requires Idle(states[n].ops[id], Out(states[n], id)) && !Any(states[n].ops[id].slice.row.steps, Waiting)
    ensures Terminal(states[n].ops[id].slice.row.state)
  {
    RunStaysPrompt(states, events, capacity, n, id);
    RunKeepsInv(states, events, capacity, n);
    InvOf(states[n], id);
    var o := states[n].ops[id];
    assert SkipsComplete(o.slice.row.steps);
    CompleteIsFixpoint(o.slice.row.steps);
    hide *;
    IdleIsTerminalExactlyWhen(o, Out(states[n], id));
  }
}

/**
 Which submissions can be stranded: an operation can be left running with nothing
 due if and only if its dependency relation is not transitively closed.  The run
 that strands one keeps at most two workers busy: one of them holds on to a step
 while the other finishes everything that does not need it.
 */
module OperationStranding {
  import opened OperationCore
  import opened OperationProtocol
  import opened OperationSettling
  import opened OperationSystem
  import opened OperationHistory
  import opened OperationClosure
  import OperationStuck

  /** How much executing is left: two for a queued step, one for a running one. */
  function Work(steps: seq<StepRow>): nat {
    if steps == [] then 0
    else (if steps[0].state == Queued then 2 else if steps[0].state == Running then 1 else 0) + Work(steps[1..])
  }

  lemma {:induction false} WorkFalls(s: seq<StepRow>, i: nat, row: StepRow)
    requires i < |s|
    requires (s[i].state == Queued && row.state != Queued) || (s[i].state == Running && row.state == Succeeded)
    ensures Work(s[i := row]) < Work(s)
  {
    var t := s[i := row];
    if i == 0 {
      assert t[1..] == s[1..];
    } else {
      assert t[1..] == s[1..][i - 1 := row] && t[0] == s[0];
      WorkFalls(s[1..], i - 1, row);
    }
  }

  /** One operation, live and unharmed: its steps are queued, running or succeeded, and step `a` has not succeeded. */
  predicate Unharmed(o: Op, a: nat) {
    var steps := o.slice.row.steps;
    && a < |steps| && steps[a].state != Succeeded && !o.activateDue && Live(o.slice) && !Terminal(o.slice.row.state)
    && forall i | 0 <= i < |steps| :: steps[i].state == Queued || steps[i].state == Running || steps[i].state == Succeeded
  }

  /** The steps need what was submitted. */
  predicate Needs(steps: seq<StepRow>, deps: seq<seq<nat>>) {
    |steps| == |deps| && forall i | 0 <= i < |steps| :: steps[i].deps == deps[i]
  }

  /** No more than two workers have a job: they look at it, or execute its step. */
  predicate TwoBusy(s: Sys, id: string) { id in s.ops ==> |s.held| + |s.ops[id].executing| <= 2 }

  predicate AlwaysTwoBusy(states: seq<Sys>, id: string) { forall i | 0 <= i < |states| :: TwoBusy(states[i], id) }

  /** The operation is the only one. */
  predicate Underway(s: Sys, id: string, a: nat, deps: seq<seq<nat>>) {
    && s.ops.Keys == {id} && Needs(s.ops[id].slice.row.steps, deps) && Unharmed(s.ops[id], a) && TwoBusy(s, id)
  }

  /** Nothing is to be done but to finish step `a`. */
  predicate AtRest(s: Sys, id: string, a: nat)
    requires id in s.ops
  {
    var o := s.ops[id];
    && o.reconcileDue == 0 && o.enqueueDue == 0 && o.snapshots == multiset{} && o.executing <= {a}
    && s.held == multiset{} && s.jobs == [] && s.pending == []
  }

  /** Less is left to do, in the order in which it is done. */
  predicate Nearer(t: Sys, s: Sys, id: string)
    requires id in s.ops && id in t.ops
  {
    var o, p := s.ops[id], t.ops[id];
    var w, w' := Work(o.slice.row.steps), Work(p.slice.row.steps);
    || w' < w
    || (w' == w && (
        || p.reconcileDue < o.reconcileDue
        || (p.reconcileDue == o.reconcileDue && (
            || p.enqueueDue < o.enqueueDue
            || (p.enqueueDue == o.enqueueDue && (
                || |p.snapshots| < |o.snapshots|
                || (|p.snapshots| == |o.snapshots| && QueueNearer(t, s))))))))
  }

  predicate QueueNearer(t: Sys, s: Sys) {
    || |Rest(t)| < |Rest(s)|
    || (|Rest(t)| == |Rest(s)| && (
        || |t.jobs| < |s.jobs|
        || (|t.jobs| == |s.jobs| && (
            || |t.held| < |s.held|
            || (|t.held| == |s.held| && !t.sent && s.sent)))))
  }

  /** The event keeps the operation unharmed and leaves less to do. */
  ghost predicate Helps(s: Sys, e: Event, capacity: nat, id: string, a: nat, deps: seq<seq<nat>>) {
    && id in s.ops && Enabled(s, e, capacity)
    && Underway(Apply(s, e, capacity), id, a, deps) && Nearer(Apply(s, e, capacity), s, id)
  }

  lemma {:induction false} FewerThan(a: set<nat>, b: set<nat>)
    requires a <= b
    ensures |a| <= |b|
  {
    assert b == a + (b - a);
  }

  lemma EnqueueHelps(s: Sys, capacity: nat, id: string, a: nat, deps: seq<seq<nat>>, snapshot: seq<StepRow>)
    requires Underway(s, id, a, deps) && snapshot in s.ops[id].snapshots
    ensures Helps(s, Enqueue(id, snapshot), capacity, id, a, deps)
  {
    var o := s.ops[id];
    assert |o.snapshots - multiset{snapshot}| == |o.snapshots| - 1;
    hide Rest, Work;
  }

  lemma TakeSnapshotHelps(s: Sys, capacity: nat, id: string, a: nat, deps: seq<seq<nat>>)
    requires Underway(s, id, a, deps) && s.ops[id].enqueueDue > 0
    ensures Helps(s, TakeSnapshot(id), capacity, id, a, deps)
  {
    hide Rest, Work;
  }

  lemma ReconcileHelps(s: Sys, capacity: nat, id: string, a: nat, deps: seq<seq<nat>>)
    requires Underway(s, id, a, deps) && s.ops[id].reconcileDue > 0
    ensures Helps(s, Reconcile(id), capacity, id, a, deps)
  {
    var steps := s.ops[id].slice.row.steps;
    assert SkipsComplete(steps);
    CompleteIsFixpoint(steps);
    assert !Settled(steps[a].state);
    AggregateMeaning(steps);
    hide Rest, Work, SkipPass, SkipsComplete, Aggregate;
  }

  lemma FinishHelps(s: Sys, capacity: nat, id: string, a: nat, deps: seq<seq<nat>>, i: nat)
    requires Underway(s, id, a, deps) && Executing(s.ops[id]) && i in s.ops[id].executing && i != a
    ensures Helps(s, Finish(Job(id, i), Done), capacity, id, a, deps)
  {
    var steps := s.ops[id].slice.row.steps;
    WorkFalls(steps, i, steps[i].(state := Succeeded, token := ""));
    assert |s.ops[id].executing - {i}| <= |s.ops[id].executing|;
    hide Rest, Work;
  }

  lemma BeginHelps(s: Sys, capacity: nat, id: string, a: nat, deps: seq<seq<nat>>, job: Job)
    requires Underway(s, id, a, deps) && job in s.held && job.op == id
    ensures Helps(s, Begin(job), capacity, id, a, deps)
  {
    var o := s.ops[id];
    assert |s.held - multiset{job}| == |s.held| - 1;
    SameQueue(s, Apply(s, Begin(job), capacity));
    if BeginSection(o.slice, job.step).1 {
      var steps := o.slice.row.steps;
      WorkFalls(steps, job.step, WithState(steps[job.step], Running));
    }
    hide Work, Rest;
  }

  lemma QueueHelps(s: Sys, e: Event, capacity: nat, id: string, a: nat, deps: seq<seq<nat>>)
    requires Underway(s, id, a, deps) && Enabled(s, e, capacity) && (e.Send? || e.Pop? || e.Receive?) && Fifo(s)
    requires s.held == multiset{} && s.ops[id].executing <= {a}
    ensures Helps(s, e, capacity, id, a, deps)
  {
    FewerThan(s.ops[id].executing, {a});
    hide Work, Unharmed;
  }

  /** While something is left to do, some event does it. */
  lemma Pick(s: Sys, capacity: nat, id: string, a: nat, deps: seq<seq<nat>>) returns (e: Event)
    requires SysInv(s) && Underway(s, id, a, deps) && !AtRest(s, id, a) && capacity > 0
    ensures Helps(s, e, capacity, id, a, deps)
  {
    var o := s.ops[id];
    InvOf(s, id);
    hide OpInv, Underway, Helps, Out, Layout, Ordered, Closed, Counted, Scheduled, Executing, SysInv, Enabled, Apply;
    if o.snapshots != multiset{} {
      var snapshot :| snapshot in o.snapshots;
      e := Enqueue(id, snapshot);
      EnqueueHelps(s, capacity, id, a, deps, snapshot);
    } else if o.enqueueDue > 0 {
      e := TakeSnapshot(id);
      TakeSnapshotHelps(s, capacity, id, a, deps);
    } else if o.reconcileDue > 0 {
      e := Reconcile(id);
      ReconcileHelps(s, capacity, id, a, deps);
    } else if !(o.executing <= {a}) {
      var i :| i in o.executing && i != a;
      e := Finish(Job(id, i), Done);
      FinishHelps(s, capacity, id, a, deps, i);
    } else if s.held != multiset{} {
      var job :| job in s.held;
      e := Begin(job);
      HeldIsOwn(s, id, a, deps, job);
      BeginHelps(s, capacity, id, a, deps, job);
    } else {
      e := PickQueue(s, capacity, id, a, deps);
    }
  }

  lemma PickQueue(s: Sys, capacity: nat, id: string, a: nat, deps: seq<seq<nat>>) returns (e: Event)
    requires SysInv(s) && Underway(s, id, a, deps) && capacity > 0 && (s.jobs != [] || s.pending != [])
    requires s.held == multiset{} && s.ops[id].executing <= {a}
    ensures Helps(s, e, capacity, id, a, deps)
  {
    hide OpInv, Out, Helps, Rest, Unharmed, Needs;
    e := if s.jobs != [] then Receive else if s.sent then Pop else Send;
    QueueHelps(s, e, capacity, id, a, deps);
  }

  lemma HeldIsOwn(s: Sys, id: string, a: nat, deps: seq<seq<nat>>, job: Job)
    requires SysInv(s) && Underway(s, id, a, deps) && job in s.held
    ensures job.op == id
  {
    assert HasJob(s, job);
    assert job.op in s.ops.Keys;
  }

  /** Any run in which the operation is unharmed goes on until only step `a` is left to finish. */
  lemma Drive(states: seq<Sys>, events: seq<Event>, capacity: nat, id: string, a: nat, deps: seq<seq<nat>>)
    returns (states': seq<Sys>, events': seq<Event>)
    requires Run(states, events, capacity) && capacity > 0 && Underway(states[|events|], id, a, deps)
    requires AlwaysTwoBusy(states, id)
    ensures Run(states', events', capacity) && Underway(states'[|events'|], id, a, deps)
    ensures AtRest(states'[|events'|], id, a) && AlwaysTwoBusy(states', id)
    decreases Work(states[|events|].ops[id].slice.row.steps), states[|events|].ops[id].reconcileDue,
      states[|events|].ops[id].enqueueDue, |states[|events|].ops[id].snapshots|, |Rest(states[|events|])|,
      |states[|events|].jobs|, |states[|events|].held|, if states[|events|].sent then 1 else 0
  {
    var s := states[|events|];
    if AtRest(s, id, a) {
      return states, events;
    }
    hide Run, SysInv, Underway, AtRest, Apply, Enabled, Work, Rest;
    RunKeepsInv(states, events, capacity, |events|);
    var e := Pick(s, capacity, id, a, deps);
    states', events' := OperationStuck.Then(states, events, capacity, e);
    assert TwoBusy(states'[|events'|], id) by { UnderwayIsBusy(states'[|events'|], id, a, deps); }
    states', events' := Drive(states', events', capacity, id, a, deps);
  }

  lemma UnderwayIsBusy(s: Sys, id: string, a: nat, deps: seq<seq<nat>>)
    requires Underway(s, id, a, deps)
    ensures TwoBusy(s, id)
  {
  }

  /** After its submission an operation is under way. */
  lemma Starts(deps: seq<seq<nat>>, capacity: nat, id: string, a: nat) returns (states: seq<Sys>, events: seq<Event>)
    requires ValidDeps(deps) && a < |deps|
    ensures Run(states, events, capacity) && Underway(states[|events|], id, a, deps) && AlwaysTwoBusy(states, id)
  {
    OperationStuck.NothingYet(capacity);
    hide Run, ValidDeps;
    states, events := OperationStuck.Then([INITIAL], [], capacity, Submit(id, deps));
    states, events := OperationStuck.Then(states, events, capacity, Activate(id));
    assert states[|events|].ops == map[id := Activated(Submitted(deps))];
  }

  /** When only step `a` is left, it is running. */
  lemma RestsOnA(s: Sys, id: string, a: nat, deps: seq<seq<nat>>)
    requires SysInv(s) && Underway(s, id, a, deps) && AtRest(s, id, a)
    ensures a in s.ops[id].executing && Out(s, id) == {} && !SomeReady(s.ops[id].slice.row.steps)
  {
    var o := s.ops[id];
    var steps := o.slice.row.steps;
    InvOf(s, id);
    OutMeansJob(s, id);
    assert Out(s, id) == {};
    assert !SomeReady(steps);
    hide Out, Scheduled, Ordered, Counted, SysInv, OpInv;
    if steps[a].state == Queued {
      assert forall i | 0 <= i < |steps| :: steps[i].state == Running ==> i in o.executing && i == a;
      SomethingIsReady(steps, a);
    }
  }

  lemma SomethingIsReady(steps: seq<StepRow>, a: nat)
    requires Acyclic(steps) && a < |steps| && steps[a].state == Queued
    requires forall i | 0 <= i < |steps| :: steps[i].state == Queued || steps[i].state == Succeeded
    ensures SomeReady(steps)
  {
    var rank :| Ranked(steps, rank);
    var low := QueuedChain(steps, rank, a);
    assert Ready(steps, low);
  }

  /** What failing `a` makes of the steps: those that need it directly are skipped. */
  lemma FailingSkips(steps: seq<StepRow>, a: nat, b: nat, c: nat)
    requires a < |steps| && b < |steps| && c < |steps| && a in steps[b].deps && b in steps[c].deps && a !in steps[c].deps
    requires steps[a].state == Running && steps[b].state == Queued && steps[c].state == Queued
    requires forall i | 0 <= i < |steps| :: steps[i].state == Queued || steps[i].state == Running || steps[i].state == Succeeded
    requires forall i | 0 <= i < |steps| && i != a :: steps[i].state != Running
    requires !SomeReady(steps)
    ensures var t := SkipPass(steps[a := steps[a].(state := Failed, token := "")]);
      && t[c].state == Queued && Aggregate(t) == Running && !SomeReady(t) && SkipPass(t) != t && !Any(t, Waiting)
  {
    var failed := steps[a := steps[a].(state := Failed, token := "")];
    var t := SkipPass(failed);
    forall i | 0 <= i < |steps|
      ensures t[i] == if steps[i].state == Queued && a in steps[i].deps then WithState(steps[i], Skipped) else failed[i]
    {
      SkipPassChanges(failed, i);
      assert HasBadDep(failed, i) <==> a in steps[i].deps by {
        if a in steps[i].deps { assert Bad(failed[a].state); }
      }
    }
    assert t[b].state == Skipped && HasBadDep(t, c) && t[c].state == Queued;
    SkipPassChanges(t, c);
    assert !Settled(t[c].state);
    forall i | 0 <= i < |t| ensures !Ready(t, i) {
      if Ready(t, i) {
        assert forall d | d in steps[i].deps :: d in t[i].deps && steps[d].state == Succeeded;
        assert Ready(steps, i);
      }
    }
    assert !Any(t, Waiting) && !Any(t, Running);
  }

  /** An operation with nothing due but some reconciles and scheduling calls. */
  predicate Calm(o: Op, row: OpRow, reconcileDue: nat, enqueueDue: nat) {
    && Live(o.slice) && o.slice.row == row && o.executing == {} && o.reconcileDue == reconcileDue
    && o.enqueueDue == enqueueDue && o.snapshots == multiset{}
  }

  lemma LastFinish(o: Op, a: nat)
    requires Unharmed(o, a) && a in o.executing && o.executing <= {a}
    requires o.reconcileDue == 0 && o.enqueueDue == 0 && o.snapshots == multiset{}
    ensures var steps := o.slice.row.steps;
      Calm(Finished(o, a, Fault), OpRow(o.slice.row.state, steps[a := steps[a].(state := Failed, token := "")]), 1, 0)
  {
  }

  lemma LastReconcile(o: Op, state: State, failed: seq<StepRow>)
    requires Calm(o, OpRow(state, failed), 1, 0) && !Terminal(state) && Aggregate(SkipPass(failed)) == Running
    ensures Calm(Reconciled(o), OpRow(Running, SkipPass(failed)), 0, 1)
  {
    hide SkipPass, Aggregate;
  }

  lemma LastEnqueue(o: Op, skipped: seq<StepRow>)
    requires Calm(o, OpRow(Running, skipped), 0, 1) && !SomeReady(skipped)
    ensures skipped in SnapshotTaken(o).snapshots
    ensures var (p, jobs) := Enqueued(SnapshotTaken(o), skipped); Calm(p, OpRow(Running, skipped), 0, 0) && jobs == []
  {
    hide SomeReady, NewJobs;
    var snapped := SnapshotTaken(o);
    NothingNew(skipped, snapped.slice.active.value.enqueued, |skipped|);
    assert multiset{} + multiset{skipped} - multiset{skipped} == multiset{};
  }

  /** Step `a` fails, the reconcile skips what needs it directly, and nothing more is due. */
  lemma FailsLast(states: seq<Sys>, events: seq<Event>, capacity: nat, id: string, a: nat, b: nat, c: nat, deps: seq<seq<nat>>)
    returns (states': seq<Sys>, events': seq<Event>)
    requires Run(states, events, capacity) && Underway(states[|events|], id, a, deps) && AtRest(states[|events|], id, a)
    requires b < |deps| && c < |deps| && a in deps[b] && b in deps[c] && a !in deps[c] && AlwaysTwoBusy(states, id)
    ensures Run(states', events', capacity) && LeftBehind(states'[|events'|], id, c, deps) && AlwaysTwoBusy(states', id)
  {
    var s := states[|events|];
    var steps := s.ops[id].slice.row.steps;
    var skipped := SkipPass(steps[a := steps[a].(state := Failed, token := "")]);
    hide Run, SkipPass, Aggregate, SomeReady, Any, LeftBehind;
    RunKeepsInv(states, events, capacity, |events|);
    OnlyAIsLeft(s, id, a, b, c, deps);
    states', events' := EndsWith(states, events, capacity, id, a, deps, skipped);
    StaysBehind(states'[|events'|], id, c, deps, skipped);
  }

  /** What is known when only step `a` is left to finish. */
  lemma OnlyAIsLeft(s: Sys, id: string, a: nat, b: nat, c: nat, deps: seq<seq<nat>>)
    requires SysInv(s) && Underway(s, id, a, deps) && AtRest(s, id, a)
    requires b < |deps| && c < |deps| && a in deps[b] && b in deps[c] && a !in deps[c]
    ensures a in s.ops[id].executing
    ensures var steps := s.ops[id].slice.row.steps;
      var t := SkipPass(steps[a := steps[a].(state := Failed, token := "")]);
      && t[c].state == Queued && Aggregate(t) == Running && !SomeReady(t) && SkipPass(t) != t && !Any(t, Waiting)
  {
    var o := s.ops[id];
    var steps := o.slice.row.steps;
    RestsOnA(s, id, a, deps);
    InvOf(s, id);
    hide SysInv, OpInv, Out, SkipPass, Aggregate, SomeReady, Any, Scheduled, Counted, Closed,
      Layout, Ordered, Executing;
    BehindIsQueued(o, Out(s, id), a, b);
    BehindIsQueued(o, Out(s, id), b, c);
    OnlyARuns(o, a);
    FailingSkips(steps, a, b, c);
  }

  lemma OnlyARuns(o: Op, a: nat)
    requires Executing(o) && o.executing <= {a}
    ensures forall i | 0 <= i < |o.slice.row.steps| && i != a :: o.slice.row.steps[i].state != Running
    ensures a in o.executing ==> a < |o.slice.row.steps| && o.slice.row.steps[a].state == Running
  {
    assert forall i | 0 <= i < |o.slice.row.steps| && o.slice.row.steps[i].state == Running :: i in o.executing;
  }

  /** One more event that leaves no worker busy. */
  lemma ThenFree(states: seq<Sys>, events: seq<Event>, capacity: nat, e: Event, id: string)
    returns (states': seq<Sys>, events': seq<Event>)
    requires Run(states, events, capacity) && Enabled(states[|events|], e, capacity) && AlwaysTwoBusy(states, id)
    requires var t := Apply(states[|events|], e, capacity);
      id in t.ops && t.held == multiset{} && t.ops[id].executing == {}
    ensures Run(states', events', capacity) && states'[|events'|] == Apply(states[|events|], e, capacity)
    ensures AlwaysTwoBusy(states', id)
  {
    hide Run, Enabled, Apply;
    states', events' := OperationStuck.Then(states, events, capacity, e);
  }

  lemma TakingRunsNothing(o: Op)
    requires o.enqueueDue > 0
    ensures SnapshotTaken(o).executing == o.executing
  {
  }

  lemma NeedsKept(steps: seq<StepRow>, a: nat, deps: seq<seq<nat>>)
    requires Needs(steps, deps) && a < |steps|
    ensures Needs(SkipPass(steps[a := steps[a].(state := Failed, token := "")]), deps)
  {
  }

  lemma EndsWith(states: seq<Sys>, events: seq<Event>, capacity: nat, id: string, a: nat, deps: seq<seq<nat>>,
                 skipped: seq<StepRow>)
    returns (states': seq<Sys>, events': seq<Event>)
    requires Run(states, events, capacity) && Underway(states[|events|], id, a, deps) && AtRest(states[|events|], id, a)
    requires a in states[|events|].ops[id].executing && Aggregate(skipped) == Running && !SomeReady(skipped)
    requires AlwaysTwoBusy(states, id)
    requires var steps := states[|events|].ops[id].slice.row.steps;
      skipped == SkipPass(steps[a := steps[a].(state := Failed, token := "")])
    ensures Run(states', events', capacity) && id in states'[|events'|].ops
    ensures Calm(states'[|events'|].ops[id], OpRow(Running, skipped), 0, 0) && Needs(skipped, deps)
    ensures states'[|events'|].pending == states'[|events'|].jobs == [] && states'[|events'|].held == multiset{}
    ensures AlwaysTwoBusy(states', id)
  {
    var o := states[|events|].ops[id];
    assert a < |o.slice.row.steps| && !Terminal(o.slice.row.state);
    NeedsKept(o.slice.row.steps, a, deps);
    LastFinish(o, a);
    hide Run, Finished, Reconciled, Enqueued, SnapshotTaken, SkipPass, Aggregate, SomeReady, Needs, Unharmed, AlwaysTwoBusy;
    states', events' := ThenFree(states, events, capacity, Finish(Job(id, a), Fault), id);
    LastReconcile(states'[|events'|].ops[id], o.slice.row.state, states'[|events'|].ops[id].slice.row.steps);
    states', events' := ThenFree(states', events', capacity, Reconcile(id), id);
    LastEnqueue(states'[|events'|].ops[id], skipped);
    assert SnapshotTaken(states'[|events'|].ops[id]).executing == {} by { TakingRunsNothing(states'[|events'|].ops[id]); }
    states', events' := ThenFree(states', events', capacity, TakeSnapshot(id), id);
    states', events' := ThenFree(states', events', capacity, Enqueue(id, skipped), id);
    assert JobsOf(id, []) == [];
  }

  lemma StaysBehind(s: Sys, id: string, c: nat, deps: seq<seq<nat>>, skipped: seq<StepRow>)
    requires id in s.ops && Calm(s.ops[id], OpRow(Running, skipped), 0, 0) && Needs(skipped, deps)
    requires s.pending == s.jobs == [] && s.held == multiset{} && c < |deps|
    requires skipped[c].state == Queued && SkipPass(skipped) != skipped && !Any(skipped, Waiting)
    ensures LeftBehind(s, id, c, deps)
  {
    OutMeansJob(s, id);
    assert Out(s, id) == {};
    hide SkipPass, Any;
  }

  /** A step that needs one which has not succeeded is still queued. */
  lemma BehindIsQueued(o: Op, out: set<nat>, d: nat, i: nat)
    requires Ordered(o, out) && Executing(o) && i < |o.slice.row.steps| && d < |o.slice.row.steps|
    requires d in o.slice.row.steps[i].deps && o.slice.row.steps[d].state != Succeeded
    requires var st := o.slice.row.steps[i].state; st == Queued || st == Running || st == Succeeded
    ensures o.slice.row.steps[i].state == Queued
  {
  }

  lemma {:induction false} NothingNew(steps: seq<StepRow>, enqueued: set<nat>, n: nat)
    requires !SomeReady(steps) && n <= |steps|
    ensures NewJobs(steps, enqueued, n) == []
  {
    if n > 0 { NothingNew(steps, enqueued, n - 1); }
  }

  /** The operation has been submitted with these dependencies and is stranded. */
  ghost predicate LeftBehind(s: Sys, id: string, step: nat, deps: seq<seq<nat>>) {
    && id in s.ops && Needs(s.ops[id].slice.row.steps, deps) && step < |deps|
    && OperationStuck.Stranded(s, id, step)
  }

  /** Some run, which two workers are enough for, leaves the operation behind. */
  ghost predicate CanStrand(deps: seq<seq<nat>>, capacity: nat) {
    exists states, events, id, step ::
      Run(states, events, capacity) && LeftBehind(states[|events|], id, step, deps) && AlwaysTwoBusy(states, id)
  }

  /** No run at all, with any number of workers, leaves the operation behind. */
  ghost predicate NeverStrands(deps: seq<seq<nat>>, capacity: nat) {
    forall states, events, id, step :: Run(states, events, capacity) ==> !LeftBehind(states[|events|], id, step, deps)
  }

  /** A submission can be stranded if and only if its dependency relation is not transitively closed. */
  lemma StrandsExactlyWhen(deps: seq<seq<nat>>, capacity: nat)
    requires ValidDeps(deps) && capacity > 0
    ensures if Transitive(QueuedSteps(deps)) then NeverStrands(deps, capacity) else CanStrand(deps, capacity)
  {
    if Transitive(QueuedSteps(deps)) {
      forall states, events, id, step | Run(states, events, capacity) ensures !LeftBehind(states[|events|], id, step, deps) {
        if LeftBehind(states[|events|], id, step, deps) { NeverBehind(states, events, capacity, id, step, deps); }
      }
    } else {
      var states, events, id, step := StrandingRun(deps, capacity);
      assert Run(states, events, capacity) && LeftBehind(states[|events|], id, step, deps) && AlwaysTwoBusy(states, id);
    }
  }

  lemma NeverBehind(states: seq<Sys>, events: seq<Event>, capacity: nat, id: string, step: nat, deps: seq<seq<nat>>)
    requires Run(states, events, capacity) && LeftBehind(states[|events|], id, step, deps)
    ensures !Transitive(QueuedSteps(deps))
  {
    var steps := states[|events|].ops[id].slice.row.steps;
    SameRelation(steps, QueuedSteps(deps));
    if Transitive(steps) {
      ClosedRelationsFinish(states, events, capacity, |events|, id);
    }
  }

  lemma StrandingRun(deps: seq<seq<nat>>, capacity: nat)
    returns (states: seq<Sys>, events: seq<Event>, id: string, step: nat)
    requires ValidDeps(deps) && capacity > 0 && !Transitive(QueuedSteps(deps))
    ensures Run(states, events, capacity) && LeftBehind(states[|events|], id, step, deps) && AlwaysTwoBusy(states, id)
  {
    var c, b, a :| 0 <= c < |deps| && b in deps[c] && b < |deps| && a in deps[b] && a !in deps[c];
    assert QueuedSteps(deps)[b].deps == deps[b];
    id, step := "op", c;
    states, events := Starts(deps, capacity, id, a);
    states, events := Drive(states, events, capacity, id, a, deps);
    states, events := FailsLast(states, events, capacity, id, a, b, c, deps);
  }
}

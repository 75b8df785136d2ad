/**
 A run that leaves an operation running for ever: A fails, B needs A, C needs B.
 The reconcile after A's failure skips B, but C is judged by B's old state; no
 further reconcile is due, so C stays queued.
 */
module OperationStuck {
  import opened OperationCore
  import opened OperationProtocol
  import opened OperationSettling
  import opened OperationSystem
  import opened OperationHistory

  const CHAIN: seq<seq<nat>> := [[], [0], [1]]
  const ID := "op"

  function Steps(a: State, b: State, c: State): seq<StepRow> {
    [StepRow([], a, ""), StepRow([0], b, ""), StepRow([1], c, "")]
  }

  function Stage(state: State, steps: seq<StepRow>, active: Option<Active>, executing: set<nat>, run: nat,
                 activateDue: bool, reconcileDue: nat, enqueueDue: nat, snapshots: multiset<seq<StepRow>>): Op {
    Op(Slice(OpRow(state, steps), active), executing, [run, 0, 0], [0, 0, 0], activateDue, reconcileDue, enqueueDue, snapshots)
  }

  const FRESH := Steps(Queued, Queued, Queued)
  const O1 := Stage(Queued, FRESH, None, {}, 0, true, 0, 0, multiset{})
  const O2 := Stage(Queued, FRESH, Some(Active({}, {}, false)), {}, 0, false, 0, 1, multiset{})
  const O3 := Stage(Queued, FRESH, Some(Active({}, {}, false)), {}, 0, false, 0, 0, multiset{FRESH})
  const O4 := Stage(Queued, FRESH, Some(Active({0}, {}, false)), {}, 0, false, 0, 0, multiset{})
  const O8 := Stage(Running, Steps(Running, Queued, Queued), Some(Active({0}, {0}, false)), {0}, 1, false, 0, 0, multiset{})
  const O9 := Stage(Running, Steps(Failed, Queued, Queued), Some(Active({0}, {}, false)), {}, 1, false, 1, 0, multiset{})
  const SKIPPED := Steps(Failed, Skipped, Queued)
  const O10 := Stage(Running, SKIPPED, Some(Active({0}, {}, false)), {}, 1, false, 0, 1, multiset{})
  const O11 := Stage(Running, SKIPPED, Some(Active({0}, {}, false)), {}, 1, false, 0, 0, multiset{SKIPPED})
  const O12 := Stage(Running, SKIPPED, Some(Active({0}, {}, false)), {}, 1, false, 0, 0, multiset{})

  lemma SubmitsChain()
    ensures ValidDeps(CHAIN) && Submitted(CHAIN) == O1
  {
    var steps := Submitted(CHAIN).slice.row.steps;
    assert steps == FRESH;
    assert Ranked(steps, [0, 1, 2]);
    assert Submitted(CHAIN).runs == [0, 0, 0];
  }

  lemma EnqueuesFirst()
    ensures Enqueued(O3, FRESH) == (O4, [0])
  {
    assert NewJobs(FRESH, {}, 0) == [];
    assert Ready(FRESH, 0);
    assert NewJobs(FRESH, {}, 1) == [0];
    assert !Ready(FRESH, 1) by { assert 0 in FRESH[1].deps; }
    assert NewJobs(FRESH, {}, 2) == [0];
    assert !Ready(FRESH, 2) by { assert 1 in FRESH[2].deps; }
    assert NewJobs(FRESH, {}, 3) == [0];
    var jobs := NewJobs(FRESH, {}, |FRESH|);
    assert Members(jobs) == {0} && {} + {0} == {0};
    assert multiset{FRESH} - multiset{FRESH} == multiset{};
    assert EnqueueSection(O3.slice.active, FRESH) == (O4.slice.active, [0]);
  }

  lemma ReadsSnapshots()
    ensures SnapshotTaken(O2) == O3 && SnapshotTaken(O10) == O11
  {
    assert multiset{} + multiset{FRESH} == multiset{FRESH};
    assert multiset{} + multiset{SKIPPED} == multiset{SKIPPED};
  }

  lemma StartsAndFails()
    ensures Begun(O4, 0) == O8 && Finished(O8, 0, Fault) == O9
  {
    assert FRESH[0 := WithState(FRESH[0], Running)] == Steps(Running, Queued, Queued);
    var running := Steps(Running, Queued, Queued);
    assert running[0 := running[0].(state := Failed, token := "")] == Steps(Failed, Queued, Queued);
    assert [0, 0, 0][0 := 1] == [1, 0, 0];
    assert {} + {0} == {0} && {0} - {0} == {};
  }

  lemma SkipsOneLevel()
    ensures SkipPass(Steps(Failed, Queued, Queued)) == SKIPPED && Reconciled(O9) == O10
    ensures HasBadDep(SKIPPED, 2)
  {
    var before := Steps(Failed, Queued, Queued);
    assert 0 in before[1].deps && HasBadDep(before, 1);
    assert !HasBadDep(before, 2);
    assert SkipPass(before) == SKIPPED;
    assert !Settled(SKIPPED[2].state);
    assert 1 in SKIPPED[2].deps && Bad(SKIPPED[1].state);
  }

  lemma EnqueuesNothing()
    ensures Enqueued(O11, SKIPPED) == (O12, [])
  {
    assert !Ready(SKIPPED, 2) by { assert 1 in SKIPPED[2].deps; }
    assert NewJobs(SKIPPED, {0}, 3) == [];
    assert Members([]) == {} && {0} + {} == {0};
    assert multiset{SKIPPED} - multiset{SKIPPED} == multiset{};
  }

  function At(o: Op, pending: seq<Job>, sent: bool, jobs: seq<Job>, held: multiset<Job>, enq: seq<Job>, taken: seq<Job>): Sys {
    Sys(map[ID := o], pending, sent, jobs, held, enq, taken)
  }

  const A := Job(ID, 0)

  /** The empty history. */
  lemma NothingYet(capacity: nat)
    ensures Run([INITIAL], [], capacity)
  {
  }

  /** A run continues with any enabled event. */
  lemma Then(states: seq<Sys>, events: seq<Event>, capacity: nat, e: Event) returns (states': seq<Sys>, events': seq<Event>)
    requires Run(states, events, capacity) && Enabled(states[|events|], e, capacity)
    ensures Run(states', events', capacity) && states'[|events'|] == Apply(states[|events|], e, capacity)
    ensures |states'| == |events'| + 1 == |events| + 2
    ensures states' == states + [Apply(states[|events|], e, capacity)]
  {
    hide Enabled, Apply, INITIAL;
    states', events' := states + [Apply(states[|events|], e, capacity)], events + [e];
    forall i | 0 <= i < |events'| ensures RunStep(states', events', capacity, i) {
      if i < |events| { assert RunStep(states, events, capacity, i); }
    }
  }

  lemma IsSubmitted(capacity: nat) returns (states: seq<Sys>, events: seq<Event>)
    ensures Run(states, events, capacity) && states[|events|] == At(O1, [], false, [], multiset{}, [], [])
  {
    SubmitsChain();
    NothingYet(capacity);
    hide Submitted, ValidDeps, FRESH, Run;
    states, events := Then([INITIAL], [], capacity, Submit(ID, CHAIN));
  }

  lemma IsActivated(capacity: nat) returns (states: seq<Sys>, events: seq<Event>)
    ensures Run(states, events, capacity) && states[|events|] == At(O3, [], false, [], multiset{}, [], [])
  {
    ReadsSnapshots();
    hide SnapshotTaken, FRESH, SKIPPED, Run;
    states, events := IsSubmitted(capacity);
    states, events := Then(states, events, capacity, Activate(ID));
    assert states[|events|] == At(O2, [], false, [], multiset{}, [], []);
    states, events := Then(states, events, capacity, TakeSnapshot(ID));
  }

  lemma IsEnqueued(capacity: nat) returns (states: seq<Sys>, events: seq<Event>)
    ensures Run(states, events, capacity) && states[|events|] == At(O4, [A], false, [], multiset{}, [A], [])
  {
    EnqueuesFirst();
    assert JobsOf(ID, [0]) == [A] && [] + [A] == [A];
    hide Enqueued, JobsOf, FRESH, Run;
    states, events := IsActivated(capacity);
    states, events := Then(states, events, capacity, Enqueue(ID, FRESH));
  }

  lemma IsReceived(capacity: nat) returns (states: seq<Sys>, events: seq<Event>)
    requires capacity > 0
    ensures Run(states, events, capacity) && states[|events|] == At(O4, [], false, [], multiset{A}, [A], [A])
  {
    hide O4, Run;
    states, events := IsEnqueued(capacity);
    states, events := Then(states, events, capacity, Send);
    assert states[|events|].jobs == [A];
    states, events := Then(states, events, capacity, Pop);
    assert states[|events|] == At(O4, [], false, [A], multiset{}, [A], []);
    states, events := Then(states, events, capacity, Receive);
    assert [A][1..] == [] && [] + [A] == [A];
  }

  lemma IsFailed(capacity: nat) returns (states: seq<Sys>, events: seq<Event>)
    requires capacity > 0
    ensures Run(states, events, capacity) && states[|events|] == At(O9, [], false, [], multiset{}, [A], [A])
  {
    StartsAndFails();
    hide Begun, Finished, Run;
    states, events := IsReceived(capacity);
    states, events := Then(states, events, capacity, Begin(A));
    assert states[|events|] == At(O8, [], false, [], multiset{}, [A], [A]);
    states, events := Then(states, events, capacity, Finish(A, Fault));
  }

  lemma IsReconciled(capacity: nat) returns (states: seq<Sys>, events: seq<Event>)
    requires capacity > 0
    ensures Run(states, events, capacity) && states[|events|] == At(O11, [], false, [], multiset{}, [A], [A])
  {
    SkipsOneLevel();
    ReadsSnapshots();
    hide Reconciled, SnapshotTaken, FRESH, SKIPPED, Run;
    states, events := IsFailed(capacity);
    states, events := Then(states, events, capacity, Reconcile(ID));
    assert states[|events|] == At(O10, [], false, [], multiset{}, [A], [A]);
    states, events := Then(states, events, capacity, TakeSnapshot(ID));
  }

  lemma IsIdle(capacity: nat) returns (states: seq<Sys>, events: seq<Event>)
    requires capacity > 0
    ensures Run(states, events, capacity) && states[|events|] == At(O12, [], false, [], multiset{}, [A], [A])
  {
    EnqueuesNothing();
    assert JobsOf(ID, []) == [];
    hide Enqueued, JobsOf, SKIPPED, Run;
    states, events := IsReconciled(capacity);
    states, events := Then(states, events, capacity, Enqueue(ID, SKIPPED));
  }

  /** Running, nothing at work, nothing waiting, and a queued step that a further skip pass would change. */
  ghost predicate Stranded(s: Sys, id: string, step: nat)
    requires id in s.ops && step < |s.ops[id].slice.row.steps|
  {
    var row := s.ops[id].slice.row;
    && Idle(s.ops[id], Out(s, id)) && !Any(row.steps, Waiting)
    && row.state == Running && row.steps[step].state == Queued && SkipPass(row.steps) != row.steps
  }

  /** There is a run that ends idle with an operation that is running and a step that is queued for ever. */
  lemma ChainOfThreeStaysRunning(capacity: nat) returns (states: seq<Sys>, events: seq<Event>)
    requires capacity > 0
    ensures Run(states, events, capacity)
    ensures var s := states[|events|];
      ID in s.ops && |s.ops[ID].slice.row.steps| == 3 && Stranded(s, ID, 2)
  {
    states, events := IsIdle(capacity);
    FinallyIdle();
    hide Run, Idle, Out, SkipPass, Any;
  }

  lemma FinallyIdle()
    ensures var s := At(O12, [], false, [], multiset{}, [A], [A]); Stranded(s, ID, 2)
  {
    var s := At(O12, [], false, [], multiset{}, [A], [A]);
    SkipsOneLevel();
    SkipPassChanges(SKIPPED, 2);
    OutMeansJob(s, ID);
    assert Out(s, ID) == {};
  }

  // ------------------------------------------------------- a cancel cut short

  const TOKEN := "t"
  const CONFIRMING := [StepRow([], Waiting, TOKEN), StepRow([0], Queued, ""), StepRow([1], Queued, "")]
  const CANCELLED := [StepRow([], Cancelled, TOKEN), StepRow([0], Cancelled, ""), StepRow([1], Cancelled, "")]

  function Parked(steps: seq<StepRow>): Op { Stage(Waiting, steps, None, {}, 1, false, 0, 0, multiset{}) }

  lemma AsksForConfirmation()
    ensures Begun(O4, 0) == O8
    ensures var o := Finished(O8, 0, NeedsConfirmation(TOKEN));
      o.reconcileDue == 1 && o.runs == [1, 0, 0] && o.resumes == [0, 0, 0]
      && o.slice == Slice(OpRow(Running, CONFIRMING), Some(Active({0}, {}, false)))
  {
    StartsAndFails();
    var running := Steps(Running, Queued, Queued);
    assert running[0 := running[0].(state := Waiting, token := TOKEN)] == CONFIRMING;
    assert {0} - {0} == {};
  }

  lemma StoresWaiting(o: Op)
    requires o.reconcileDue > 0 && o.runs == [1, 0, 0] && o.resumes == [0, 0, 0]
    requires o.slice == Slice(OpRow(Running, CONFIRMING), Some(Active({0}, {}, false)))
    ensures Restarted(CutShort(Reconciled(o), Between, ID)) == Parked(CONFIRMING)
  {
    assert !HasBadDep(CONFIRMING, 1) && !HasBadDep(CONFIRMING, 2);
    assert SkipPass(CONFIRMING) == CONFIRMING;
    assert CONFIRMING[0].state == Waiting && !Settled(CONFIRMING[0].state);
    assert Any(CONFIRMING, Waiting) && !Any(CONFIRMING, Running);
    assert Aggregate(CONFIRMING) == Waiting;
  }

  lemma CancelCutShort()
    ensures Restarted(CutShort(Parked(CONFIRMING), InCancel(ID), ID)) == Parked(CANCELLED)
  {
    assert CancelSteps(CONFIRMING) == CANCELLED;
    assert !Any(CANCELLED, Running);
  }

  lemma IsParked(capacity: nat) returns (states: seq<Sys>, events: seq<Event>)
    requires capacity > 0
    ensures Run(states, events, capacity) && states[|events|].ops == map[ID := Parked(CONFIRMING)]
  {
    AsksForConfirmation();
    hide Begun, Finished, Reconciled, Restarted, CutShort, Run;
    states, events := IsReceived(capacity);
    states, events := Then(states, events, capacity, Begin(A));
    assert states[|events|] == At(O8, [], false, [], multiset{}, [A], [A]);
    states, events := Then(states, events, capacity, Finish(A, NeedsConfirmation(TOKEN)));
    StoresWaiting(states[|events|].ops[ID]);
    states, events := Then(states, events, capacity, Reconcile(ID));
    states, events := Then(states, events, capacity, Restart(Between));
  }

  /**
   A process that dies between the two statements of a cancel can leave an operation
   that waits for a confirmation which no step asks for; a further cancel ends it.
   */
  lemma CutCancelWaitsForNothing(capacity: nat) returns (states: seq<Sys>, events: seq<Event>)
    requires capacity > 0
    ensures Run(states, events, capacity) && ID in states[|events|].ops
    ensures var o := states[|events|].ops[ID];
      && o.slice.row.state == Waiting && o.slice.row.steps != [] && AllSettled(o.slice.row.steps)
      && o.slice.active == None && o.reconcileDue == 0
      && CancelCalled(o).slice.row.state == Cancelled
  {
    CancelCutShort();
    hide Restarted, CutShort, Run;
    states, events := IsParked(capacity);
    states, events := Then(states, events, capacity, Restart(InCancel(ID)));
  }
}

/**
 Rows, in-memory handles and atomic sections of the operation service
 (`internal/operation/service.go`).

 A step is identified by its position in the listing ORDER BY step_id, which is
 the order every loop of the service uses.  Each function named `...Section`
 says what one SQL statement or one section under `reconcileMu` does to a single
 operation.
 */
module OperationCore {
  import Text

  datatype Option<+T> = None | Some(value: T)

  datatype State = Queued | Running | Succeeded | Failed | Waiting | Interrupted | Cancelled | Skipped

  /** States an operation never leaves. */
  predicate Terminal(s: State) {
    s.Succeeded? || s.Failed? || s.Interrupted? || s.Cancelled?
  }

  /** States a step never leaves. */
  predicate Settled(s: State) { Terminal(s) || s.Skipped? }

  /** States of a dependency that make its dependants unreachable. */
  predicate Bad(s: State) { s.Failed? || s.Cancelled? || s.Interrupted? || s.Skipped? }

  datatype StepRow = StepRow(deps: seq<nat>, state: State, token: string)
  datatype OpRow = OpRow(state: State, steps: seq<StepRow>)

  /** In-memory handle: `running` are the steps with a registered cancel function. */
  datatype Active = Active(enqueued: set<nat>, running: set<nat>, cancelRequested: bool)

  /** What the service knows about one operation. */
  datatype Slice = Slice(row: OpRow, active: Option<Active>)

  // ------------------------------------------------------------ dependencies

  /** Dependencies exist. */
  predicate WellFormed(steps: seq<StepRow>) {
    forall i, d | 0 <= i < |steps| && d in steps[i].deps :: d < |steps|
  }

  predicate SameDeps(s: seq<StepRow>, t: seq<StepRow>) {
    |s| == |t| && forall i | 0 <= i < |s| :: s[i].deps == t[i].deps
  }

  /** Dependencies point to strictly lower ranks. */
  ghost predicate Ranked(steps: seq<StepRow>, rank: seq<nat>) {
    |rank| == |steps|
    && forall i, k | 0 <= i < |steps| && 0 <= k < |steps[i].deps| ::
        steps[i].deps[k] < |steps| && rank[steps[i].deps[k]] < rank[i]
  }

  ghost predicate Acyclic(steps: seq<StepRow>) {
    exists rank :: Ranked(steps, rank)
  }

  predicate DepsSucceeded(steps: seq<StepRow>, i: nat)
    requires i < |steps|
  {
    forall d | d in steps[i].deps :: d < |steps| && steps[d].state == Succeeded
  }

  predicate Ready(steps: seq<StepRow>, i: nat)
    requires i < |steps|
  {
    steps[i].state == Queued && DepsSucceeded(steps, i)
  }

  predicate HasBadDep(steps: seq<StepRow>, i: nat)
    requires i < |steps|
  {
    exists d | d in steps[i].deps :: d < |steps| && Bad(steps[d].state)
  }

  // --------------------------------------------------------------- aggregate

  predicate Any(steps: seq<StepRow>, s: State) { exists i | 0 <= i < |steps| :: steps[i].state == s }
  predicate AllSettled(steps: seq<StepRow>) { forall i | 0 <= i < |steps| :: Settled(steps[i].state) }

  /** The operation state that its steps add up to. */
  function Aggregate(steps: seq<StepRow>): State {
    if steps == [] then Failed
    else if AllSettled(steps) then
      if Any(steps, Interrupted) then Interrupted
      else if Any(steps, Failed) || Any(steps, Cancelled) then Failed
      else Succeeded
    else if Any(steps, Waiting) && !Any(steps, Running) then Waiting
    else Running
  }

  lemma AggregateMeaning(steps: seq<StepRow>)
    ensures Terminal(Aggregate(steps)) <==> AllSettled(steps)
    ensures steps != [] ==> (Aggregate(steps) == Succeeded <==>
      forall i | 0 <= i < |steps| :: steps[i].state == Succeeded || steps[i].state == Skipped)
    ensures Aggregate(steps) != Skipped && Aggregate(steps) != Queued
    ensures Any(steps, Running) ==> Aggregate(steps) == Running
    ensures Aggregate(steps) == Interrupted <==> steps != [] && AllSettled(steps) && Any(steps, Interrupted)
    ensures Aggregate(steps) == Failed <==>
      steps == [] || (AllSettled(steps) && !Any(steps, Interrupted) && (Any(steps, Failed) || Any(steps, Cancelled)))
    ensures Aggregate(steps) == Waiting <==> Any(steps, Waiting) && !Any(steps, Running)
    ensures Aggregate(steps) != Cancelled
  {
    if Any(steps, Waiting) {
      var i :| 0 <= i < |steps| && steps[i].state == Waiting;
      assert !Settled(steps[i].state);
    }
    if Any(steps, Running) {
      var i :| 0 <= i < |steps| && steps[i].state == Running;
      assert !Settled(steps[i].state);
    }
    if Aggregate(steps) == Succeeded {
      forall i | 0 <= i < |steps| ensures steps[i].state == Succeeded || steps[i].state == Skipped {
        assert Settled(steps[i].state);
      }
    }
  }

  // ---------------------------------------------------------------- sections

  function WithState(row: StepRow, s: State): StepRow { row.(state := s) }

  /** The guard of every write of an operation state. */
  function Persist(old': State, new': State): State { if Terminal(old') then old' else new' }

  /** One pass of the skip loop: it reads dependency states from one snapshot. */
  function SkipPass(steps: seq<StepRow>): (r: seq<StepRow>)
    ensures SameDeps(steps, r)
  {
    seq(|steps|, i requires 0 <= i < |steps| =>
      if steps[i].state == Queued && HasBadDep(steps, i) then WithState(steps[i], Skipped) else steps[i])
  }

  /** The body of `reconcile`; the flag says whether `enqueueReady` follows. */
  function ReconcileSection(s: Slice): (Slice, bool) {
    if s.active.Some? && s.active.value.cancelRequested then
      if s.active.value.running == {} then
        var final := if Any(s.row.steps, Interrupted) then Interrupted else Cancelled;
        (Slice(s.row.(state := Persist(s.row.state, final)), None), false)
      else (s, false)
    else
      var steps := SkipPass(s.row.steps);
      var state := Aggregate(steps);
      var row := OpRow(Persist(s.row.state, state), steps);
      if Terminal(state) then (Slice(row, None), false) else (Slice(row, s.active), true)
  }

  /** The first section of `runStep`; the flag says whether the step was started. */
  function BeginSection(s: Slice, step: nat): (Slice, bool) {
    if s.active.None? || s.active.value.cancelRequested then (s, false)
    else if step >= |s.row.steps| || s.row.steps[step].state != Queued then (s, false)
    else
      var steps := s.row.steps[step := WithState(s.row.steps[step], Running)];
      var state := if s.row.state.Queued? || s.row.state.Waiting? then Running else s.row.state;
      var a := s.active.value;
      (Slice(OpRow(state, steps), Some(a.(running := a.running + {step}))), true)
  }

  /** How an executor call ends. */
  datatype Outcome =
    | EffectsUnconfirmed
    | ContextCanceled
    | NeedsConfirmation(token: string)
    | Fault
    | Done

  function OutcomeState(outcome: Outcome, cancelRequested: bool): State {
    if outcome.EffectsUnconfirmed? then Interrupted
    else if cancelRequested || outcome.ContextCanceled? then Cancelled
    else if outcome.NeedsConfirmation? then Waiting
    else if outcome.Fault? then Failed
    else Succeeded
  }

  /** The last section of `runStep`; the step row is written without a state guard. */
  function FinishSection(s: Slice, step: nat, outcome: Outcome): Slice
    requires step < |s.row.steps|
  {
    var cancelled := s.active.Some? && s.active.value.cancelRequested;
    var state := OutcomeState(outcome, cancelled);
    var token := if outcome.NeedsConfirmation? then outcome.token else "";
    var steps := s.row.steps[step := s.row.steps[step].(state := state, token := token)];
    Slice(s.row.(steps := steps),
          if s.active.None? then None
          else Some(s.active.value.(running := s.active.value.running - {step})))
  }

  /** Cancel turns every step that has not started, or waits, into cancelled. */
  function CancelSteps(steps: seq<StepRow>): (r: seq<StepRow>)
    ensures SameDeps(steps, r)
  {
    seq(|steps|, i requires 0 <= i < |steps| =>
      if steps[i].state.Queued? || steps[i].state.Waiting? then WithState(steps[i], Cancelled) else steps[i])
  }

  function CancelSection(s: Slice): Slice {
    if Terminal(s.row.state) then s
    else if s.active.None? then Slice(OpRow(Cancelled, CancelSteps(s.row.steps)), None)
    else Slice(s.row.(steps := CancelSteps(s.row.steps)), Some(s.active.value.(cancelRequested := true)))
  }

  datatype ResumeError = ErrConfirmation | ErrAlreadyCompleted | ErrNotActive
  datatype ResumeResult = Rejected(error: ResumeError) | Accepted(slice: Slice)

  function ResumeSection(s: Slice, step: nat, token: string, hasExecutor: bool): ResumeResult {
    if Text.IsBlank(token) then Rejected(ErrConfirmation)
    else if Terminal(s.row.state) then Rejected(ErrAlreadyCompleted)
    else if step >= |s.row.steps| || s.row.steps[step].state != Waiting || s.row.steps[step].token != token then
      Rejected(ErrConfirmation)
    else if s.active.Some? && s.active.value.cancelRequested then Rejected(ErrAlreadyCompleted)
    else if s.active.None? && !hasExecutor then Rejected(ErrNotActive)
    else
      var steps := s.row.steps[step := s.row.steps[step].(state := Queued, token := "")];
      var a := if s.active.Some? then s.active.value else Active({}, {}, false);
      Accepted(Slice(OpRow(Queued, steps), Some(a.(cancelRequested := false, enqueued := a.enqueued - {step}))))
  }

  /** The rows of a new operation, from the dependencies of each step. */
  function QueuedSteps(deps: seq<seq<nat>>): (steps: seq<StepRow>)
    ensures |steps| == |deps|
  {
    seq(|deps|, i requires 0 <= i < |deps| => StepRow(deps[i], Queued, ""))
  }

  /** Steps of the first `n` that are ready in the snapshot and have no job yet. */
  function NewJobs(snapshot: seq<StepRow>, enqueued: set<nat>, n: nat): (r: seq<nat>)
    requires n <= |snapshot|
    ensures forall i: nat :: i in r <==> i < n && Ready(snapshot, i) && i !in enqueued
    ensures forall j, k | 0 <= j < k < |r| :: r[j] < r[k]
  {
    if n == 0 then []
    else if Ready(snapshot, n - 1) && n - 1 !in enqueued then
      var earlier := NewJobs(snapshot, enqueued, n - 1);
      assert forall j | 0 <= j < |earlier| :: earlier[j] in earlier;
      earlier + [n - 1]
    else NewJobs(snapshot, enqueued, n - 1)
  }

  function Members(s: seq<nat>): set<nat> { set i | i in s }

  /** The section of `enqueueReady` after its snapshot was read. */
  function EnqueueSection(active: Option<Active>, snapshot: seq<StepRow>): (Option<Active>, seq<nat>) {
    if active.None? || active.value.cancelRequested then (active, [])
    else
      var ready := NewJobs(snapshot, active.value.enqueued, |snapshot|);
      (Some(active.value.(enqueued := active.value.enqueued + Members(ready))), ready)
  }

  /** What start-up makes of one operation left by an earlier process. */
  function RecoverRow(row: OpRow): OpRow {
    var lost := row.state.Queued? || row.state.Running? || (row.state.Waiting? && Any(row.steps, Running));
    if lost || row.state.Interrupted? then
      OpRow(Interrupted, seq(|row.steps|, i requires 0 <= i < |row.steps| =>
        if Settled(row.steps[i].state) then row.steps[i] else WithState(row.steps[i], Interrupted)))
    else row
  }

  /** A step handed to the worker pool. */
  datatype Job = Job(op: string, step: nat)

  function JobsOf(id: string, steps: seq<nat>): seq<Job> {
    seq(|steps|, i requires 0 <= i < |steps| => Job(id, steps[i]))
  }
}

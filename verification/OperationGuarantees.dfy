/**
 The promises of the operation service, for every state of every run.
 */
module OperationGuarantees {
  import opened OperationCore
  import opened OperationProtocol
  import opened OperationSettling
  import opened OperationSystem
  import opened OperationHistory

  /** Every ready step of a live operation has a job, or some thread still owes it a scheduling call. */
  lemma NoReadyStepIsForgotten(states: seq<Sys>, events: seq<Event>, capacity: nat, n: nat, id: string, step: nat)
    requires Run(states, events, capacity) && n < |states|
    requires id in states[n].ops && Live(states[n].ops[id].slice)
    requires step < |states[n].ops[id].slice.row.steps| && Ready(states[n].ops[id].slice.row.steps, step)
    ensures HasJob(states[n], Job(id, step)) || EnqueueComing(states[n].ops[id], step)
  {
    hide SysInv, OpInv, Out, HasJob, EnqueueComing, Ready, Enabled, Apply;
    RunKeepsInv(states, events, capacity, n);
    OutMeansJob(states[n], id);
    InvOf(states[n], id);
  }

  /** The dispatcher and the channel deliver, in order, exactly the jobs that were enqueued. */
  lemma JobsAreDeliveredInOrder(states: seq<Sys>, events: seq<Event>, capacity: nat, n: nat)
    requires Run(states, events, capacity) && n < |states|
    ensures states[n].enqueuedLog == states[n].takenLog + states[n].jobs + Rest(states[n])
  {
    RunKeepsInv(states, events, capacity, n);
  }

  /** A terminal operation has only settled steps; a succeeded one has only succeeded steps. */
  lemma TerminalMeansSettled(states: seq<Sys>, events: seq<Event>, capacity: nat, n: nat, id: string)
    requires Run(states, events, capacity) && n < |states| && id in states[n].ops
    ensures var row := states[n].ops[id].slice.row;
      && (Terminal(row.state) ==> AllSettled(row.steps))
      && (row.state == Succeeded ==> forall i | 0 <= i < |row.steps| :: row.steps[i].state == Succeeded)
  {
    RunKeepsInv(states, events, capacity, n);
    InvOf(states[n], id);
  }

  /** A step is skipped only because a step it depends on, directly or not, did not succeed. */
  lemma SkippedBecauseOfAncestor(states: seq<Sys>, events: seq<Event>, capacity: nat, n: nat, id: string, step: nat)
    returns (path: seq<nat>)
    requires Run(states, events, capacity) && n < |states| && id in states[n].ops
    requires step < |states[n].ops[id].slice.row.steps| && states[n].ops[id].slice.row.steps[step].state == Skipped
    ensures var steps := states[n].ops[id].slice.row.steps;
      && DependencyPath(steps, path) && |path| > 1 && path[0] == step
      && steps[path[|path| - 1]].state in {Failed, Cancelled, Interrupted}
  {
    RunKeepsInv(states, events, capacity, n);
    var o := states[n].ops[id];
    InvOf(states[n], id);
    var rank :| Ranked(o.slice.row.steps, rank);
    path := SkippedHasFailedAncestor(o.slice.row.steps, rank, step);
  }

  /**
   After a restart nothing runs, wherever the process died: every operation is
   terminal with settled steps, or waits for a confirmation with the rows it died with.
   */
  lemma RestartLeavesNothingRunning(states: seq<Sys>, events: seq<Event>, capacity: nat, n: nat, id: string)
    requires Run(states, events, capacity) && n < |events| && events[n].Restart? && id in states[n].ops
    ensures id in states[n + 1].ops
    ensures var o := states[n + 1].ops[id];
      && !Any(o.slice.row.steps, Running) && o.executing == {} && o.slice.active == None
      && (Terminal(o.slice.row.state) || o.slice.row.state == Waiting)
      && (Terminal(o.slice.row.state) ==> AllSettled(o.slice.row.steps))
      && (o.slice.row.state == Waiting ==> o.slice.row == CutShort(states[n].ops[id], events[n].cut, id).slice.row)
  {
    hide SysInv, OpInv, Out, Enabled, Layout, Ordered, Counted, Scheduled;
    RunKeepsInv(states, events, capacity, n + 1);
    RunKeepsInv(states, events, capacity, n);
    assert RunStep(states, events, capacity, n);
    hide Apply;
    InvOf(states[n + 1], id);
    InvOf(states[n], id);
  }

  /** With nothing left to do, an operation without waiting steps is terminal exactly when its skips are complete. */
  lemma IdleOperations(states: seq<Sys>, events: seq<Event>, capacity: nat, n: nat, id: string)
    requires Run(states, events, capacity) && n < |states| && id in states[n].ops
    requires Idle(states[n].ops[id], Out(states[n], id)) && !Any(states[n].ops[id].slice.row.steps, Waiting)
    ensures var row := states[n].ops[id].slice.row;
      && (Terminal(row.state) <==> SkipPass(row.steps) == row.steps)
      && (Terminal(row.state) || row.state == Running)
  {
    RunKeepsInv(states, events, capacity, n);
    InvOf(states[n], id);
    hide *;
    IdleIsTerminalExactlyWhen(states[n].ops[id], Out(states[n], id));
  }
}

/**
 The service object: durable rows, in-memory handles, the dispatcher's pending
 list and the workers' job channel.  Every method is one atomic section of
 `internal/operation/service.go` and is proved to do what OperationCore says.
 */
module OperationService {
  import Text
  import opened OperationCore

  /** The flags of the aggregation loop. */
  method AggregateState(steps: seq<StepRow>) returns (state: State)
    ensures state == Aggregate(steps)
  {
    if |steps| == 0 {
      return Failed;
    }
    var allTerminal := true;
    var anyRunning, anyWaiting, anyFailed, anyInterrupted := false, false, false, false;
    var i := 0;
    while i < |steps|
      invariant 0 <= i <= |steps|
      invariant allTerminal == AllSettled(steps[..i])
      invariant anyRunning == Any(steps[..i], Running)
      invariant anyWaiting == Any(steps[..i], Waiting)
      invariant anyFailed == (Any(steps[..i], Failed) || Any(steps[..i], Cancelled))
      invariant anyInterrupted == Any(steps[..i], Interrupted)
    {
      PrefixGrows(steps, i);
      match steps[i].state {
        case Queued => allTerminal := false;
        case Running => allTerminal, anyRunning := false, true;
        case Waiting => allTerminal, anyWaiting := false, true;
        case Failed => anyFailed := true;
        case Cancelled => anyFailed := true;
        case Interrupted => anyInterrupted := true;
        case Succeeded =>
        case Skipped =>
      }
      i := i + 1;
    }
    assert steps[..i] == steps;
    if anyInterrupted && allTerminal {
      return Interrupted;
    }
    if anyFailed && !anyRunning && !anyWaiting && allTerminal {
      return Failed;
    }
    if anyRunning || (!allTerminal && !anyWaiting) {
      return Running;
    }
    if anyWaiting {
      return Waiting;
    }
    return Succeeded;
  }

  /** What a cancelled operation ends as. */
  method CancelledState(steps: seq<StepRow>) returns (terminalState: State)
    ensures terminalState == if Any(steps, Interrupted) then Interrupted else Cancelled
  {
    terminalState := Cancelled;
    var i := 0;
    while i < |steps|
      invariant 0 <= i <= |steps|
      invariant terminalState == if Any(steps[..i], Interrupted) then Interrupted else Cancelled
    {
      PrefixGrows(steps, i);
      if steps[i].state == Interrupted {
        terminalState := Interrupted;
      }
      i := i + 1;
    }
    assert steps[..i] == steps;
  }

  /** The inner loop of the skip pass. */
  method DependsOnBad(steps: seq<StepRow>, i: nat) returns (bad: bool)
    requires WellFormed(steps) && i < |steps|
    ensures bad == HasBadDep(steps, i)
  {
    var j := 0;
    while j < |steps[i].deps|
      invariant 0 <= j <= |steps[i].deps|
      invariant forall d | d in steps[i].deps[..j] :: d < |steps| && !Bad(steps[d].state)
    {
      assert steps[i].deps[j] in steps[i].deps;
      assert steps[i].deps[..j + 1] == steps[i].deps[..j] + [steps[i].deps[j]];
      if Bad(steps[steps[i].deps[j]].state) {
        return true;
      }
      j := j + 1;
    }
    assert steps[i].deps[..j] == steps[i].deps;
    return false;
  }

  lemma SpliceNext<T>(target: seq<T>, record: seq<T>, i: nat)
    requires |target| == |record| && i < |record|
    ensures var mixed := target[..i] + record[i..];
      target[..i + 1] + record[i + 1..] == mixed[i := target[i]] && mixed[i] == record[i]
  {
  }

  /** The inner loop of the ready scan. */
  method AllSucceeded(steps: seq<StepRow>, i: nat) returns (ready: bool)
    requires WellFormed(steps) && i < |steps|
    ensures ready == DepsSucceeded(steps, i)
  {
    var j := 0;
    while j < |steps[i].deps|
      invariant 0 <= j <= |steps[i].deps|
      invariant forall d | d in steps[i].deps[..j] :: d < |steps| && steps[d].state == Succeeded
    {
      assert steps[i].deps[j] in steps[i].deps;
      assert steps[i].deps[..j + 1] == steps[i].deps[..j] + [steps[i].deps[j]];
      if steps[steps[i].deps[j]].state != Succeeded {
        return false;
      }
      j := j + 1;
    }
    assert steps[i].deps[..j] == steps[i].deps;
    return true;
  }

  lemma PrefixGrows(steps: seq<StepRow>, i: nat)
    requires i < |steps|
    ensures AllSettled(steps[..i + 1]) <==> AllSettled(steps[..i]) && Settled(steps[i].state)
    ensures forall s :: Any(steps[..i + 1], s) <==> Any(steps[..i], s) || steps[i].state == s
  {
    assert steps[..i + 1] == steps[..i] + [steps[i]];
    forall s ensures Any(steps[..i + 1], s) <==> Any(steps[..i], s) || steps[i].state == s {
      if Any(steps[..i], s) {
        var j :| 0 <= j < i && steps[..i][j].state == s;
        assert steps[..i + 1][j].state == s;
      }
      if steps[i].state == s {
        assert steps[..i + 1][i].state == s;
      }
    }
    if AllSettled(steps[..i + 1]) {
      assert Settled(steps[..i + 1][i].state);
      forall j | 0 <= j < i ensures Settled(steps[..i][j].state) { assert Settled(steps[..i + 1][j].state); }
    }
  }

  class Service {
    var db: map<string, OpRow>
    var active: map<string, Active>
    var pending: seq<Job>
    var jobs: seq<Job>
    const capacity: nat

    constructor (workers: nat, rows: map<string, OpRow>)
      ensures db == map id | id in rows :: RecoverRow(rows[id])
      ensures active == map[] && pending == [] && jobs == []
    {
      db := map id | id in rows :: RecoverRow(rows[id]);
      active := map[];
      pending := [];
      jobs := [];
      capacity := workers * 2;
    }

    function View(id: string): Slice
      requires id in db
      reads this
    {
      Slice(db[id], if id in active then Some(active[id]) else None)
    }

    ghost predicate OnlyChanged(id: string, was: map<string, OpRow>, wasActive: map<string, Active>, now: Slice)
      reads this
    {
      db == was[id := now.row]
      && active == match now.active { case None => wasActive - {id} case Some(a) => wasActive[id := a] }
    }

    /** The transaction of `Submit`: all rows at once, unless the operation already exists. */
    method Submit(id: string, deps: seq<seq<nat>>) returns (created: bool)
      modifies this`db
      ensures created == (id !in old(db))
      ensures db == if created then old(db)[id := OpRow(Queued, QueuedSteps(deps))] else old(db)
    {
      if id in db {
        return false;
      }
      var steps: seq<StepRow> := [];
      for i := 0 to |deps|
        invariant steps == QueuedSteps(deps)[..i]
      {
        steps := steps + [StepRow(deps[i], Queued, "")];
      }
      assert QueuedSteps(deps)[..|deps|] == QueuedSteps(deps);
      db := db[id := OpRow(Queued, steps)];
      created := true;
    }

    /** The in-memory registration that follows the transaction. */
    method Activate(id: string)
      modifies this`active
      ensures active == old(active)[id := Active({}, {}, false)]
    {
      active := active[id := Active({}, {}, false)];
    }

    /** The dispatcher offers the head of its list to the bounded channel. */
    method SendHead() returns (sent: bool)
      modifies this`jobs
      ensures sent == (pending != [] && |old(jobs)| < capacity)
      ensures jobs == if sent then old(jobs) + [pending[0]] else old(jobs)
    {
      sent := |pending| > 0 && |jobs| < capacity;
      if sent {
        jobs := jobs + [pending[0]];
      }
    }

    /** After a send the dispatcher drops the head of its list. */
    method DropHead()
      requires pending != []
      modifies this`pending
      ensures old(pending) == [old(pending)[0]] + pending
    {
      pending := pending[1..];
    }

    /** A worker receives the oldest job. */
    method Receive() returns (job: Option<Job>)
      modifies this`jobs
      ensures old(jobs) == (match job case None => [] case Some(j) => [j]) + jobs
      ensures job.None? <==> old(jobs) == []
    {
      if |jobs| == 0 {
        return None;
      }
      job := Some(jobs[0]);
      jobs := jobs[1..];
    }

    /** `reconcile`: skip, aggregate, persist, and drop the handle of a finished operation. */
    method Reconcile(id: string) returns (enqueue: bool)
      requires id in db && WellFormed(db[id].steps)
      modifies this`db, this`active
      ensures OnlyChanged(id, old(db), old(active), ReconcileSection(old(View(id))).0)
      ensures enqueue == ReconcileSection(old(View(id))).1
    {
      var record := db[id];
      if id in active && active[id].cancelRequested {
        if active[id].running == {} {
          var terminalState := CancelledState(record.steps);
          db := db[id := record.(state := Persist(record.state, terminalState))];
          active := active - {id};
          return false;
        }
        assert db == db[id := db[id]] && active == active[id := active[id]];
        return false;
      }
      SkipUnreachable(id);
      var state := AggregateState(db[id].steps);
      db := db[id := db[id].(state := Persist(db[id].state, state))];
      if Terminal(state) {
        active := active - {id};
        return false;
      }
      return true;
    }

    /** The skip loop: dependency states come from the record read before the loop. */
    method SkipUnreachable(id: string)
      requires id in db && WellFormed(db[id].steps)
      modifies this`db
      ensures db == old(db)[id := OpRow(old(db[id].state), SkipPass(old(db[id].steps)))]
    {
      var record := db[id].steps;
      ghost var target := SkipPass(record);
      assert target[..0] + record[0..] == record;
      var i := 0;
      while i < |record|
        invariant 0 <= i <= |record|
        invariant id in db && db == old(db)[id := db[id]] && db[id].state == old(db[id].state)
        invariant db[id].steps == target[..i] + record[i..]
      {
        SpliceNext(target, record, i);
        if record[i].state == Queued {
          var bad := DependsOnBad(record, i);
          if bad {
            db := db[id := db[id].(steps := db[id].steps[i := WithState(db[id].steps[i], Skipped)])];
          }
        }
        assert db[id].steps == (target[..i] + record[i..])[i := target[i]];
        i := i + 1;
      }
      assert target[..i] + record[i..] == target;
    }

    /** `runStep` up to the executor call. */
    method BeginStep(job: Job) returns (started: bool)
      requires job.op in db
      modifies this`db, this`active
      ensures OnlyChanged(job.op, old(db), old(active), BeginSection(old(View(job.op)), job.step).0)
      ensures started == BeginSection(old(View(job.op)), job.step).1
    {
      if job.op !in active || active[job.op].cancelRequested {
        return false;
      }
      var row := db[job.op];
      if job.step >= |row.steps| {
        return false;
      }
      if row.steps[job.step].state != Queued {
        return false;
      }
      db := db[job.op := row.(steps := row.steps[job.step := WithState(row.steps[job.step], Running)])];
      if row.state.Queued? || row.state.Waiting? {
        db := db[job.op := db[job.op].(state := Running)];
      }
      active := active[job.op := active[job.op].(running := active[job.op].running + {job.step})];
      return true;
    }

    /** `runStep` after the executor call. */
    method FinishStep(job: Job, outcome: Outcome)
      requires job.op in db && job.step < |db[job.op].steps|
      modifies this`db, this`active
      ensures OnlyChanged(job.op, old(db), old(active), FinishSection(old(View(job.op)), job.step, outcome))
    {
      var cancelled := job.op in active && active[job.op].cancelRequested;
      var state := Succeeded;
      if outcome.EffectsUnconfirmed? {
        state := Interrupted;
      } else if cancelled || outcome.ContextCanceled? {
        state := Cancelled;
      } else if outcome.NeedsConfirmation? {
        state := Waiting;
      } else if outcome.Fault? {
        state := Failed;
      }
      var row := db[job.op];
      var token := if outcome.NeedsConfirmation? then outcome.token else "";
      db := db[job.op := row.(steps := row.steps[job.step := row.steps[job.step].(state := state, token := token)])];
      if job.op in active {
        active := active[job.op := active[job.op].(running := active[job.op].running - {job.step})];
      }
    }

    /** `enqueueReady` after it has read `record`. */
    method EnqueueReady(id: string, record: seq<StepRow>)
      requires WellFormed(record)
      modifies this`active, this`pending
      ensures var r := EnqueueSection(if id in old(active) then Some(old(active)[id]) else None, record);
        active == (if r.0.Some? then old(active)[id := r.0.value] else old(active))
        && pending == old(pending) + JobsOf(id, r.1)
    {
      if id !in active || active[id].cancelRequested {
        assert JobsOf(id, []) == [];
        return;
      }
      var found: seq<nat> := [];
      ghost var wanted := active[id].enqueued;
      var i := 0;
      while i < |record|
        invariant 0 <= i <= |record|
        invariant pending == old(pending)
        invariant id in active && active == old(active)[id := active[id]]
        invariant found == NewJobs(record, wanted, i)
        invariant active[id] == old(active[id]).(enqueued := wanted + Members(found))
      {
        if record[i].state == Queued && i !in active[id].enqueued {
          var ready := AllSucceeded(record, i);
          if ready {
            active := active[id := active[id].(enqueued := active[id].enqueued + {i})];
            found := found + [i];
          }
        }
        i := i + 1;
      }
      pending := pending + JobsOf(id, found);
    }

    /** `Cancel`; a terminal operation is reported as already completed. */
    method Cancel(id: string) returns (accepted: bool)
      requires id in db
      modifies this`db, this`active
      ensures OnlyChanged(id, old(db), old(active), CancelSection(old(View(id))))
      ensures accepted == !Terminal(old(db[id].state))
    {
      if Terminal(db[id].state) {
        return false;
      }
      if id in active {
        active := active[id := active[id].(cancelRequested := true)];
      }
      db := db[id := db[id].(steps := CancelSteps(db[id].steps))];
      if id !in active {
        db := db[id := db[id].(state := Persist(db[id].state, Cancelled))];
      }
      return true;
    }

    /** `Resume` of one waiting step. */
    method Resume(id: string, step: nat, token: string, hasExecutor: bool) returns (error: Option<ResumeError>)
      requires id in db
      modifies this`db, this`active
      ensures var asked := old(step < |db[id].steps| && db[id].steps[step].state == Waiting && db[id].steps[step].token == token);
        var ended := old(Terminal(db[id].state));
        var cancelled := old(id in active && active[id].cancelRequested);
        && (error == Some(ErrConfirmation) <==> Text.IsBlank(token) || (!ended && !asked))
        && (error == Some(ErrAlreadyCompleted) <==> !Text.IsBlank(token) && (ended || (asked && cancelled)))
        && (error == Some(ErrNotActive) <==>
              !Text.IsBlank(token) && !ended && asked && !hasExecutor && id !in old(active))
      ensures error == None ==>
        && step < |old(db[id].steps)|
        && db == old(db)[id := OpRow(Queued, old(db[id].steps)[step := old(db[id].steps)[step].(state := Queued, token := "")])]
        && id in active && active == old(active)[id := active[id]] && !active[id].cancelRequested && step !in active[id].enqueued
        && (id in old(active) ==> active[id] == old(active[id]).(enqueued := old(active[id].enqueued) - {step}))
      ensures match ResumeSection(old(View(id)), step, token, hasExecutor)
        case Rejected(e) => error == Some(e) && db == old(db) && active == old(active)
        case Accepted(slice) => error == None && OnlyChanged(id, old(db), old(active), slice)
    {
      Text.TrimmedAwayWhenBlank(token);
      if Text.TrimSpace(token) == "" {
        return Some(ErrConfirmation);
      }
      var row := db[id];
      if Terminal(row.state) {
        return Some(ErrAlreadyCompleted);
      }
      if step >= |row.steps| || row.steps[step].state != Waiting || row.steps[step].token != token {
        return Some(ErrConfirmation);
      }
      if id in active && active[id].cancelRequested {
        return Some(ErrAlreadyCompleted);
      }
      if id !in active && !hasExecutor {
        return Some(ErrNotActive);
      }
      db := db[id := row.(steps := row.steps[step := row.steps[step].(state := Queued, token := "")])];
      db := db[id := db[id].(state := Queued)];
      if id !in active {
        active := active[id := Active({}, {}, false)];
      }
      active := active[id := active[id].(cancelRequested := false, enqueued := active[id].enqueued - {step})];
      return None;
    }
  }
}

/**
 How failures spread through an operation, and when an idle operation is finished.

 One call of `reconcile` reads dependency states once, so a pass skips one level
 only.  The results below say what repeated passes reach, exactly when one pass
 is enough, and exactly when an operation with nothing left to do is terminal.
 */
module OperationSettling {
  import opened OperationCore
  import opened OperationProtocol

  function SkipRounds(steps: seq<StepRow>, n: nat): (r: seq<StepRow>)
    ensures SameDeps(steps, r)
  {
    if n == 0 then steps else SkipPass(SkipRounds(steps, n - 1))
  }

  /** A queued step from which dependencies lead to a bad step. */
  ghost predicate Doomed(steps: seq<StepRow>, i: nat) {
    exists path :: DoomPath(steps, i, path)
  }

  predicate DoomPath(steps: seq<StepRow>, i: nat, path: seq<nat>) {
    DependencyPath(steps, path) && |path| > 1 && path[0] == i && Bad(steps[path[|path| - 1]].state)
  }

  lemma SkipPassChanges(steps: seq<StepRow>, i: nat)
    requires i < |steps|
    ensures var t := SkipPass(steps);
      if steps[i].state == Queued && HasBadDep(steps, i) then t[i] == WithState(steps[i], Skipped) else t[i] == steps[i]
  {
  }

  /** Step `i` is unchanged, or was queued, doomed, and is skipped. */
  ghost predicate SkippedSoundly(steps: seq<StepRow>, t: seq<StepRow>, i: nat)
    requires i < |steps| == |t|
  {
    t[i] == steps[i] || (steps[i].state == Queued && t[i] == WithState(steps[i], Skipped) && Doomed(steps, i))
  }

  /** Rounds change queued steps only, and only into skipped ones that were doomed. */
  lemma {:induction false} RoundsAreSound(steps: seq<StepRow>, n: nat)
    ensures forall i | 0 <= i < |steps| :: SkippedSoundly(steps, SkipRounds(steps, n), i)
  {
    if n > 0 {
      var t := SkipRounds(steps, n - 1);
      RoundsAreSound(steps, n - 1);
      forall i | 0 <= i < |steps| ensures SkippedSoundly(steps, SkipPass(t), i) {
        OneRoundIsSound(steps, t, i);
      }
    }
  }

  lemma OneRoundIsSound(steps: seq<StepRow>, t: seq<StepRow>, i: nat)
    requires SameDeps(steps, t) && i < |steps|
    requires forall j | 0 <= j < |steps| :: SkippedSoundly(steps, t, j)
    ensures SkippedSoundly(steps, SkipPass(t), i)
  {
    SkipPassChanges(t, i);
    assert SkippedSoundly(steps, t, i);
    hide SkipPass, Doomed;
    if t[i].state == Queued && HasBadDep(t, i) {
      var d :| d in t[i].deps && d < |t| && Bad(t[d].state);
      assert SkippedSoundly(steps, t, d);
      DoomSpreads(steps, i, d);
    }
  }

  lemma DoomSpreads(steps: seq<StepRow>, i: nat, d: nat)
    requires i < |steps| && d in steps[i].deps && d < |steps|
    requires Bad(steps[d].state) || Doomed(steps, d)
    ensures Doomed(steps, i)
  {
    if Bad(steps[d].state) {
      assert DoomPath(steps, i, [i, d]);
    } else {
      var rest :| DoomPath(steps, d, rest);
      var path := [i] + rest;
      assert forall k | 0 < k < |path| :: path[k] == rest[k - 1];
      assert DoomPath(steps, i, path);
    }
  }

  /** What a started step depends on cannot be bad, directly or not. */
  lemma DoomedStepsHaveQueuedChains(steps: seq<StepRow>, path: seq<nat>)
    requires StartedInOrder(steps)
    requires DependencyPath(steps, path) && |path| > 1 && Bad(steps[path[|path| - 1]].state)
    ensures steps[path[0]].state == Queued || Bad(steps[path[0]].state)
    decreases |path|
  {
    if |path| == 2 {
      assert path[1] in steps[path[0]].deps;
    } else {
      var rest := path[1..];
      assert forall k | 0 <= k < |rest| - 1 :: rest[k + 1] in steps[rest[k]].deps by {
        forall k | 0 <= k < |rest| - 1 ensures rest[k + 1] in steps[rest[k]].deps {
          assert path[k + 1 + 1] in steps[path[k + 1]].deps;
        }
      }
      DoomedStepsHaveQueuedChains(steps, rest);
      assert path[0 + 1] in steps[path[0]].deps;
    }
  }

  /** A chain of length k is skipped after k rounds. */
  lemma {:induction false} RoundsFollowChains(steps: seq<StepRow>, path: seq<nat>)
    requires StartedInOrder(steps)
    requires DependencyPath(steps, path) && Bad(steps[path[|path| - 1]].state)
    ensures Bad(SkipRounds(steps, |path| - 1)[path[0]].state)
    decreases |path|
  {
    var n := |path| - 1;
    if n > 0 {
      var rest := path[1..];
      forall k | 0 <= k < |rest| - 1 ensures rest[k + 1] in steps[rest[k]].deps {
        assert path[k + 1 + 1] in steps[path[k + 1]].deps;
      }
      RoundsFollowChains(steps, rest);
      DoomedStepsHaveQueuedChains(steps, path);
      var t := SkipRounds(steps, n - 1);
      assert path[0 + 1] in t[path[0]].deps && Bad(t[path[1]].state);
      assert HasBadDep(t, path[0]);
      RoundsAreSound(steps, n - 1);
      assert SkippedSoundly(steps, t, path[0]);
      SkipPassChanges(t, path[0]);
    }
  }

  function QueuedCount(steps: seq<StepRow>): nat {
    if steps == [] then 0 else (if steps[0].state == Queued then 1 else 0) + QueuedCount(steps[1..])
  }

  /** Turning queued steps into others lowers the count. */
  lemma {:induction false} QueuedCountFalls(s: seq<StepRow>, t: seq<StepRow>)
    requires |s| == |t| && forall i | 0 <= i < |s| :: t[i] == s[i] || (s[i].state == Queued && t[i].state != Queued)
    ensures QueuedCount(t) <= QueuedCount(s)
    ensures t != s ==> QueuedCount(t) < QueuedCount(s)
  {
    if s != [] {
      assert s == [s[0]] + s[1..] && t == [t[0]] + t[1..];
      QueuedCountFalls(s[1..], t[1..]);
    }
  }

  lemma SkipPassCounts(s: seq<StepRow>)
    ensures SkipPass(s) == s || QueuedCount(SkipPass(s)) < QueuedCount(s)
  {
    QueuedCountFalls(s, SkipPass(s));
  }

  lemma {:induction false} QueuedCountBound(s: seq<StepRow>)
    ensures QueuedCount(s) <= |s|
  {
    if s != [] {
      QueuedCountBound(s[1..]);
    }
  }

  lemma RoundsUnroll(steps: seq<StepRow>, n: nat)
    ensures SkipRounds(steps, 0) == steps
    ensures n > 0 ==> SkipRounds(steps, n) == SkipPass(SkipRounds(steps, n - 1))
  {
    hide SkipPass;
  }

  /** Either the rounds have settled, or each of them found a new step. */
  lemma {:induction false} RoundsConverge(steps: seq<StepRow>, n: nat)
    ensures var t := SkipRounds(steps, n); SkipPass(t) == t || QueuedCount(t) + n <= QueuedCount(steps)
  {
    hide SkipPass, SkipRounds, QueuedCount;
    RoundsUnroll(steps, n);
    if n > 0 {
      RoundsConverge(steps, n - 1);
      SkipPassCounts(SkipRounds(steps, n - 1));
    }
  }

  lemma {:induction false} SettledRoundsStay(steps: seq<StepRow>, n: nat, m: nat)
    requires n <= m && SkipPass(SkipRounds(steps, n)) == SkipRounds(steps, n)
    ensures SkipRounds(steps, m) == SkipRounds(steps, n)
    decreases m
  {
    hide SkipPass;
    if n < m {
      SettledRoundsStay(steps, n, m - 1);
    }
  }

  lemma {:induction false} BadStaysBad(steps: seq<StepRow>, n: nat, m: nat, i: nat)
    requires n <= m && i < |steps| && Bad(SkipRounds(steps, n)[i].state)
    ensures Bad(SkipRounds(steps, m)[i].state)
    decreases m
  {
    if n < m {
      BadStaysBad(steps, n, m - 1, i);
      SkipPassChanges(SkipRounds(steps, m - 1), i);
    }
  }

  /**
   Within |steps| passes the skips are complete: they reach exactly the queued
   steps from which dependencies lead to a bad step.
   */
  lemma SkippingReachesExactlyTheDoomed(steps: seq<StepRow>)
    requires StartedInOrder(steps)
    ensures var t := SkipRounds(steps, |steps|);
      && SkipPass(t) == t
      && forall i | 0 <= i < |steps| :: t[i] ==
           if steps[i].state == Queued && Doomed(steps, i) then WithState(steps[i], Skipped) else steps[i]
  {
    hide SkipPass, SkipRounds, Doomed;
    RoundsSettle(steps);
    RoundsAreSound(steps, |steps|);
    forall i | 0 <= i < |steps|
      ensures SkipRounds(steps, |steps|)[i] ==
        if steps[i].state == Queued && Doomed(steps, i) then WithState(steps[i], Skipped) else steps[i]
    {
      assert SkippedSoundly(steps, SkipRounds(steps, |steps|), i);
      if steps[i].state == Queued && Doomed(steps, i) {
        DoomedIsSkipped(steps, i);
      }
    }
  }

  lemma RoundsSettle(steps: seq<StepRow>)
    ensures SkipPass(SkipRounds(steps, |steps|)) == SkipRounds(steps, |steps|)
  {
    hide *;
    RoundsConverge(steps, |steps|);
    QueuedCountBound(steps);
    SkipPassCounts(SkipRounds(steps, |steps|));
  }

  lemma DoomedIsSkipped(steps: seq<StepRow>, i: nat)
    requires StartedInOrder(steps)
    requires i < |steps| && Doomed(steps, i)
    ensures Bad(SkipRounds(steps, |steps|)[i].state)
  {
    var path :| DoomPath(steps, i, path);
    RoundsFollowChains(steps, path);
    BadInTheEnd(steps, |path| - 1, i);
  }

  lemma BadInTheEnd(steps: seq<StepRow>, n: nat, i: nat)
    requires i < |steps| && Bad(SkipRounds(steps, n)[i].state)
    ensures Bad(SkipRounds(steps, |steps|)[i].state)
  {
    hide SkipPass, SkipRounds;
    if n <= |steps| {
      BadStaysBad(steps, n, |steps|, i);
    } else {
      RoundsSettle(steps);
      SettledRoundsStay(steps, |steps|, n);
    }
  }

  /** The guard that decides whether one pass is enough. */
  predicate OneLevel(steps: seq<StepRow>) {
    forall i, d | 0 <= i < |steps| && d in steps[i].deps ::
      steps[i].state == Queued && !HasBadDep(steps, i) && d < |steps| && steps[d].state == Queued ==> !HasBadDep(steps, d)
  }

  /** One call of `reconcile` completes the skips if and only if no queued step hangs below a step it skips. */
  lemma OnePassIsEnoughExactlyWhen(steps: seq<StepRow>)
    ensures SkipPass(SkipPass(steps)) == SkipPass(steps) <==> OneLevel(steps)
  {
    var t := SkipPass(steps);
    if OneLevel(steps) {
      forall i | 0 <= i < |t| ensures SkipPass(t)[i] == t[i] {
        assert forall d | d in t[i].deps :: d in steps[i].deps;
      }
    } else {
      var i, d :| 0 <= i < |steps| && d in steps[i].deps && steps[i].state == Queued && !HasBadDep(steps, i)
        && d < |steps| && steps[d].state == Queued && HasBadDep(steps, d);
      assert t[d].state == Skipped && d in t[i].deps;
      assert HasBadDep(t, i) && t[i].state == Queued;
      assert SkipPass(t)[i] != t[i];
    }
  }

  // --------------------------------------------------------------- quiescence

  /** Live, and no thread owes the operation anything. */
  predicate Idle(o: Op, out: set<nat>) {
    Live(o.slice) && out == {} && o.executing == {}
    && o.reconcileDue == 0 && o.enqueueDue == 0 && o.snapshots == multiset{}
  }

  /** Among queued steps, one of lowest rank has only dependencies that are not queued. */
  lemma {:induction false} QueuedChain(steps: seq<StepRow>, rank: seq<nat>, i: nat) returns (low: nat)
    requires Ranked(steps, rank) && i < |steps| && steps[i].state == Queued
    ensures low < |steps| && steps[low].state == Queued
    ensures forall d | d in steps[low].deps :: d < |steps| && steps[d].state != Queued
    decreases rank[i]
  {
    if d :| d in steps[i].deps && (d >= |steps| || steps[d].state == Queued) {
      var k :| 0 <= k < |steps[i].deps| && steps[i].deps[k] == d;
      low := QueuedChain(steps, rank, d);
    } else {
      low := i;
    }
  }

  /** An idle operation stores its aggregate, and nothing in it could be started. */
  lemma IdleIsAccurate(o: Op, out: set<nat>)
    requires OpInv(o, out) && Idle(o, out)
    ensures Terminal(o.slice.row.state) || o.slice.row.state == Aggregate(o.slice.row.steps)
    ensures !SomeReady(o.slice.row.steps)
  {
  }

  /**
   An idle operation without waiting steps is terminal if and only if its skips
   are complete; otherwise it stays running with steps nobody will ever settle.
   */
  lemma IdleIsTerminalExactlyWhen(o: Op, out: set<nat>)
    requires OpInv(o, out) && Idle(o, out) && !Any(o.slice.row.steps, Waiting)
    ensures Terminal(o.slice.row.state) <==> SkipPass(o.slice.row.steps) == o.slice.row.steps
    ensures !Terminal(o.slice.row.state) ==> o.slice.row.state == Running
  {
    var steps := o.slice.row.steps;
    IdleIsAccurate(o, out);
    AggregateMeaning(steps);
    if Terminal(o.slice.row.state) {
      assert forall i | 0 <= i < |steps| :: Settled(steps[i].state);
      assert SkipPass(steps) == steps;
    } else if SkipPass(steps) == steps {
      IdleFixpointSettled(o, out);
    }
  }

  lemma IdleFixpointSettled(o: Op, out: set<nat>)
    requires OpInv(o, out) && Idle(o, out) && !Any(o.slice.row.steps, Waiting)
    requires SkipPass(o.slice.row.steps) == o.slice.row.steps
    ensures AllSettled(o.slice.row.steps)
  {
    var steps := o.slice.row.steps;
    IdleIsAccurate(o, out);
    if i :| 0 <= i < |steps| && steps[i].state == Queued {
      var rank :| Ranked(steps, rank);
      var low := QueuedChain(steps, rank, i);
      SkipPassChanges(steps, low);
      assert !HasBadDep(steps, low);
      forall d | d in steps[low].deps ensures d < |steps| && steps[d].state == Succeeded {
        assert steps[d].state != Running && steps[d].state != Waiting;
      }
      assert Ready(steps, low);
      assert false;
    }
    forall i | 0 <= i < |steps| ensures Settled(steps[i].state) {
      assert steps[i].state != Queued && steps[i].state != Running && steps[i].state != Waiting;
    }
  }
}

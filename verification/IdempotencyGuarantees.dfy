/**
 What the idempotent-claim protocol guarantees over whole runs, and a run for
 each assumption of calm steps that shows its guarantee needs it.
 */
module IdempotencyGuarantees {
  import opened OperationCore
  import opened IdempotencyCore
  import opened IdempotencyProtocol

  datatype Run = Run(states: seq<Sys>, events: seq<Event>)

  predicate StepAt(r: Run, i: nat)
    requires |r.states| == |r.events| + 1 && i < |r.events|
  {
    Enabled(r.states[i], r.events[i]) && r.states[i + 1] == Apply(r.states[i], r.events[i])
  }

  predicate Valid(r: Run) {
    && |r.states| == |r.events| + 1 && r.states[0] == START
    && forall i: nat | i < |r.events| :: StepAt(r, i)
  }

  predicate CalmAt(r: Run, i: nat)
    requires Valid(r) && i < |r.events|
  {
    StepAt(r, i) && Calm(r.states[i], r.events[i])
  }

  predicate CalmRun(r: Run) { Valid(r) && forall i: nat | i < |r.events| :: CalmAt(r, i) }

  // ------------------------------------------------------------------ one holder

  lemma {:induction false} CalmRunKeepsInv(r: Run, i: nat)
    requires CalmRun(r) && i < |r.states|
    ensures Inv(r.states[i])
  {
    hide Inv, Enabled, Apply, Calm;
    if i == 0 {
      InitInv();
    } else {
      CalmRunKeepsInv(r, i - 1);
      assert StepAt(r, i - 1) && CalmAt(r, i - 1);
      CalmStepKeepsInv(r.states[i - 1], r.events[i - 1]);
    }
  }

  /** In a calm run at most one caller of the process holds the key at any time. */
  lemma AtMostOneOwner(r: Run, i: nat, t: nat, u: nat)
    requires CalmRun(r) && i < |r.states|
    requires Holding(At(r.states[i], t)) && Holding(At(r.states[i], u))
    ensures t == u
  {
    CalmRunKeepsInv(r, i);
  }

  // --------------------------------------------------------------- settled rows

  /** A step from a settled row keeps it settled and makes nobody an owner. */
  lemma SettledStep(s: Sys, e: Event, t: nat)
    requires Enabled(s, e) && s.key.row.Settled? && e != Purge
    ensures Apply(s, e).key.row.Settled? && Apply(s, e).key.row.finger == s.key.row.finger
    ensures At(Apply(s, e), t).Owner? ==> At(s, t).Owner?
  {
  }

  /** Once the row has left pending it never returns, and no claim returns owner, in any run that does not purge it. */
  lemma {:induction false} SettledRowsNeverRunAgain(r: Run, i: nat, j: nat, t: nat)
    requires Valid(r) && i <= j < |r.events| && r.states[i].key.row.Settled?
    requires forall k | i <= k <= j :: r.events[k] != Purge
    ensures r.states[j].key.row.Settled? && r.states[j].key.row.finger == r.states[i].key.row.finger
    ensures At(r.states[j + 1], t).Owner? ==> At(r.states[j], t).Owner?
    decreases j
  {
    hide Enabled, Apply;
    if i < j {
      SettledRowsNeverRunAgain(r, i, j - 1, t);
      assert StepAt(r, j - 1);
      SettledStep(r.states[j - 1], r.events[j - 1], t);
    }
    assert StepAt(r, j);
    SettledStep(r.states[j], r.events[j], t);
  }

  // ------------------------------------------------------------------ tombstones

  // ------------------------------------------------------------ one request per row

  /** The fingerprint of a row, if there is a row. */
  function Request(s: Sys): Option<Fingerprint> { if s.key.row.Absent? then None else Some(s.key.row.finger) }

  /** A step changes the row of no other request, and keeps flights and tombstones of this process to their own. */
  lemma OwnRequestOnly(s: Sys, e: Event)
    requires Enabled(s, e) && Request(s).Some? && Request(Apply(s, e)).Some?
    ensures Request(Apply(s, e)) == Request(s)
    ensures e.Complete? && Apply(s, e).key.row != s.key.row ==> Request(s) == Some(At(s, e.t).finger)
    ensures (e.Repair? || e.Mark? || e.Refresh? || e.TakeOver?) && Apply(s, e).key.row != s.key.row ==>
      Request(s) == Some(At(s, e.t).finger)
  {
  }

  /** A caller abandons only a pending row of its own request. */
  lemma AbandonsOwnOnly(s: Sys, t: nat)
    requires Enabled(s, Abandon(t)) && Apply(s, Abandon(t)).key != s.key
    ensures s.key.row.Pending? && Request(s) == Some(At(s, t).finger)
    ensures Request(Apply(s, Abandon(t))) == None
  {
  }

  /** While a row exists it belongs to the request that made it, in every run. */
  lemma {:induction false} RowsKeepTheirRequest(r: Run, i: nat, j: nat)
    requires Valid(r) && i <= j < |r.states| && forall k | i <= k <= j :: Request(r.states[k]).Some?
    ensures Request(r.states[j]) == Request(r.states[i])
    decreases j
  {
    hide Enabled, Apply, Request;
    if i < j {
      RowsKeepTheirRequest(r, i, j - 1);
      assert StepAt(r, j - 1);
      OwnRequestOnly(r.states[j - 1], r.events[j - 1]);
    }
  }

  // ---------------------------------------------------------------- after a doubt

  /** A caller that cannot become an owner unless the row is settled. */
  predicate Harmless(s: Sys, p: Phase) {
    !Holding(p) && (s.key.row.Settled? || p.Idle? || p.SawDoubt? || p.Repairing? || p.Doubting? || p.LastWords?)
  }

  /** After a holder's `MarkInDoubt` a tombstone or a settled row keeps later claims from owning the key. */
  predicate LateInv(s: Sys) {
    && (s.doubted ==> s.key.tombstone.Some? || s.key.row.Settled?)
    && (!s.doubted ==> s.late == {})
    && forall t: nat | t in s.late :: Harmless(s, At(s, t))
  }

  /** What the process has said of the key is lost with the process, or with a settled row. */
  predicate Forgets(s: Sys, e: Event) { e.Crash? || (e.Purge? && s.key.row.Settled?) }

  /** A late caller stays harmless. */
  lemma LateStaysHarmless(s: Sys, e: Event, t: nat)
    requires LateInv(s) && Enabled(s, e) && !Forgets(s, e) && t in s.late
    ensures Harmless(Apply(s, e), At(Apply(s, e), t))
  {
    assert Harmless(s, At(s, t));
  }

  /** A claim that starts behind a tombstone or a settled row is harmless. */
  lemma StartsHarmless(s: Sys, t: nat, finger: Fingerprint)
    requires LateInv(s) && s.doubted && At(s, t).Idle?
    ensures Harmless(Started(s, t, finger), At(Started(s, t, finger), t))
  {
  }

  lemma LateStep(s: Sys, e: Event)
    requires Inv(s) && LateInv(s) && Enabled(s, e)
    ensures LateInv(Apply(s, e))
  {
    hide OneHolder, Unthreatened, Harmless;
    var s' := Apply(s, e);
    if e.Defer? { PhaseOf(s, e.t); }
    forall t: nat | t in s'.late ensures Harmless(s', At(s', t)) {
      if t in s.late { LateStaysHarmless(s, e, t); } else { StartsHarmless(s, t, e.finger); }
    }
  }

  lemma {:induction false} CalmRunKeepsLateInv(r: Run, i: nat)
    requires CalmRun(r) && i < |r.states|
    ensures LateInv(r.states[i])
  {
    hide Inv, Enabled, Apply, Calm;
    if i > 0 {
      CalmRunKeepsLateInv(r, i - 1);
      CalmRunKeepsInv(r, i - 1);
      assert StepAt(r, i - 1);
      LateStep(r.states[i - 1], r.events[i - 1]);
    }
  }

  /** Nothing is forgotten between two states. */
  predicate Remembers(r: Run, i: nat, k: nat)
    requires Valid(r)
  {
    k <= |r.events| && forall j | i <= j < k :: !Forgets(r.states[j], r.events[j])
  }

  lemma LateStays(s: Sys, e: Event)
    requires Enabled(s, e) && s.doubted && !Forgets(s, e)
    ensures Apply(s, e).doubted && s.late <= Apply(s, e).late
    ensures e.Start? ==> e.t in Apply(s, e).late
  {
  }

  /** A doubt once said stays known while nothing is forgotten, and later claims stay known as such. */
  lemma {:induction false} DoubtStays(r: Run, i: nat, k: nat)
    requires Valid(r) && i <= k < |r.states| && r.states[i].doubted && Remembers(r, i, k)
    ensures r.states[k].doubted && r.states[i].late <= r.states[k].late
    decreases k
  {
    hide Enabled, Apply;
    if i < k {
      DoubtStays(r, i, k - 1);
      assert StepAt(r, k - 1);
      LateStays(r.states[k - 1], r.events[k - 1]);
    }
  }

  /**
   A holder's `MarkInDoubt` returns at `i`, perhaps without having written; a claim
   that starts at `j` afterwards never holds the key while the process lives and
   the settled row, if there is one, is not purged.
   */
  lemma NoOwnerAfterDoubt(r: Run, i: nat, j: nat, k: nat, finger: Fingerprint)
    requires CalmRun(r) && i < j < k < |r.states| && Remembers(r, i + 1, k)
    requires r.events[i].Defer? && At(r.states[i], r.events[i].t) == LastWords(finger, true)
    requires r.events[j].Start?
    ensures !Holding(At(r.states[k], r.events[j].t))
  {
    hide Inv, Calm;
    assert StepAt(r, i) && StepAt(r, j);
    assert r.states[i + 1].doubted;
    hide Enabled, Apply;
    DoubtStays(r, i + 1, j);
    LateStays(r.states[j], r.events[j]);
    DoubtStays(r, j + 1, k);
    CalmRunKeepsLateInv(r, k);
    assert Harmless(r.states[k], At(r.states[k], r.events[j].t));
  }

  // -------------------------------------------------------------- counterexamples

  /** Every step but one event is calm. */
  predicate CalmBut(r: Run, slip: Event) { Valid(r) && forall i: nat | i < |r.events| :: CalmAt(r, i) || r.events[i] == slip }

  function Last(r: Run): Sys { if r.states == [] then START else r.states[|r.states| - 1] }

  function Begin(): Run { Run([START], []) }

  lemma BeginIsCalm(slip: Event)
    ensures CalmBut(Begin(), slip) && Last(Begin()) == START
  {
  }

  /** A run continues with any enabled event that is calm or the slip. */
  lemma Then(r: Run, e: Event, slip: Event) returns (r': Run)
    requires CalmBut(r, slip) && Enabled(Last(r), e) && (Calm(Last(r), e) || e == slip)
    ensures CalmBut(r', slip) && Last(r') == Apply(Last(r), e)
  {
    hide Enabled, Apply, Calm;
    r' := Run(r.states + [Apply(Last(r), e)], r.events + [e]);
    forall i: nat | i < |r'.events| ensures StepAt(r', i) {
      if i < |r.events| { assert StepAt(r, i); }
    }
    forall i: nat | i < |r'.events| ensures CalmAt(r', i) || r'.events[i] == slip {
      if i < |r.events| { assert CalmAt(r, i) || r.events[i] == slip; }
    }
  }

  /** A claim that sees neither a flight nor a tombstone, up to reading the row. */
  lemma ThenReads(r: Run, t: nat, finger: Fingerprint, slip: Event) returns (r': Run)
    requires CalmBut(r, slip) && At(Last(r), t).Idle? && FirstSection(Last(r).key, finger).Proceeds?
    requires !Last(r).doubted
    ensures CalmBut(r', slip)
    ensures Last(r') == RowRead(Move(Last(r), t, Timed(finger, Last(r).clock, false)), t)
  {
    var a := Then(r, Start(t, finger), slip);
    var b := Then(a, ReadClock(t), slip);
    assert Last(b).callers == Last(r).callers[t := Timed(finger, Last(r).clock, false)];
    r' := Then(b, ReadKey(t), slip);
  }

  predicate TwoOwners(s: Sys, t: nat, u: nat) { t != u && At(s, t).Owner? && At(s, u).Owner? }

  /** A third claim, a lease later, that finds the row pending since time 0 and no flight. */
  lemma ThenTakesOver(r: Run, slip: Event) returns (r': Run)
    requires CalmBut(r, slip) && At(Last(r), 3).Idle? && Last(r).key == KeyState(Pending(1, 0), None, None)
    requires Last(r).clock == 30_000 && !Last(r).doubted
    ensures CalmBut(r', slip)
    ensures Last(r') == Move(Last(r).(key := Last(r).key), 3, WillTakeOver(1, 30_000, 0))
  {
    var a := ThenReads(r, 3, 1, slip);
    r' := Then(a, CheckFlight(3), slip);
    assert Last(r').callers == Last(r).callers[3 := WillTakeOver(1, 30_000, 0)];
  }

  /** Caller 2 finds no row, and stalls before its insert. */
  lemma CallerTwoStalls(slip: Event) returns (r: Run)
    ensures CalmBut(r, slip)
    ensures Last(r) == Sys(KeyState(Absent, None, None), map[2 := WillInsert(1, 0)], 0, false, {})
  {
    hide CalmBut;
    BeginIsCalm(slip);
    r := ThenReads(Begin(), 2, 1, slip);
    assert Last(r).callers == map[2 := WillInsert(1, 0)];
  }

  lemma CallerOneInserts(slip: Event) returns (r: Run)
    ensures CalmBut(r, slip)
    ensures Last(r) == Sys(KeyState(Pending(1, 0), Some(1), None), map[2 := WillInsert(1, 0), 1 := Owner(1)], 0, false, {})
  {
    hide CalmBut;
    r := CallerTwoStalls(slip);
    r := ThenReads(r, 1, 1, slip);
    assert Last(r).callers == map[2 := WillInsert(1, 0), 1 := WillInsert(1, 0)];
    r := Then(r, Insert(1), slip);
    assert Last(r).callers == map[2 := WillInsert(1, 0), 1 := Owner(1)];
  }

  lemma CallerTwoInsertsBehindAbandon(slip: Event) returns (r: Run)
    requires slip == Insert(2)
    ensures CalmBut(r, slip)
    ensures Last(r) == Sys(KeyState(Pending(1, 0), Some(1), None), map[2 := Owner(1), 1 := Abandoning(1)], 0, false, {})
  {
    hide CalmBut;
    r := CallerOneInserts(slip);
    r := Then(r, Abandon(1), slip);
    assert Last(r).callers == map[2 := WillInsert(1, 0), 1 := Abandoning(1)];
    r := Then(r, Insert(2), slip);
    assert Last(r).callers == map[2 := Owner(1), 1 := Abandoning(1)];
  }

  lemma FlightOfCallerTwoIsGone(slip: Event) returns (r: Run)
    requires slip == Insert(2)
    ensures CalmBut(r, slip)
    ensures Last(r) == Sys(KeyState(Pending(1, 0), None, None), map[2 := Owner(1), 1 := Idle], 30_000, false, {})
  {
    hide CalmBut;
    r := CallerTwoInsertsBehindAbandon(slip);
    r := Then(r, Release(1), slip);
    assert Last(r).callers == map[2 := Owner(1), 1 := Idle];
    r := Then(r, Tick(30_000), slip);
  }

  /**
   Caller 2 finds no row; caller 1 inserts it and deletes it by `Abandon`, and
   caller 2 inserts before caller 1 releases the flight: the release removes
   caller 2's flight, and after the lease caller 3 takes the key over as well.
   */
  lemma AbandonRaceHasTwoOwners() returns (r: Run)
    ensures CalmBut(r, Insert(2)) && TwoOwners(Last(r), 2, 3)
  {
    var slip := Insert(2);
    hide CalmBut;
    r := FlightOfCallerTwoIsGone(slip);
    r := ThenTakesOver(r, slip);
    r := Then(r, TakeOver(3), slip);
  }

  lemma CallerThreeWillTakeOver(slip: Event) returns (r: Run)
    ensures CalmBut(r, slip) && Last(r).key == KeyState(Pending(1, 0), None, None)
    ensures Last(r).callers == map[2 := WillInsert(1, 0), 3 := WillTakeOver(1, 30_000, 0)]
    ensures Last(r).clock == 30_000 && !Last(r).doubted
  {
    hide CalmBut;
    r := CallerTwoStalls(slip);
    r := Then(r, ForeignInsert(1, 0), slip);
    r := Then(r, Tick(30_000), slip);
    r := ThenTakesOver(r, slip);
    assert Last(r).callers == map[2 := WillInsert(1, 0), 3 := WillTakeOver(1, 30_000, 0)];
  }

  /**
   Caller 2 reads the clock and then stalls for a lease before it inserts, so its
   row carries the stamp that caller 3 is about to take over.
   */
  lemma SlowInsertHasTwoOwners() returns (r: Run)
    ensures CalmBut(r, Insert(2)) && TwoOwners(Last(r), 2, 3)
  {
    var slip := Insert(2);
    hide CalmBut;
    r := CallerThreeWillTakeOver(slip);
    r := Then(r, ForeignDelete, slip);
    r := Then(r, Insert(2), slip);
    assert Last(r).callers == map[2 := Owner(1), 3 := WillTakeOver(1, 30_000, 0)];
    r := Then(r, TakeOver(3), slip);
  }

  /** Another process abandons the row that caller 1 inserted, and the stalled caller 2 inserts its own. */
  lemma ForeignDeleteHasTwoOwners() returns (r: Run)
    ensures CalmBut(r, ForeignDelete) && TwoOwners(Last(r), 1, 2)
  {
    var slip := ForeignDelete;
    hide CalmBut;
    r := CallerOneInserts(slip);
    r := Then(r, ForeignDelete, slip);
    r := Then(r, Insert(2), slip);
  }

  /** The row that caller 1 inserted expires and is purged, and the stalled caller 2 inserts its own. */
  lemma PurgeHasTwoOwners() returns (r: Run)
    ensures CalmBut(r, Purge) && TwoOwners(Last(r), 1, 2)
  {
    var slip := Purge;
    hide CalmBut;
    r := CallerOneInserts(slip);
    r := Then(r, Purge, slip);
    r := Then(r, Insert(2), slip);
  }

  /** Caller `t` goes on from its first section to a takeover of the stale row. */
  lemma ThenTakesKey(r: Run, t: nat, updated: int, slip: Event) returns (r': Run)
    requires CalmBut(r, slip) && At(Last(r), t) == Checked(1) && Last(r).key.row == Pending(1, updated)
    requires Last(r).key.flight == None && Last(r).clock - updated >= LEASE && NoAbandonInFlight(Last(r))
    ensures CalmBut(r', slip)
    ensures Last(r') ==
      Move(Last(r).(key := Last(r).key.(row := Pending(1, Last(r).clock), flight := Some(1))), t, Owner(1))
  {
    hide CalmBut;
    var s := Last(r);
    r' := Then(r, ReadClock(t), slip);
    r' := Then(r', ReadKey(t), slip);
    assert Last(r').callers == s.callers[t := SawPending(1, s.clock, updated)];
    r' := Then(r', CheckFlight(t), slip);
    r' := Then(r', TakeOver(t), slip);
    assert Last(r').callers == s.callers[t := Owner(1)];
  }

  /** A `MarkInDoubt` whose write the database refuses. */
  lemma ThenFailsToMark(r: Run, t: nat, slip: Event) returns (r': Run)
    requires CalmBut(r, slip) && (At(Last(r), t) == Owner(1) || (At(Last(r), t) == SawDoubt(1) && slip == Defer(t)))
    requires Last(r).key.flight == Some(1)
    ensures CalmBut(r', slip)
    ensures Last(r') == Sys(KeyState(Last(r).key.row, None, Some(1)), Last(r).callers[t := Idle], Last(r).clock,
                            Last(r).doubted || At(Last(r), t).Owner?, Last(r).late)
  {
    hide CalmBut;
    var s := Last(r);
    r' := Then(r, Mark(t, false), slip);
    r' := Then(r', FinishMarked(t), slip);
    assert Last(r').callers == s.callers[t := LastWords(1, At(s, t).Owner?)];
    r' := Then(r', Defer(t), slip);
    assert Last(r').callers == s.callers[t := Idle];
  }

  /** Callers 2 and 4 pass their first section, and caller 1 inserts the row. */
  lemma TwoClaimsOnTheWay(slip: Event) returns (r: Run)
    ensures CalmBut(r, slip)
    ensures Last(r) == Sys(KeyState(Pending(1, 0), Some(1), None),
                           map[2 := Checked(1), 4 := Checked(1), 1 := Owner(1)], 0, false, {})
  {
    hide CalmBut;
    BeginIsCalm(slip);
    r := Then(Begin(), Start(2, 1), slip);
    r := Then(r, Start(4, 1), slip);
    r := ThenReads(r, 1, 1, slip);
    r := Then(r, Insert(1), slip);
    assert Last(r).callers == map[2 := Checked(1), 4 := Checked(1), 1 := Owner(1)];
  }

  /** Caller 1 cannot mark its doubt, caller 3 is answered in doubt, and caller 2 takes the key over. */
  lemma DoubtfulBesideOwner(slip: Event) returns (r: Run)
    ensures CalmBut(r, slip)
    ensures Last(r) == Sys(KeyState(Pending(1, 30_000), Some(1), Some(1)),
                           map[2 := Owner(1), 4 := Checked(1), 1 := Idle, 3 := SawDoubt(1)], 30_000, true, {3})
  {
    hide CalmBut;
    r := TwoClaimsOnTheWay(slip);
    r := ThenFailsToMark(r, 1, slip);
    assert Last(r).callers == map[2 := Checked(1), 4 := Checked(1), 1 := Idle];
    r := Then(r, Start(3, 1), slip);
    assert Last(r).callers == map[2 := Checked(1), 4 := Checked(1), 1 := Idle, 3 := SawDoubt(1)];
    r := Then(r, Tick(30_000), slip);
    r := ThenTakesKey(r, 2, 0, slip);
    assert Last(r).callers == map[2 := Owner(1), 4 := Checked(1), 1 := Idle, 3 := SawDoubt(1)];
  }

  /**
   Caller 3, answered in doubt, tries to mark the row and the database refuses:
   that ends the flight of caller 2, and after a lease caller 4, whose claim had
   passed its first section before there was a tombstone, takes the key over as well.
   */
  lemma RefusedMarkHasTwoOwners() returns (r: Run)
    ensures CalmBut(r, Defer(3)) && TwoOwners(Last(r), 2, 4)
  {
    var slip := Defer(3);
    hide CalmBut;
    r := DoubtfulBesideOwner(slip);
    r := ThenFailsToMark(r, 3, slip);
    r := Then(r, Tick(30_000), slip);
    r := ThenTakesKey(r, 4, 30_000, slip);
  }

  /** Another process writes a stamp that a stalled takeover is waiting for. */
  lemma StaleStampHasTwoOwners() returns (r: Run)
    ensures CalmBut(r, ForeignTouch(0)) && TwoOwners(Last(r), 3, 4)
  {
    var slip := ForeignTouch(0);
    hide CalmBut;
    r := CallerThreeWillTakeOver(slip);
    r := Then(r, Start(4, 1), slip);
    r := ThenTakesKey(r, 4, 0, slip);
    r := Then(r, ForeignTouch(0), slip);
    r := Then(r, TakeOver(3), slip);
  }
}

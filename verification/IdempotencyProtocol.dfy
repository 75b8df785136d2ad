/**
 The idempotent-claim protocol on one key as a transition system: any number of
 callers in this process, other processes that share the database, the purge of expired
 rows, and crashes.
 An insert or takeover and the flight set with it are one step.
 */
module IdempotencyProtocol {
  import opened OperationCore
  import opened IdempotencyCore

  /** Where a caller stands between two of its steps. */
  datatype Phase =
    | Idle
    | Checked(finger: Fingerprint)
    | Timed(finger: Fingerprint, now: int, retry: bool)
    | WillInsert(finger: Fingerprint, now: int)
    | SawPending(finger: Fingerprint, now: int, updated: int)
    | WillTakeOver(finger: Fingerprint, now: int, updated: int)
    | Owner(finger: Fingerprint)
    | Completing(finger: Fingerprint)
    | Abandoning(finger: Fingerprint)
    | Doubting(finger: Fingerprint, marked: bool, holds: bool)
    | LastWords(finger: Fingerprint, holds: bool)
    | SawDoubt(finger: Fingerprint)
    | Repairing(finger: Fingerprint)

  /**
   From its claim until its last step a caller holds the key.  A caller that was
   answered in doubt may repair or mark the row as well; that one does not hold it.
   */
  predicate Holding(p: Phase) {
    p.Owner? || p.Completing? || p.Abandoning? || (p.Doubting? && p.holds) || (p.LastWords? && p.holds)
  }

  /** `doubted`: a holder's `MarkInDoubt` has returned; `late`: callers whose claim started after that. */
  datatype Sys = Sys(key: KeyState, callers: map<nat, Phase>, clock: int, doubted: bool, late: set<nat>)

  function At(s: Sys, t: nat): Phase { if t in s.callers then s.callers[t] else Idle }

  function Move(s: Sys, t: nat, p: Phase): Sys { s.(callers := s.callers[t := p]) }

  datatype Event =
    | Tick(span: nat)
    | Start(t: nat, finger: Fingerprint)
    | ReadClock(t: nat)
    | ReadKey(t: nat)
    | Insert(t: nat)
    | CheckFlight(t: nat)
    | TakeOver(t: nat)
    | Refresh(t: nat)
    | Complete(t: nat, doubt: bool)
    | Abandon(t: nat)
    | Mark(t: nat, writes: bool)
    | FinishMarked(t: nat)
    | Defer(t: nat)
    | Release(t: nat)
    | Leave(t: nat)
    | Repair(t: nat, doubt: bool)
    | GiveUp(t: nat)
    | ForeignInsert(finger: Fingerprint, stamp: int)
    | ForeignTouch(stamp: int)
    | ForeignSettle(doubt: bool)
    | ForeignDelete
    | Purge
    | Crash

  predicate Enabled(s: Sys, e: Event) {
    match e
    case Tick(_) => true
    case Start(t, _) => At(s, t).Idle?
    case ReadClock(t) => At(s, t).Checked?
    case ReadKey(t) => At(s, t).Timed?
    case Insert(t) => At(s, t).WillInsert?
    case CheckFlight(t) => At(s, t).SawPending?
    case TakeOver(t) => At(s, t).WillTakeOver?
    case Refresh(t) => At(s, t).Owner?
    case Complete(t, _) => At(s, t).Owner?
    case Abandon(t) => At(s, t).Owner?
    case Mark(t, _) => At(s, t).Owner? || At(s, t).SawDoubt?
    case FinishMarked(t) => At(s, t).Doubting?
    case Defer(t) => At(s, t).LastWords?
    case Release(t) => At(s, t).Completing? || At(s, t).Abandoning? || At(s, t).Repairing?
    case Leave(t) => At(s, t).Owner?
    case Repair(t, _) => At(s, t).SawDoubt?
    case GiveUp(t) => At(s, t).SawDoubt?
    case ForeignInsert(_, _) => s.key.row.Absent?
    case ForeignTouch(_) => s.key.row.Pending?
    case ForeignSettle(_) => !s.key.row.Absent?
    case ForeignDelete => s.key.row.Pending?
    case Purge => !s.key.row.Absent?
    case Crash => true
  }

  /** The first locked section of a claim; a tombstone lets it only read the row. */
  function Started(s: Sys, t: nat, finger: Fingerprint): Sys {
    var s' := if s.doubted then s.(late := s.late + {t}) else s;
    match FirstSection(s.key, finger)
    case Proceeds => Move(s', t, Checked(finger))
    case Doubtful => if ReadRow(s.key.row, finger) == Replays then Move(s', t, Idle) else Move(s', t, SawDoubt(finger))
    case _ => Move(s', t, Idle)
  }

  function RowRead(s: Sys, t: nat): Sys
    requires At(s, t).Timed?
  {
    var p := At(s, t);
    match ReadRow(s.key.row, p.finger)
    case NoRow => Move(s, t, if p.retry then Idle else WillInsert(p.finger, p.now))
    case SeesPending(updated) => Move(s, t, SawPending(p.finger, p.now, updated))
    case InDoubt => Move(s, t, SawDoubt(p.finger))
    case _ => Move(s, t, Idle)
  }

  function Inserted(s: Sys, t: nat): Sys
    requires At(s, t).WillInsert?
  {
    var p := At(s, t);
    var (key, ok) := InsertSection(s.key, p.finger, p.now);
    Move(s.(key := key), t, if ok then Owner(p.finger) else Timed(p.finger, p.now, true))
  }

  function FlightChecked(s: Sys, t: nat): Sys
    requires At(s, t).SawPending?
  {
    var p := At(s, t);
    if s.key.flight == Some(p.finger) || p.now - p.updated < LEASE then Move(s, t, Idle)
    else Move(s, t, WillTakeOver(p.finger, p.now, p.updated))
  }

  function TakenOver(s: Sys, t: nat): Sys
    requires At(s, t).WillTakeOver?
  {
    var p := At(s, t);
    var (key, ok) := TakeOverSection(s.key, p.finger, p.now, p.updated);
    Move(s.(key := key), t, if ok then Owner(p.finger) else Idle)
  }

  function Settling(s: Sys, t: nat, doubt: bool, done: Phase, refused: Phase): Sys
    requires !At(s, t).Idle?
  {
    var (key, ok) := SettleSection(s.key, At(s, t).finger, doubt);
    Move(s.(key := key), t, if ok then done else refused)
  }

  function Marked(s: Sys, t: nat, writes: bool): Sys
    requires At(s, t).Owner? || At(s, t).SawDoubt?
  {
    var (finger, holds) := (At(s, t).finger, At(s, t).Owner?);
    if writes then Settling(s, t, true, Doubting(finger, true, holds), Doubting(finger, false, holds))
    else Move(s, t, Doubting(finger, false, holds))
  }

  /** The last section of `MarkInDoubt`. */
  function Deferred(s: Sys, t: nat): Sys
    requires At(s, t).LastWords?
  {
    var p := At(s, t);
    Move(s.(key := DeferredSection(s.key, p.finger), doubted := s.doubted || p.holds), t, Idle)
  }

  /** The purge of an expired row; with a settled row goes what was known of it. */
  function Purged(s: Sys): Sys {
    var s' := s.(key := s.key.(row := Absent));
    if s.key.row.Settled? then s'.(doubted := false, late := {}) else s'
  }

  function Apply(s: Sys, e: Event): Sys
    requires Enabled(s, e)
  {
    match e
    case Tick(span) => s.(clock := s.clock + span)
    case Start(t, finger) => Started(s, t, finger)
    case ReadClock(t) => Move(s, t, Timed(At(s, t).finger, s.clock, false))
    case ReadKey(t) => RowRead(s, t)
    case Insert(t) => Inserted(s, t)
    case CheckFlight(t) => FlightChecked(s, t)
    case TakeOver(t) => TakenOver(s, t)
    case Refresh(t) => s.(key := RefreshSection(s.key, At(s, t).finger, s.clock))
    case Complete(t, doubt) => Settling(s, t, doubt, Completing(At(s, t).finger), At(s, t))
    case Abandon(t) =>
      var (key, ok) := DeleteSection(s.key, At(s, t).finger);
      Move(s.(key := key), t, if ok then Abandoning(At(s, t).finger) else Idle)
    case Mark(t, writes) => Marked(s, t, writes)
    case FinishMarked(t) =>
      Move(if At(s, t).marked then s.(key := ReleaseSection(s.key)) else s, t, LastWords(At(s, t).finger, At(s, t).holds))
    case Defer(t) => Deferred(s, t)
    case Release(t) => Move(s.(key := ReleaseSection(s.key)), t, Idle)
    case Leave(t) => Move(s, t, Idle)
    case Repair(t, doubt) => Settling(s, t, doubt, Repairing(At(s, t).finger), At(s, t))
    case GiveUp(t) => Move(s, t, Idle)
    case ForeignInsert(finger, stamp) => s.(key := s.key.(row := Pending(finger, stamp)))
    case ForeignTouch(stamp) => s.(key := s.key.(row := Pending(s.key.row.finger, stamp)))
    case ForeignSettle(doubt) => s.(key := s.key.(row := Settled(s.key.row.finger, doubt)))
    case ForeignDelete => s.(key := s.key.(row := Absent))
    case Purge => Purged(s)
    case Crash => Sys(KeyState(s.key.row, None, None), map[], s.clock, false, {})
  }

  // ---------------------------------------------------------------- the assumption

  /** Nobody has deleted the row without having released the flight yet. */
  predicate NoAbandonInFlight(s: Sys) { forall t: nat | t in s.callers :: !s.callers[t].Abandoning? }

  predicate Recent(s: Sys, stamp: int) { stamp <= s.clock < stamp + LEASE }

  /** The caller relies on the row it has seen or written. */
  predicate Relying(p: Phase) { Holding(p) || p.Repairing? || (p.Doubting? && p.marked) }

  /** The last section of `MarkInDoubt` takes no flight from another caller that still needs it. */
  predicate SparesHolders(s: Sys, t: nat)
    requires At(s, t).LastWords?
  {
    || At(s, t).holds || s.key.flight != Some(At(s, t).finger) || s.key.row.Settled?
    || forall u: nat | u in s.callers :: !Holding(s.callers[u])
  }

  /**
   A claim acquires the key less than a lease after it read the clock, and not
   between an `Abandon`'s deletion and its release; a caller that does not hold the
   key does not fail to mark it while another caller's flight stands; other
   processes stamp rows with recent times, and do not delete a row that this
   process holds; no row is purged while a caller relies on it.
   */
  predicate Calm(s: Sys, e: Event)
    requires Enabled(s, e)
  {
    match e
    case Insert(t) => Recent(s, At(s, t).now) && NoAbandonInFlight(s)
    case TakeOver(t) => Recent(s, At(s, t).now) && NoAbandonInFlight(s)
    case Defer(t) => SparesHolders(s, t)
    case ForeignInsert(_, stamp) => Recent(s, stamp)
    case ForeignTouch(stamp) => Recent(s, stamp)
    case ForeignDelete => forall t: nat | t in s.callers :: !Holding(s.callers[t])
    case Purge => forall t: nat | t in s.callers :: !Relying(s.callers[t])
    case _ => true
  }

  // -------------------------------------------------------------------- invariants

  /** At most one caller holds the key. */
  predicate OneHolder(s: Sys) {
    forall t: nat, u: nat | t in s.callers && u in s.callers && Holding(s.callers[t]) && Holding(s.callers[u]) :: t == u
  }

  /** No caller is about to take over the row with this fingerprint and stamp. */
  predicate Unthreatened(s: Sys, finger: Fingerprint, updated: int) {
    forall t: nat | t in s.callers && s.callers[t].WillTakeOver? ::
      !(s.callers[t].finger == finger && s.callers[t].updated == updated)
  }

  /** The row is settled, or pending under this fingerprint with a flight that keeps others waiting. */
  predicate Secure(s: Sys, finger: Fingerprint) {
    || s.key.row.Settled?
    || (s.key.row.Pending? && s.key.row.finger == finger && s.key.flight == Some(finger)
        && Unthreatened(s, finger, s.key.row.updated))
  }

  predicate PhaseInv(s: Sys, p: Phase) {
    match p
    case Timed(_, now, _) => now <= s.clock
    case WillInsert(_, now) => now <= s.clock
    case SawPending(_, now, _) => now <= s.clock
    case WillTakeOver(_, now, updated) => now <= s.clock && now - updated >= LEASE
    case Owner(finger) => Secure(s, finger)
    case Doubting(finger, marked, holds) => if marked then s.key.row.Settled? else holds ==> Secure(s, finger)
    case LastWords(finger, holds) => holds ==> Secure(s, finger)
    case Completing(_) => s.key.row.Settled?
    case Repairing(_) => s.key.row.Settled?
    case _ => true
  }

  predicate Inv(s: Sys) {
    && OneHolder(s)
    && forall t: nat | t in s.callers :: PhaseInv(s, s.callers[t])
  }

  const START := Sys(KeyState(Absent, None, None), map[], 0, false, {})

  lemma InitInv()
    ensures Inv(START)
  {
  }

  /** Nothing changes for callers whose key and rivals are as they were. */
  lemma MoveInv(s: Sys, t: nat, p: Phase)
    requires Inv(s) && PhaseInv(s, p) && !p.WillTakeOver?
    requires Holding(p) ==> Holding(At(s, t)) || forall u: nat | u in s.callers :: !Holding(s.callers[u])
    ensures Inv(Move(s, t, p))
  {
    var s' := Move(s, t, p);
    forall u: nat | u in s'.callers ensures PhaseInv(s', s'.callers[u]) {
      if u != t { assert PhaseInv(s, s.callers[u]); }
    }
  }

  lemma TickInv(s: Sys, span: nat)
    requires Inv(s)
    ensures Inv(Apply(s, Tick(span)))
  {
    var s' := Apply(s, Tick(span));
    forall t: nat | t in s'.callers ensures PhaseInv(s', s'.callers[t]) { assert PhaseInv(s, s.callers[t]); }
  }

  lemma StartInv(s: Sys, t: nat, finger: Fingerprint)
    requires Inv(s) && Enabled(s, Start(t, finger))
    ensures Inv(Apply(s, Start(t, finger)))
  {
    var s' := if s.doubted then s.(late := s.late + {t}) else s;
    forall u: nat | u in s'.callers ensures PhaseInv(s', s'.callers[u]) { assert PhaseInv(s, s.callers[u]); }
    MoveInv(s', t, Checked(finger));
    MoveInv(s', t, Idle);
    MoveInv(s', t, SawDoubt(finger));
  }

  /** A takeover that passed the flight check does not threaten a flight's own row. */
  lemma CheckFlightInv(s: Sys, t: nat)
    requires Inv(s) && Enabled(s, CheckFlight(t))
    ensures Inv(Apply(s, CheckFlight(t)))
  {
    assert PhaseInv(s, At(s, t));
    var s' := Apply(s, CheckFlight(t));
    forall u: nat | u in s'.callers ensures PhaseInv(s', s'.callers[u]) {
      if u != t { assert PhaseInv(s, s.callers[u]); }
    }
  }

  /** Taking the key: nobody holds it, and nobody is about to take it with the new stamp. */
  lemma AcquireInv(s: Sys, t: nat, finger: Fingerprint, now: int)
    requires Inv(s) && Recent(s, now) && !s.key.row.Settled?
    requires forall u: nat | u in s.callers :: !Relying(s.callers[u])
    ensures Inv(Move(s.(key := s.key.(row := Pending(finger, now), flight := Some(finger))), t, Owner(finger)))
  {
    var s' := Move(s.(key := s.key.(row := Pending(finger, now), flight := Some(finger))), t, Owner(finger));
    assert Unthreatened(s', finger, now) by {
      forall u: nat | u in s'.callers && s'.callers[u].WillTakeOver?
        ensures !(s'.callers[u].finger == finger && s'.callers[u].updated == now)
      {
        assert PhaseInv(s, s.callers[u]);
      }
    }
    forall u: nat | u in s'.callers ensures PhaseInv(s', s'.callers[u]) {
      if u != t { assert PhaseInv(s, s.callers[u]); }
    }
  }

  /** While the row can still be acquired and no `Abandon` is in flight, nobody holds the key. */
  lemma AcquirableIsFree(s: Sys, t: nat)
    requires Inv(s) && NoAbandonInFlight(s)
    requires s.key.row.Absent?
      || (At(s, t).WillTakeOver? && s.key.row == Pending(At(s, t).finger, At(s, t).updated))
    ensures forall u: nat | u in s.callers :: !Relying(s.callers[u])
  {
    forall u: nat | u in s.callers ensures !Relying(s.callers[u]) {
      assert PhaseInv(s, s.callers[u]);
    }
  }

  lemma InsertInv(s: Sys, t: nat)
    requires Inv(s) && Enabled(s, Insert(t)) && Calm(s, Insert(t))
    ensures Inv(Apply(s, Insert(t)))
  {
    var p := At(s, t);
    assert PhaseInv(s, p);
    if s.key.row.Absent? {
      AcquirableIsFree(s, t);
      AcquireInv(s, t, p.finger, p.now);
    } else {
      MoveInv(s, t, Timed(p.finger, p.now, true));
    }
  }

  lemma TakeOverInv(s: Sys, t: nat)
    requires Inv(s) && Enabled(s, TakeOver(t)) && Calm(s, TakeOver(t))
    ensures Inv(Apply(s, TakeOver(t)))
  {
    var p := At(s, t);
    if s.key.row == Pending(p.finger, p.updated) {
      AcquirableIsFree(s, t);
      AcquireInv(s, t, p.finger, p.now);
    } else {
      MoveInv(s, t, Idle);
    }
  }

  /** A recent stamp threatens nobody. */
  lemma StampInv(s: Sys, stamp: int)
    requires Inv(s) && Recent(s, stamp) && s.key.row.Pending?
    ensures Inv(s.(key := s.key.(row := Pending(s.key.row.finger, stamp))))
  {
    var s' := s.(key := s.key.(row := Pending(s.key.row.finger, stamp)));
    assert forall u: nat | u in s.callers :: PhaseInv(s, s.callers[u]);
    forall u: nat | u in s'.callers ensures PhaseInv(s', s'.callers[u]) {
      assert PhaseInv(s, s.callers[u]);
    }
  }

  /** Once the row is settled every caller's expectation of it holds. */
  lemma SettledInv(s: Sys, key: KeyState, t: nat, p: Phase)
    requires Inv(s) && key.row.Settled? && !p.WillTakeOver? && !p.Timed? && !p.WillInsert? && !p.SawPending?
    requires Holding(p) ==> Holding(At(s, t))
    ensures Inv(Move(s.(key := key), t, p))
    ensures Inv(s.(key := key))
  {
    forall u: nat | u in s.callers ensures PhaseInv(s.(key := key), s.callers[u]) { assert PhaseInv(s, s.callers[u]); }
    MoveInv(s.(key := key), t, p);
  }

  lemma SettlingInv(s: Sys, t: nat, doubt: bool, done: Phase, refused: Phase)
    requires Inv(s) && !At(s, t).Idle?
    requires !done.WillTakeOver? && !done.Timed? && !done.WillInsert? && !done.SawPending? && !refused.WillTakeOver?
    requires (Holding(done) || Holding(refused)) ==> Holding(At(s, t))
    requires PhaseInv(s, refused)
    ensures Inv(Settling(s, t, doubt, done, refused))
  {
    hide Inv, PhaseInv;
    var (key, ok) := SettleSection(s.key, At(s, t).finger, doubt);
    if ok {
      SettledInv(s, key, t, done);
    } else {
      MoveInv(s, t, refused);
    }
  }

  lemma MarkInv(s: Sys, t: nat, writes: bool)
    requires Inv(s) && Enabled(s, Mark(t, writes))
    ensures Inv(Apply(s, Mark(t, writes)))
  {
    var (finger, holds) := (At(s, t).finger, At(s, t).Owner?);
    assert PhaseInv(s, At(s, t));
    if writes {
      SettlingInv(s, t, true, Doubting(finger, true, holds), Doubting(finger, false, holds));
    } else {
      MoveInv(s, t, Doubting(finger, false, holds));
    }
  }

  /** The holder's own steps: nobody else depends on the flight. */
  lemma HolderInv(s: Sys, key: KeyState, t: nat, p: Phase)
    requires Inv(s) && Holding(At(s, t)) && PhaseInv(s.(key := key), p) && !p.WillTakeOver?
    requires s.key.row.Settled? ==> key.row.Settled?
    ensures Inv(Move(s.(key := key), t, p))
  {
    var s' := Move(s.(key := key), t, p);
    forall u: nat | u in s'.callers ensures PhaseInv(s', s'.callers[u]) {
      if u != t { assert PhaseInv(s, s.callers[u]); }
    }
  }

  lemma ReleaseInv(s: Sys, t: nat)
    requires Inv(s) && Enabled(s, Release(t))
    ensures Inv(Apply(s, Release(t)))
  {
    assert PhaseInv(s, At(s, t));
    if At(s, t).Repairing? {
      SettledInv(s, ReleaseSection(s.key), t, Idle);
    } else {
      HolderInv(s, ReleaseSection(s.key), t, Idle);
    }
  }

  lemma ForeignDeleteInv(s: Sys)
    requires Inv(s) && Enabled(s, ForeignDelete) && Calm(s, ForeignDelete)
    ensures Inv(Apply(s, ForeignDelete))
  {
    var s' := Apply(s, ForeignDelete);
    forall u: nat | u in s'.callers ensures PhaseInv(s', s'.callers[u]) { assert PhaseInv(s, s.callers[u]); }
  }

  lemma ForeignInsertInv(s: Sys, finger: Fingerprint, stamp: int)
    requires Inv(s) && Enabled(s, ForeignInsert(finger, stamp)) && Calm(s, ForeignInsert(finger, stamp))
    ensures Inv(Apply(s, ForeignInsert(finger, stamp)))
  {
    var s' := Apply(s, ForeignInsert(finger, stamp));
    forall u: nat | u in s'.callers ensures PhaseInv(s', s'.callers[u]) { assert PhaseInv(s, s.callers[u]); }
  }

  /** Every calm step keeps the invariant. */
  lemma CalmStepKeepsInv(s: Sys, e: Event)
    requires Inv(s) && Enabled(s, e) && Calm(s, e)
    ensures Inv(Apply(s, e))
  {
    hide Inv, OneHolder, Secure, Unthreatened;
    match e
    case Tick(span) => TickInv(s, span);
    case Start(t, finger) => StartInv(s, t, finger);
    case ReadClock(t) => MoveInv(s, t, Timed(At(s, t).finger, s.clock, false));
    case ReadKey(t) => ReadKeyInv(s, t);
    case Insert(t) => InsertInv(s, t);
    case CheckFlight(t) => CheckFlightInv(s, t);
    case TakeOver(t) => TakeOverInv(s, t);
    case Refresh(t) =>
      if s.key.row.Pending? { StampInv(s, s.clock); }
      assert RefreshSection(s.key, At(s, t).finger, s.clock) != s.key ==> s.key.row.Pending?;
    case Complete(t, doubt) => PhaseOf(s, t); SettlingInv(s, t, doubt, Completing(At(s, t).finger), At(s, t));
    case Abandon(t) =>
      var (key, ok) := DeleteSection(s.key, At(s, t).finger);
      if ok { AbandonInv(s, t); } else { MoveInv(s, t, Idle); }
    case Mark(t, writes) => MarkInv(s, t, writes);
    case FinishMarked(t) => FinishMarkedInv(s, t);
    case Defer(t) => DeferInv(s, t);
    case Release(t) => ReleaseInv(s, t);
    case Leave(t) => MoveInv(s, t, Idle);
    case Repair(t, doubt) => PhaseOf(s, t); SettlingInv(s, t, doubt, Repairing(At(s, t).finger), At(s, t));
    case GiveUp(t) => MoveInv(s, t, Idle);
    case ForeignInsert(finger, stamp) => ForeignInsertInv(s, finger, stamp);
    case ForeignTouch(stamp) => StampInv(s, stamp);
    case ForeignSettle(doubt) => SettledInv(s, Apply(s, e).key, 0, Idle);
    case ForeignDelete => ForeignDeleteInv(s);
    case Purge => PurgeInv(s);
    case Crash => CrashInv(s);
  }

  lemma PhaseOf(s: Sys, t: nat)
    requires Inv(s)
    ensures PhaseInv(s, At(s, t))
  {
  }

  lemma ReadKeyInv(s: Sys, t: nat)
    requires Inv(s) && Enabled(s, ReadKey(t))
    ensures Inv(Apply(s, ReadKey(t)))
  {
    var p := At(s, t);
    assert PhaseInv(s, p);
    match ReadRow(s.key.row, p.finger)
    case NoRow => MoveInv(s, t, if p.retry then Idle else WillInsert(p.finger, p.now));
    case SeesPending(updated) => MoveInv(s, t, SawPending(p.finger, p.now, updated));
    case InDoubt => MoveInv(s, t, SawDoubt(p.finger));
    case _ => MoveInv(s, t, Idle);
  }

  lemma AbandonInv(s: Sys, t: nat)
    requires Inv(s) && Enabled(s, Abandon(t)) && DeleteSection(s.key, At(s, t).finger).1
    ensures Inv(Apply(s, Abandon(t)))
  {
    HolderInv(s, DeleteSection(s.key, At(s, t).finger).0, t, Abandoning(At(s, t).finger));
  }

  lemma FinishMarkedInv(s: Sys, t: nat)
    requires Inv(s) && Enabled(s, FinishMarked(t))
    ensures Inv(Apply(s, FinishMarked(t)))
  {
    var p := At(s, t);
    assert PhaseInv(s, p);
    if p.marked {
      SettledInv(s, ReleaseSection(s.key), t, LastWords(p.finger, p.holds));
    } else {
      MoveInv(s, t, LastWords(p.finger, p.holds));
    }
  }

  /** With nobody holding the key, the flight and the tombstone are free to change. */
  lemma NobodyHoldsInv(s: Sys, key: KeyState)
    requires Inv(s) && key.row == s.key.row && forall u: nat | u in s.callers :: !Holding(s.callers[u])
    ensures Inv(s.(key := key))
  {
    var s' := s.(key := key);
    forall u: nat | u in s'.callers ensures PhaseInv(s', s'.callers[u]) { assert PhaseInv(s, s.callers[u]); }
  }

  /** What the history says of the past matters to no invariant. */
  lemma HistoryInv(s: Sys, doubted: bool, late: set<nat>)
    requires Inv(s)
    ensures Inv(s.(doubted := doubted, late := late))
  {
    var s' := s.(doubted := doubted, late := late);
    forall u: nat | u in s'.callers ensures PhaseInv(s', s'.callers[u]) { assert PhaseInv(s, s.callers[u]); }
  }

  lemma DeferInv(s: Sys, t: nat)
    requires Inv(s) && Enabled(s, Defer(t)) && Calm(s, Defer(t))
    ensures Inv(Apply(s, Defer(t)))
  {
    var p := At(s, t);
    var key := DeferredSection(s.key, p.finger);
    if p.holds {
      HolderInv(s, key, t, Idle);
    } else if key == s.key {
      MoveInv(s, t, Idle);
    } else if s.key.row.Settled? {
      SettledInv(s, key, t, Idle);
    } else {
      NobodyHoldsInv(s, key);
      MoveInv(s.(key := key), t, Idle);
    }
    HistoryInv(Move(s.(key := key), t, Idle), s.doubted || p.holds, s.late);
  }

  lemma PurgeInv(s: Sys)
    requires Inv(s) && Enabled(s, Purge) && Calm(s, Purge)
    ensures Inv(Apply(s, Purge))
  {
    var s' := s.(key := s.key.(row := Absent));
    forall u: nat | u in s'.callers ensures PhaseInv(s', s'.callers[u]) { assert PhaseInv(s, s.callers[u]); }
    HistoryInv(s', false, {});
  }

  lemma CrashInv(s: Sys)
    ensures Inv(Apply(s, Crash))
  {
  }
}

/**
 The idempotency store as an object: rows in the database, flights and
 tombstones in memory.  Every method is one atomic section on one key, except
 `Claim`, which runs its sections without interruption.
 */
module IdempotencyStore {
  import opened OperationCore
  import opened IdempotencyCore

  datatype ClaimKind = ClaimOwner | ClaimReplay | ClaimWait | ClaimPending | ClaimInDoubt | ClaimConflict | ClaimError

  class Store {
    var rows: map<string, Row>
    var flights: map<string, Fingerprint>
    var uncertain: map<string, Fingerprint>

    constructor ()
      ensures rows == map[] && flights == map[] && uncertain == map[]
    {
      rows, flights, uncertain := map[], map[], map[];
    }

    /** The state of one key. */
    function View(key: string): KeyState
      reads this
    {
      KeyState(if key in rows then rows[key] else Absent,
               if key in flights then Some(flights[key]) else None,
               if key in uncertain then Some(uncertain[key]) else None)
    }

    /** Every other key is as it was. */
    twostate predicate Only(key: string)
      reads this
    {
      forall other | other != key :: View(other) == old(View(other))
    }

    method FirstCheck(key: string, finger: Fingerprint) returns (gate: Gate)
      ensures gate == FirstSection(View(key), finger)
      ensures gate == Waits <==> View(key).flight == Some(finger)
      ensures gate == Doubtful <==> View(key).flight == None && View(key).tombstone == Some(finger)
      ensures gate == Proceeds <==> View(key).flight == View(key).tombstone == None
    {
      if key in flights {
        if flights[key] != finger {
          return Conflicts;
        }
        return Waits;
      }
      if key in uncertain {
        if uncertain[key] != finger {
          return Conflicts;
        }
        return Doubtful;
      }
      return Proceeds;
    }

    /** The look for a local owner before a lease takeover. */
    method SecondCheck(key: string, finger: Fingerprint) returns (waits: bool)
      ensures waits == (View(key).flight == Some(finger))
    {
      waits := key in flights && flights[key] == finger;
    }

    method Get(key: string) returns (row: Row)
      ensures row == View(key).row
    {
      row := if key in rows then rows[key] else Absent;
    }

    method Insert(key: string, finger: Fingerprint, now: int) returns (inserted: bool)
      modifies this
      ensures inserted <==> old(View(key)).row.Absent?
      ensures var k := old(View(key));
        View(key) == if inserted then KeyState(Pending(finger, now), Some(finger), k.tombstone) else k
      ensures (View(key), inserted) == InsertSection(old(View(key)), finger, now) && Only(key)
    {
      inserted := !(key in rows && !rows[key].Absent?);
      if inserted {
        rows := rows[key := Pending(finger, now)];
        flights := flights[key := finger];
      }
    }

    method TakeOver(key: string, finger: Fingerprint, now: int, updated: int) returns (taken: bool)
      modifies this
      ensures taken <==> old(View(key)).row == Pending(finger, updated)
      ensures var k := old(View(key));
        View(key) == if taken then KeyState(Pending(finger, now), Some(finger), k.tombstone) else k
      ensures (View(key), taken) == TakeOverSection(old(View(key)), finger, now, updated) && Only(key)
    {
      taken := key in rows && rows[key] == Pending(finger, updated);
      if taken {
        rows := rows[key := Pending(finger, now)];
        flights := flights[key := finger];
      }
    }

    method Settle(key: string, finger: Fingerprint, doubt: bool) returns (settled: bool)
      modifies this`rows
      ensures settled <==> !old(View(key)).row.Absent? && old(View(key)).row.finger == finger
      ensures View(key) == if settled then old(View(key)).(row := Settled(finger, doubt)) else old(View(key))
      ensures (View(key), settled) == SettleSection(old(View(key)), finger, doubt) && Only(key)
    {
      settled := key in rows && !rows[key].Absent? && rows[key].finger == finger;
      if settled {
        rows := rows[key := Settled(finger, doubt)];
      }
    }

    method UpdatePending(key: string, finger: Fingerprint, now: int)
      modifies this`rows
      ensures var k := old(View(key));
        View(key) == if k.row.Pending? && k.row.finger == finger then k.(row := Pending(finger, now)) else k
      ensures View(key) == RefreshSection(old(View(key)), finger, now) && Only(key)
    {
      if key in rows && rows[key].Pending? && rows[key].finger == finger {
        rows := rows[key := Pending(finger, now)];
      }
    }

    method DeletePending(key: string, finger: Fingerprint) returns (deleted: bool)
      modifies this`rows
      ensures deleted <==> old(View(key)).row.Pending? && old(View(key)).row.finger == finger
      ensures View(key) == if deleted then old(View(key)).(row := Absent) else old(View(key))
      ensures (View(key), deleted) == DeleteSection(old(View(key)), finger) && Only(key)
    {
      deleted := key in rows && rows[key].Pending? && rows[key].finger == finger;
      if deleted {
        rows := rows - {key};
      }
    }

    method FinishFlight(key: string)
      modifies this`flights
      ensures View(key) == ReleaseSection(old(View(key))) && Only(key)
      ensures View(key) == old(View(key)).(flight := None)
    {
      flights := flights - {key};
    }

    method Deferred(key: string, finger: Fingerprint)
      modifies this`flights, this`uncertain
      ensures View(key) == DeferredSection(old(View(key)), finger) && Only(key)
      ensures var k := old(View(key));
        View(key) == if k.flight == Some(finger) then KeyState(k.row, None, Some(finger)) else k
    {
      if key in flights && flights[key] == finger {
        uncertain := uncertain[key := finger];
        flights := flights - {key};
      }
    }

    /** `Complete`, run without interruption. */
    method Complete(key: string, finger: Fingerprint, doubt: bool) returns (completed: bool)
      modifies this
      ensures Only(key)
      ensures completed <==> !old(View(key)).row.Absent? && old(View(key)).row.finger == finger
      ensures completed ==> View(key).row == Settled(finger, doubt) && View(key).flight == None
      ensures completed ==> View(key).tombstone == old(View(key)).tombstone
      ensures !completed ==> View(key) == old(View(key))
    {
      completed := Settle(key, finger, doubt);
      if completed {
        FinishFlight(key);
      }
    }

    /** `Abandon`, run without interruption: only a deletion releases the flight. */
    method Abandon(key: string, finger: Fingerprint)
      modifies this
      ensures Only(key)
      ensures var k := old(View(key));
        View(key) == if k.row.Pending? && k.row.finger == finger then KeyState(Absent, None, k.tombstone) else k
    {
      var deleted := DeletePending(key, finger);
      if deleted {
        FinishFlight(key);
      }
    }

    /** `MarkInDoubt`, run without interruption, with a database that may refuse the write. */
    method MarkInDoubt(key: string, finger: Fingerprint, writes: bool)
      modifies this
      ensures Only(key)
      ensures old(View(key)).flight == Some(finger) ==>
        View(key).flight == None && (View(key).row.Settled? || View(key).tombstone == Some(finger))
      ensures var wrote := writes && !old(View(key)).row.Absent? && old(View(key)).row.finger == finger;
        && View(key).row == (if wrote then Settled(finger, true) else old(View(key)).row)
        && (wrote ==> View(key).flight == None && View(key).tombstone == old(View(key)).tombstone)
        && (!wrote && old(View(key)).flight != Some(finger) ==> View(key) == old(View(key)))
    {
      var marked := false;
      if writes {
        marked := Settle(key, finger, true);
      }
      if marked {
        FinishFlight(key);
      }
      Deferred(key, finger);
    }

    /** The whole of `Claim`, run without interruption at one moment. */
    method Claim(key: string, finger: Fingerprint, now: int) returns (kind: ClaimKind)
      modifies this
      ensures Only(key)
      ensures kind == ClaimOwner <==>
        var k := old(View(key));
        && k.flight == None && k.tombstone == None
        && (k.row == Absent || (k.row.Pending? && k.row.finger == finger && now - k.row.updated >= LEASE))
      ensures kind == ClaimOwner ==>
        View(key) == KeyState(Pending(finger, now), Some(finger), old(View(key)).tombstone)
      ensures kind != ClaimOwner ==> View(key) == old(View(key))
      ensures kind == ClaimWait <==> old(View(key)).flight == Some(finger)
      ensures kind == ClaimConflict <==>
        var k := old(View(key));
        if k.flight.Some? then k.flight != Some(finger)
        else (k.tombstone.Some? && k.tombstone != Some(finger)) || (!k.row.Absent? && k.row.finger != finger)
      ensures kind == ClaimPending <==>
        var k := old(View(key));
        && k.flight == None && k.tombstone == None
        && k.row.Pending? && k.row.finger == finger && now - k.row.updated < LEASE
      ensures kind == ClaimReplay <==>
        var k := old(View(key));
        && k.flight == None && (k.tombstone == None || k.tombstone == Some(finger))
        && k.row.Settled? && !k.row.doubt && k.row.finger == finger
      ensures kind == ClaimInDoubt <==>
        var k := old(View(key));
        && k.flight == None && !k.row.Absent? && k.row.finger == finger
        && (if k.row.Settled? then k.row.doubt && (k.tombstone == None || k.tombstone == Some(finger))
            else k.tombstone == Some(finger))
      ensures kind == ClaimError <==>
        var k := old(View(key));
        k.flight == None && k.tombstone == Some(finger) && k.row.Absent?
    {
      var gate := FirstCheck(key, finger);
      match gate
      case Conflicts => return ClaimConflict;
      case Waits => return ClaimWait;
      case Doubtful =>
        var row := Get(key);
        if row.Absent? { return ClaimError; }
        if row.finger != finger { return ClaimConflict; }
        if row.Settled? && !row.doubt { return ClaimReplay; }
        return ClaimInDoubt;
      case Proceeds =>
        var row := Get(key);
        if row.Absent? {
          var inserted := Insert(key, finger, now);
          assert inserted;
          return ClaimOwner;
        }
        if row.finger != finger { return ClaimConflict; }
        if row.Settled? { return if row.doubt then ClaimInDoubt else ClaimReplay; }
        var waits := SecondCheck(key, finger);
        if waits { return ClaimWait; }
        if now - row.updated >= LEASE {
          var taken := TakeOver(key, finger, now, row.updated);
          assert taken;
          return ClaimOwner;
        }
        return ClaimPending;
    }
  }
}

/**
 What an observer receives over whole runs, and two runs that show why no event may
 be sent past a lost one, and why backlogs must be short.
 */
module ObserverGuarantees {
  import opened OperationCore
  import opened ObservationCore
  import opened ObserverDelivery

  datatype Run = Run(states: seq<Sys>, steps: seq<Step>)

  predicate StepAt(r: Run, i: nat)
    requires |r.states| == |r.steps| + 1 && i < |r.steps|
  {
    Enabled(r.states[i], r.steps[i]) && r.states[i + 1] == Apply(r.states[i], r.steps[i])
  }

  predicate Valid(r: Run) {
    && |r.states| == |r.steps| + 1 && Starts(r.states[0])
    && forall i: nat | i < |r.steps| :: StepAt(r, i)
  }

  predicate QuietAt(r: Run, i: nat)
    requires Valid(r) && i < |r.steps|
  {
    StepAt(r, i) && Quiet(r.states[i], r.steps[i])
  }

  predicate QuietRun(r: Run) { Valid(r) && forall i: nat | i < |r.steps| :: QuietAt(r, i) }

  /** The workspace and the starting number never change. */
  lemma {:induction false} SameObserver(r: Run, i: nat)
    requires Valid(r) && i < |r.states|
    ensures r.states[i].workspace == r.states[0].workspace && r.states[i].init == r.states[0].init
  {
    if i > 0 {
      SameObserver(r, i - 1);
      assert StepAt(r, i - 1);
      SameObserverStep(r.states[i - 1], r.steps[i - 1]);
    }
  }

  lemma SameObserverStep(s: Sys, step: Step)
    requires Enabled(s, step)
    ensures Apply(s, step).workspace == s.workspace && Apply(s, step).init == s.init
  {
  }

  lemma {:induction false} QuietRunKeepsInv(r: Run, i: nat)
    requires QuietRun(r) && i < |r.states|
    ensures Inv(r.states[i])
  {
    hide Inv, Enabled, Apply, Quiet;
    if i == 0 {
      StartsInv(r.states[0]);
    } else {
      QuietRunKeepsInv(r, i - 1);
      assert QuietAt(r, i - 1);
      QuietStepKeepsInv(r.states[i - 1], r.steps[i - 1]);
    }
  }

  /**
   In a quiet run, whatever connections were lost in between, the client has
   received exactly the workspace's events above its starting number and up to its
   present one, each once and in rising order.
   */
  lemma ReceivedWithoutGapOrRepeat(r: Run, i: nat)
    requires QuietRun(r) && i < |r.states|
    ensures var s := r.states[i];
      && s.received == Between(s.db, s.workspace, s.init, s.last)
      && (forall j, k | 0 <= j < k < |s.received| :: s.received[j].number < s.received[k].number)
      && (forall e :: e in s.received <==> e in s.db && e.workspace == s.workspace && s.init < e.number <= s.last)
  {
    hide Between;
    QuietRunKeepsInv(r, i);
    var s := r.states[i];
    BetweenRises(s.db, s.workspace, s.init, s.last);
    forall e ensures e in s.received <==> e in s.db && e.workspace == s.workspace && s.init < e.number <= s.last {
      BetweenMembers(s.db, s.workspace, s.init, s.last, e);
    }
  }

  /** A live connection with nothing left to publish, buffer or read, and no gap to tell. */
  predicate Drained(s: Sys) {
    && s.published == |s.db| && s.conn.Some? && s.conn.value.phase.Live?
    && s.conn.value.sub.events == [] && s.conn.value.sub.gap == None && s.conn.value.wire == []
  }

  /** Once everything is drained, every stored event above the starting number has been received. */
  lemma DrainedMeansComplete(r: Run, i: nat)
    requires QuietRun(r) && i < |r.states| && Drained(r.states[i])
    ensures var s := r.states[i]; s.received == Newer(s.db, s.workspace, s.init)
  {
    hide Between;
    QuietRunKeepsInv(r, i);
    var s := r.states[i];
    var c := s.conn.value;
    assert s.db[..|s.db|] == s.db;
    if s.init >= Top(s.db) {
      NothingBeyondTop(s.db, s.workspace, s.init, s.last);
      EmptyRange(s.db, s.workspace, s.init, Top(s.db));
    } else {
      NothingLeftToSend(s.db, s.workspace, c);
      BetweenSplits(s.db, s.workspace, s.last, c.sent, Top(s.db));
      BetweenSplits(s.db, s.workspace, s.init, s.last, Top(s.db));
    }
  }

  lemma NothingLeftToSend(db: seq<Event>, workspace: string, c: Conn)
    requires Rising(db) && BufferInv(db, workspace, c) && c.open && c.sub.events == [] && c.sub.gap == None
    requires Between(db, workspace, c.sent, c.mark) == []
    ensures Between(db, workspace, c.sent, Top(db)) == []
  {
    hide Between;
    forall i | 0 <= i < |db| && db[i].workspace == workspace ensures !(c.sent < db[i].number <= Top(db)) {
      BetweenMembers(db, workspace, c.sent, c.mark, db[i]);
      assert db[i] in db;
    }
    NoneInRange(db, workspace, c.sent, Top(db));
  }

  // -------------------------------------------------------------- counterexamples

  function Last(r: Run): Sys
    requires Valid(r)
  {
    r.states[|r.states| - 1]
  }

  lemma Begin(s: Sys) returns (r: Run)
    requires Starts(s)
    ensures Valid(r) && Last(r) == s
  {
    r := Run([s], []);
  }

  lemma Then(r: Run, step: Step) returns (r': Run)
    requires Valid(r) && Enabled(Last(r), step)
    ensures Valid(r') && Last(r') == Apply(Last(r), step)
  {
    hide Enabled, Apply;
    r' := Run(r.states + [Apply(Last(r), step)], r.steps + [step]);
    forall i: nat | i < |r'.steps| ensures StepAt(r', i) {
      if i < |r.steps| { assert StepAt(r, i); }
    }
  }

  function E(number: int): Event { Event(number, "w") }

  /** An event of the workspace below the client's number that has not arrived, with the connection drained. */
  predicate Missed(s: Sys, number: int) {
    Drained(s) && E(number) in s.db && s.init < number < s.last && E(number) !in s.received
  }

  /** A client of "w" with room for one buffered event and one event of history. */
  function Small(db: seq<Event>, published: nat, init: int, last: int, received: seq<Event>, conn: Option<Conn>): Sys {
    Sys(db, published, "w", init, 1, 1, last, received, conn)
  }

  function LiveConn(sent: int, events: seq<Event>, gap: Option<Gap>, mark: int, wire: seq<Frame>, lost: set<int>): Conn {
    Conn(Live, sent, Subscriber("w", 1, events, gap), mark, wire, true, lost)
  }

  lemma RisingSnoc(db: seq<Event>, e: Event)
    requires Rising(db) && e.number > Top(db) && e.number > 0
    ensures Rising(db + [e])
  {
    var grown := db + [e];
    forall i, j | 0 <= i < j < |grown| ensures grown[i].number < grown[j].number {
      assert grown[i] == db[i] && (j < |db| ==> grown[j] == db[j]);
      assert i < |db| - 1 ==> db[i].number < db[|db| - 1].number;
    }
  }

  lemma RisingFour()
    ensures Rising([E(1)]) && Rising([E(1), E(2)]) && Rising([E(1), E(2), E(3)])
    ensures Rising([E(1)] + [E(2)]) && Rising([E(1), E(2)] + [E(3)]) && Rising([E(1), E(2), E(3)] + [E(4)])
    ensures [E(1)] + [E(2)] == [E(1), E(2)] && [E(1), E(2)] + [E(3)] == [E(1), E(2), E(3)]
    ensures [E(1), E(2), E(3)] + [E(4)] == [E(1), E(2), E(3), E(4)]
  {
    assert [E(1)] + [E(2)] == [E(1), E(2)] && [E(1), E(2)] + [E(3)] == [E(1), E(2), E(3)];
    assert Rising([E(1)]);
    hide Rising;
    RisingSnoc([E(1)], E(2));
    RisingSnoc([E(1), E(2)], E(3));
    RisingSnoc([E(1), E(2), E(3)], E(4));
  }

  /** The client resumes from 1 and is live on a store that holds nothing newer. */
  lemma ResumesLive() returns (r: Run)
    ensures Valid(r) && Last(r) == Small([E(1)], 1, 1, 1, [], Some(LiveConn(1, [], None, 1, [Hello], {})))
  {
    hide Valid, Between;
    RisingFour();
    var db := [E(1)];
    r := Begin(Small(db, 1, 1, 1, [], None));
    assert db[..1] == db;
    r := Then(r, Connect);
    NothingBeyondTop(db, "w", 1, 1);
    r := Then(r, Snapshot);
    assert Last(r).conn.value.phase == Replaying([], 1);
    r := Then(r, Replay);
  }

  /** Two events arrive before the first is taken: the second is only a gap. */
  lemma SecondOverflows() returns (r: Run)
    ensures Valid(r)
    ensures Last(r) == Small([E(1), E(2), E(3)], 3, 1, 1, [], Some(LiveConn(1, [E(2)], Some(Gap(3, 3)), 1, [Hello], {3})))
  {
    hide Valid, Between;
    RisingFour();
    r := ResumesLive();
    r := Then(r, Store(E(2)));
    r := Then(r, Store(E(3)));
    r := Then(r, Publish);
    assert Last(r).conn.value.sub.events == [E(2)];
    r := Then(r, Publish);
    assert {} + {3} == {3};
  }

  /** A later event is sent before the gap is looked at. */
  lemma LaterEventWins() returns (r: Run)
    ensures Valid(r)
    ensures Last(r) == Small([E(1), E(2), E(3), E(4)], 4, 1, 1, [],
      Some(LiveConn(4, [], Some(Gap(3, 3)), 4, [Hello, EventFrame(E(2)), EventFrame(E(4))], {3})))
  {
    hide Valid, Between;
    RisingFour();
    r := SecondOverflows();
    r := Then(r, TakeEvent);
    assert Last(r).conn.value == LiveConn(2, [], Some(Gap(3, 3)), 2, [Hello, EventFrame(E(2))], {3});
    r := Then(r, Store(E(4)));
    r := Then(r, Publish);
    assert Last(r).conn.value == LiveConn(2, [E(4)], Some(Gap(3, 3)), 2, [Hello, EventFrame(E(2))], {3});
    r := Then(r, TakeEvent);
    assert Last(r).conn.value == LiveConn(4, [], Some(Gap(3, 3)), 4, [Hello, EventFrame(E(2)), EventFrame(E(4))], {3});
  }

  /** The client reads the three frames it was sent. */
  lemma ReadsThree(r: Run, db: seq<Event>, gap: Option<Gap>, lost: set<int>) returns (r': Run)
    requires Valid(r)
    requires Last(r) == Small(db, 4, 1, 1, [],
      Some(LiveConn(4, [], gap, 4, [Hello, EventFrame(E(2)), EventFrame(E(4))], lost)))
    ensures Valid(r') && Last(r') == Small(db, 4, 1, 4, [E(2), E(4)], Some(LiveConn(4, [], gap, 4, [], lost)))
  {
    hide Valid;
    r' := Then(r, Deliver);
    assert Last(r').conn.value.wire == [EventFrame(E(2)), EventFrame(E(4))];
    r' := Then(r', Deliver);
    assert Last(r').conn.value.wire == [EventFrame(E(4))] && Last(r').received == [E(2)];
    r' := Then(r', Deliver);
    assert Last(r').conn.value.wire == [] && Last(r').received == [E(2), E(4)];
  }

  /**
   After an overflow a later event can be sent first; the gap then looks old and is
   ignored, and event 3 is never delivered.
   */
  lemma OverflowLosesAnEvent() returns (r: Run)
    ensures Valid(r) && Missed(Last(r), 3)
  {
    hide Valid;
    r := LaterEventWins();
    r := Then(r, TakeGap);
    r := ReadsThree(r, [E(1), E(2), E(3), E(4)], None, {3});
  }

  /** The client resumes from 1 with two newer events stored, and history holds one. */
  lemma HistoryIsCut() returns (r: Run)
    ensures Valid(r)
    ensures Last(r) == Small([E(1), E(2), E(3)], 3, 1, 1, [], Some(LiveConn(2, [], None, 3, [Hello, EventFrame(E(2))], {})))
  {
    hide Valid, History;
    RisingFour();
    var db := [E(1), E(2), E(3)];
    assert db[..3] == db && db[..2] == [E(1), E(2)] && [E(1), E(2)][..1] == [E(1)] && [E(1)][..0] == [];
    r := Begin(Small(db, 3, 1, 1, [], None));
    r := Then(r, Connect);
    BacklogOfTwo();
    r := Then(r, Snapshot);
    assert Last(r).conn.value.phase == Replaying([E(2)], 3);
    r := Then(r, Replay);
    assert Last(r).conn.value.phase == Replaying([], 3);
    assert Last(r).conn.value.wire == [Hello, EventFrame(E(2))];
    r := Then(r, Replay);
    assert Last(r).conn.value == LiveConn(2, [], None, 3, [Hello, EventFrame(E(2))], {});
  }

  lemma BacklogOfTwo()
    ensures History([E(1), E(2), E(3)], "w", 1, 1) == [E(2)]
  {
    var db := [E(1), E(2), E(3)];
    assert db[..2] == [E(1), E(2)] && [E(1), E(2)][..1] == [E(1)] && [E(1)][..0] == [];
    assert Between([E(1)], "w", 1, 3) == [];
    assert Between([E(1), E(2)], "w", 1, 3) == [E(2)];
    assert Between(db, "w", 1, 3) == [E(2), E(3)];
  }

  /** A backlog longer than the history limit loses event 3 as soon as a later event is sent. */
  lemma LongBacklogLosesAnEvent() returns (r: Run)
    ensures Valid(r) && Missed(Last(r), 3)
  {
    hide Valid;
    RisingFour();
    r := HistoryIsCut();
    r := Then(r, Store(E(4)));
    r := Then(r, Publish);
    assert Last(r).conn.value == LiveConn(2, [E(4)], None, 3, [Hello, EventFrame(E(2))], {});
    r := Then(r, TakeEvent);
    assert Last(r).conn.value == LiveConn(4, [], None, 4, [Hello, EventFrame(E(2)), EventFrame(E(4))], {});
    r := ReadsThree(r, [E(1), E(2), E(3), E(4)], None, {});
  }
}

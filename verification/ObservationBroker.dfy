/**
 The broker object and the loops of the observer socket, store and client.
 */
module ObservationBroker {
  import opened OperationCore
  import opened ObservationCore

  class Broker {
    var nextId: nat
    var closed: bool
    var subscribers: map<nat, Subscriber>

    constructor ()
      ensures Valid() && subscribers == map[] && !closed
    {
      nextId, closed, subscribers := 0, false, map[];
    }

    /** Ids are handed out in order, and a closed broker has no subscribers. */
    ghost predicate Valid()
      reads this
    {
      && (forall id | id in subscribers :: id <= nextId)
      && (closed ==> subscribers == map[])
    }

    method Subscribe(workspace: string, buffer: int) returns (id: nat)
      requires Valid()
      modifies this
      ensures Valid() && closed == old(closed)
      ensures closed ==> subscribers == old(subscribers)
      ensures !closed ==> id !in old(subscribers)
      ensures !closed ==> subscribers == old(subscribers)[
        id := Subscriber(workspace, if buffer <= 0 then 128 else buffer, [], None)]
    {
      var capacity := if buffer <= 0 then DEFAULT_BUFFER else buffer;
      if closed {
        return 0;
      }
      nextId := nextId + 1;
      id := nextId;
      subscribers := subscribers[id := Subscriber(workspace, capacity, [], None)];
    }

    /** Every subscriber of the workspace gets the event, or a gap in its place. */
    method Publish(event: Event)
      requires Valid()
      modifies this`subscribers
      ensures Valid()
      ensures closed ==> subscribers == old(subscribers)
      ensures !closed ==> subscribers == map id | id in old(subscribers) :: Offered(old(subscribers)[id], event)
      ensures !closed ==> forall id | id in old(subscribers) ::
        var (was, now) := (old(subscribers)[id], subscribers[id]);
        && now.workspace == was.workspace && now.capacity == was.capacity
        && (was.workspace != event.workspace ==> now == was)
        && (was.workspace == event.workspace && |was.events| < was.capacity ==>
              now.events == was.events + [event] && now.gap == was.gap)
        && (was.workspace == event.workspace && |was.events| >= was.capacity ==>
              now.events == was.events && now.gap == Some(Gap(event.number, event.number)))
    {
      if closed {
        return;
      }
      var left := subscribers.Keys;
      ghost var before := subscribers;
      while left != {}
        invariant left <= before.Keys && subscribers.Keys == before.Keys
        invariant forall id | id in before :: subscribers[id] == if id in left then before[id] else Offered(before[id], event)
        decreases |left|
      {
        var id :| id in left;
        left := left - {id};
        var sub := subscribers[id];
        if sub.workspace != event.workspace {
          continue;
        }
        if |sub.events| < sub.capacity {
          sub := sub.(events := sub.events + [event]);
        } else {
          sub := sub.(gap := None);
          sub := sub.(gap := Some(Gap(event.number, event.number)));
        }
        subscribers := subscribers[id := sub];
      }
    }

    method Unsubscribe(id: nat)
      requires Valid()
      modifies this`subscribers
      ensures Valid() && subscribers == old(subscribers) - {id}
    {
      if id in subscribers {
        subscribers := subscribers - {id};
      }
    }

    method Close()
      requires Valid()
      modifies this
      ensures Valid() && closed && subscribers == map[]
    {
      if closed {
        return;
      }
      closed := true;
      subscribers := map[];
    }
  }

  lemma ForwardStep(last: int, events: seq<Event>, i: nat)
    requires i < |events|
    ensures var (frames, next) := Forwarded(last, events[i]); var rest := ForwardedAll(next, events[i + 1..]);
      ForwardedAll(last, events[i..]) == (frames + rest.0, rest.1)
  {
    assert events[i..][1..] == events[i + 1..];
  }

  /** The replay loop of the socket. */
  method ReplayHistory(history: seq<Event>, after: int) returns (frames: seq<Frame>, last: int)
    ensures frames == ForwardedAll(after, history).0 && last == ForwardedAll(after, history).1
  {
    frames, last := [], after;
    assert history[0..] == history;
    for i := 0 to |history|
      invariant frames + ForwardedAll(last, history[i..]).0 == ForwardedAll(after, history).0
      invariant ForwardedAll(last, history[i..]).1 == ForwardedAll(after, history).1
    {
      var event := history[i];
      ForwardStep(last, history, i);
      hide ForwardedAll;
      if event.number <= last {
        assert [] + ForwardedAll(last, history[i + 1..]).0 == ForwardedAll(last, history[i + 1..]).0;
        continue;
      }
      var rest := ForwardedAll(event.number, history[i + 1..]).0;
      assert frames + ([EventFrame(event)] + rest) == (frames + [EventFrame(event)]) + rest;
      frames := frames + [EventFrame(event)];
      last := event.number;
    }
    assert frames + [] == frames;
  }

  lemma KeepStep(last: int, frames: seq<Frame>, i: nat)
    requires i < |frames|
    ensures var (kept, next, again) := Kept(last, frames[i]); var rest := KeptAll(next, frames[i + 1..]);
      KeptAll(last, frames[i..]) == if again then (kept, next, true) else (kept + rest.0, rest.1, rest.2)
  {
    assert frames[i..][1..] == frames[i + 1..];
  }

  lemma Regroup<T>(a: seq<T>, b: seq<T>, c: seq<T>)
    ensures a + (b + c) == (a + b) + c && [] + c == c && a + [] == a
  {
  }

  /** One frame: what the callback gets, where the client then stands, whether it reconnects. */
  method ReadFrame(frame: Frame, last0: int) returns (handed: seq<Frame>, last: int, reconnect: bool)
    ensures (handed, last, reconnect) == Kept(last0, frame)
  {
    last, reconnect := last0, false;
    if frame.EventFrame? {
      if frame.event.number <= last {
        return [], last, false;
      }
      return [frame], frame.event.number, false;
    }
    if frame.GapFrame? {
      return [frame], last, true;
    }
    handed := [frame];
  }

  /** The client's read loop on one connection. */
  method ReadConnection(frames: seq<Frame>, after: int) returns (handed: seq<Frame>, last: int, reconnect: bool)
    ensures handed == KeptAll(after, frames).0
    ensures last == KeptAll(after, frames).1 && reconnect == KeptAll(after, frames).2
  {
    handed, last, reconnect := [], after, false;
    assert frames[0..] == frames;
    for i := 0 to |frames|
      invariant !reconnect
      invariant handed + KeptAll(last, frames[i..]).0 == KeptAll(after, frames).0
      invariant KeptAll(last, frames[i..]).1 == KeptAll(after, frames).1
      invariant KeptAll(last, frames[i..]).2 == KeptAll(after, frames).2
    {
      KeepStep(last, frames, i);
      hide KeptAll, Kept;
      var one;
      one, last, reconnect := ReadFrame(frames[i], last);
      Regroup(handed, one, KeptAll(last, frames[i + 1..]).0);
      handed := handed + one;
      if reconnect {
        return;
      }
    }
    assert handed + [] == handed;
  }

  // ------------------------------------------------------- the most recent events

  function Reversed(s: seq<Event>): (r: seq<Event>)
    ensures |r| == |s|
  {
    if s == [] then [] else Reversed(s[1..]) + [s[0]]
  }

  lemma {:induction false} ReversedAt(s: seq<Event>, k: nat)
    requires k < |s|
    ensures Reversed(s)[k] == s[|s| - 1 - k]
  {
    if |s| > 1 { ReversedAt(s[1..], if k < |s| - 1 then k else 0); }
  }

  /** The swap loop that puts a newest-first listing in order. */
  method ReverseInPlace(events: array<Event>)
    modifies events
    ensures events[..] == Reversed(old(events[..]))
  {
    ghost var was := events[..];
    var left, right := 0, events.Length - 1;
    assert Turned(was, events[..], 0);
    while left < right
      invariant 0 <= left <= events.Length && right == events.Length - 1 - left && Turned(was, events[..], left)
    {
      hide Turned;
      ghost var before := events[..];
      events[left], events[right] := events[right], events[left];
      assert events[..] == before[left := before[right]][right := before[left]];
      TurnedMore(was, before, left);
      left, right := left + 1, right - 1;
    }
    TurnedIsReversed(was, events[..], left);
  }

  /** The element at `i` after the outer `n` pairs have changed places. */
  function TurnedAt(was: seq<Event>, n: nat, i: nat): Event
    requires i < |was|
  {
    if n <= i < |was| - n then was[i] else was[|was| - 1 - i]
  }

  /** The first and the last `n` elements have changed places. */
  predicate Turned(was: seq<Event>, now: seq<Event>, n: nat) {
    |now| == |was| && forall i: nat | i < |was| :: now[i] == TurnedAt(was, n, i)
  }

  lemma TurnedMore(was: seq<Event>, now: seq<Event>, n: nat)
    requires Turned(was, now, n) && n < |was| - 1 - n
    ensures var m := |was| - 1 - n; Turned(was, now[n := now[m]][m := now[n]], n + 1)
  {
    var m := |was| - 1 - n;
    var next := now[n := now[m]][m := now[n]];
    assert now[m] == was[m] && now[n] == was[n];
    forall i: nat | i < |was| ensures next[i] == TurnedAt(was, n + 1, i) {
      if i != n && i != m { assert next[i] == now[i] == TurnedAt(was, n, i); }
    }
  }

  lemma TurnedIsReversed(was: seq<Event>, now: seq<Event>, n: nat)
    requires Turned(was, now, n) && |was| - 1 <= 2 * n
    ensures now == Reversed(was)
  {
    forall i: nat | i < |was| ensures now[i] == Reversed(was)[i] {
      ReversedAt(was, i);
      assert now[i] == TurnedAt(was, n, i);
    }
  }

  function LastOf(s: seq<Event>, limit: nat): seq<Event> { if |s| <= limit then s else s[|s| - limit..] }

  lemma LastOfGrows(s: seq<Event>, e: Event, limit: nat)
    requires limit > 0
    ensures LastOf(s + [e], limit) == LastOf(s, limit - 1) + [e]
  {
  }

  /** The newest events of a workspace, newest first, like the descending query. */
  method NewestFirst(db: seq<Event>, workspace: string, limit: nat) returns (events: seq<Event>)
    requires Rising(db)
    ensures Reversed(events) == LastOf(Newer(db, workspace, 0), limit)
  {
    hide Reversed, Listed, LastOf;
    events := [];
    var i := |db|;
    AllOfWorkspace(db, workspace);
    assert db[..|db|] == db;
    NothingTaken(LastOf(Listed(db, workspace), limit));
    while i > 0 && |events| < limit
      invariant 0 <= i <= |db| && |events| <= limit
      invariant LastOf(Listed(db, workspace), limit) == LastOf(Listed(db[..i], workspace), limit - |events|) + Reversed(events)
      decreases i
    {
      i := i - 1;
      ListedStep(db, workspace, i);
      assert Listed(db[..i], workspace) + [] == Listed(db[..i], workspace);
      if db[i].workspace == workspace {
        LastOfGrows(Listed(db[..i], workspace), db[i], limit - |events|);
        ReversedAppend(events, db[i]);
        Regroup(LastOf(Listed(db[..i], workspace), limit - |events| - 1), [db[i]], Reversed(events));
        events := events + [db[i]];
      }
    }
    NothingLeft(Listed(db[..i], workspace), db[..i], workspace, limit - |events|);
    assert [] + Reversed(events) == Reversed(events);
  }

  lemma NothingTaken(s: seq<Event>)
    ensures Reversed([]) == [] && s + [] == s
  {
  }

  lemma NothingLeft(s: seq<Event>, db: seq<Event>, workspace: string, limit: nat)
    requires s == Listed(db, workspace) && (db == [] || limit == 0)
    ensures LastOf(s, limit) == []
  {
  }

  lemma ListedStep(db: seq<Event>, workspace: string, i: nat)
    requires i < |db|
    ensures Listed(db[..i + 1], workspace) == Listed(db[..i], workspace) + if db[i].workspace == workspace then [db[i]] else []
  {
    assert db[..i + 1][..i] == db[..i];
  }

  lemma {:induction false} ReversedAppend(s: seq<Event>, e: Event)
    ensures Reversed(s + [e]) == [e] + Reversed(s)
  {
    if s == [] {
      assert s + [e] == [e] && [e][1..] == [];
    } else {
      assert (s + [e])[1..] == s[1..] + [e];
      ReversedAppend(s[1..], e);
    }
  }

  function Listed(db: seq<Event>, workspace: string): seq<Event> {
    if db == [] then []
    else Listed(db[..|db| - 1], workspace) + if db[|db| - 1].workspace == workspace then [db[|db| - 1]] else []
  }

  lemma {:induction false} AllOfWorkspace(db: seq<Event>, workspace: string)
    requires Rising(db)
    ensures Listed(db, workspace) == Newer(db, workspace, 0)
  {
    if db != [] {
      RisingPrefix(db, |db| - 1);
      AllOfWorkspace(db[..|db| - 1], workspace);
      BetweenOfPrefix(db, |db| - 1, workspace, 0, Top(db[..|db| - 1]));
      RaiseTop(db[..|db| - 1], workspace, 0, Top(db));
    }
  }

  /** Listing beyond the last number lists no more. */
  lemma RaiseTop(db: seq<Event>, workspace: string, low: int, high: int)
    requires Rising(db) && high >= Top(db) && low <= Top(db)
    ensures Between(db, workspace, low, high) == Between(db, workspace, low, Top(db))
  {
    BetweenSplits(db, workspace, low, Top(db), high);
    NothingBeyondTop(db, workspace, Top(db), high);
  }

  /** History of a new observer: the descending query, reversed in place. */
  method RecentHistory(db: seq<Event>, workspace: string, limit: nat) returns (history: seq<Event>)
    requires Rising(db)
    ensures history == History(db, workspace, 0, limit)
  {
    var newest := NewestFirst(db, workspace, limit);
    var events := new Event[|newest|](i requires 0 <= i < |newest| => newest[i]);
    assert events[..] == newest;
    ReverseInPlace(events);
    history := events[..];
  }

  // ------------------------------------------------------------------ the client

  /** Frames that are no events. */
  function Others(frames: seq<Frame>): seq<Frame> {
    if frames == [] then [] else (if frames[0].EventFrame? then [] else [frames[0]]) + Others(frames[1..])
  }

  /** The numbers of the events among some frames. */
  function Numbers(frames: seq<Frame>): seq<int> {
    if frames == [] then [] else (if frames[0].EventFrame? then [frames[0].event.number] else []) + Numbers(frames[1..])
  }

  predicate RisingFrom(low: int, numbers: seq<int>)
    decreases |numbers|
  {
    numbers == [] || (low < numbers[0] && RisingFrom(numbers[0], numbers[1..]))
  }

  lemma FrameFirst(frame: Frame, rest: seq<Frame>)
    ensures Others([frame] + rest) == (if frame.EventFrame? then [] else [frame]) + Others(rest)
    ensures Numbers([frame] + rest) == (if frame.EventFrame? then [frame.event.number] else []) + Numbers(rest)
    ensures [] + rest == rest && [] + Numbers(rest) == Numbers(rest) && [] + Others(rest) == Others(rest)
  {
    assert ([frame] + rest)[1..] == rest;
  }

  /** A gap is among the frames exactly when the client reconnects, and it is the last frame handed on. */
  lemma {:induction false} GapEndsReading(after: int, frames: seq<Frame>)
    ensures var (kept, last, again) := KeptAll(after, frames);
      && (again <==> exists i :: 0 <= i < |frames| && frames[i].GapFrame?)
      && (again ==> kept != [] && kept[|kept| - 1].GapFrame?)
    decreases |frames|
  {
    if frames != [] {
      var (kept, next, again) := Kept(after, frames[0]);
      if !again {
        GapEndsReading(next, frames[1..]);
        assert forall i | 0 < i < |frames| :: frames[i] == frames[1..][i - 1];
      }
    }
  }

  /**
   Of one connection the client hands on every frame that is no event, unless a gap
   ends the reading, and exactly a gap makes it reconnect.
   */
  lemma {:induction false} HandsOnOthers(after: int, frames: seq<Frame>)
    ensures var (kept, last, again) := KeptAll(after, frames);
      && (again <==> exists i :: 0 <= i < |frames| && frames[i].GapFrame?)
      && (!again ==> Others(kept) == Others(frames))
    decreases |frames|
  {
    GapEndsReading(after, frames);
    if frames != [] {
      var (kept, next, again) := Kept(after, frames[0]);
      if !again {
        HandsOnOthers(next, frames[1..]);
        var rest := KeptAll(next, frames[1..]).0;
        FrameFirst(frames[0], rest);
        FrameFirst(frames[0], frames[1..]);
        assert [frames[0]] + frames[1..] == frames;
        assert KeptAll(after, frames).0 == kept + rest;
        assert kept == [frames[0]] || (kept == [] && frames[0].EventFrame?);
      }
    }
    hide Others;
  }

  /** Of the events it hands on a rising list above its position, which moves to the last of them. */
  lemma {:induction false} HandsOnRisingEvents(after: int, frames: seq<Frame>)
    ensures var (kept, last, again) := KeptAll(after, frames);
      RisingFrom(after, Numbers(kept)) && last == LastOr(after, Numbers(kept))
    decreases |frames|
  {
    if frames != [] {
      var (kept, next, again) := Kept(after, frames[0]);
      if !again {
        HandsOnRisingEvents(next, frames[1..]);
        var rest := KeptAll(next, frames[1..]).0;
        FrameFirst(frames[0], rest);
        if kept != [] && frames[0].EventFrame? { LastOrFirst(after, next, Numbers(rest)); }
      }
    }
  }

  function LastOr(low: int, numbers: seq<int>): int { if numbers == [] then low else numbers[|numbers| - 1] }

  lemma LastOrFirst(low: int, n: int, numbers: seq<int>)
    ensures LastOr(low, [n] + numbers) == LastOr(n, numbers)
    ensures low < n && RisingFrom(n, numbers) ==> RisingFrom(low, [n] + numbers)
  {
    assert ([n] + numbers)[1..] == numbers;
  }
}

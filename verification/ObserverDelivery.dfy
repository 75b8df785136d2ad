/**
 Observer delivery as a transition system: events are stored, then published in
 order; one client of one workspace subscribes, replays history, follows the live
 buffer, loses its connection at any time and resumes from its last number.
 */
module ObserverDelivery {
  import opened OperationCore
  import opened ObservationCore

  /** A connection subscribes before it reads history; `upTo` is the newest event the history saw. */
  datatype Phase = Subscribed | Replaying(rest: seq<Event>, upTo: int) | Live

  /**
   `mark`: the newest event that cannot come through the buffer any more; `wire`:
   frames not yet read; `lost`: history, the events that found the buffer full.
   */
  datatype Conn = Conn(phase: Phase, sent: int, sub: Subscriber, mark: int, wire: seq<Frame>, open: bool, lost: set<int>)

  datatype Sys = Sys(
    db: seq<Event>, published: nat, workspace: string,
    init: int, limit: nat, capacity: nat,
    last: int, received: seq<Event>, conn: Option<Conn>)

  datatype Step =
    | Store(event: Event)
    | Publish
    | Connect
    | Snapshot
    | Replay
    | TakeEvent
    | TakeGap
    | Beat
    | Deliver
    | Drop

  predicate Enabled(s: Sys, step: Step) {
    match step
    case Store(e) => Rising(s.db + [e])
    case Publish => s.published < |s.db|
    case Connect => s.conn.None?
    case Snapshot => s.conn.Some? && s.conn.value.phase.Subscribed?
    case Replay => s.conn.Some? && s.conn.value.phase.Replaying?
    case TakeEvent => s.conn.Some? && s.conn.value.open && s.conn.value.phase.Live? && s.conn.value.sub.events != []
    case TakeGap => s.conn.Some? && s.conn.value.open && s.conn.value.phase.Live? && s.conn.value.sub.gap.Some?
    case Beat => s.conn.Some? && s.conn.value.open
    case Deliver => s.conn.Some? && s.conn.value.wire != []
    case Drop => s.conn.Some?
  }

  function WithConn(s: Sys, c: Conn): Sys { s.(conn := Some(c)) }

  /** The broker offers an event to the connection's buffer. */
  function Buffered(c: Conn, e: Event): Conn {
    var full := c.sub.workspace == e.workspace && |c.sub.events| >= c.sub.capacity;
    c.(sub := Offered(c.sub, e), lost := if full then c.lost + {e.number} else c.lost)
  }

  /** Forward one event on a connection. */
  function Sent(c: Conn, e: Event): Conn {
    var (frames, last) := Forwarded(c.sent, e);
    c.(wire := c.wire + frames, sent := last)
  }

  function Replayed(c: Conn): Conn
    requires c.phase.Replaying?
  {
    if c.phase.rest == [] then c.(phase := Live)
    else Sent(c, c.phase.rest[0]).(phase := Replaying(c.phase.rest[1..], c.phase.upTo))
  }

  function Taken(c: Conn): Conn
    requires c.sub.events != []
  {
    var e := c.sub.events[0];
    Sent(c, e).(sub := c.sub.(events := c.sub.events[1..]), mark := e.number)
  }

  /** A gap that later events have already passed is ignored; otherwise it ends the connection. */
  function GapTaken(c: Conn): Conn
    requires c.sub.gap.Some?
  {
    var gap := c.sub.gap.value;
    var sub := c.sub.(gap := None);
    if gap.last <= c.sent then c.(sub := sub) else c.(sub := sub, wire := c.wire + [GapFrame(gap)], open := false)
  }

  /** The client reads one frame. */
  function Delivered(s: Sys): Sys
    requires s.conn.Some? && s.conn.value.wire != []
  {
    var c := s.conn.value;
    var frame := c.wire[0];
    var (kept, last, again) := Kept(s.last, frame);
    var received := if frame.EventFrame? && kept != [] then s.received + [frame.event] else s.received;
    s.(received := received, last := last, conn := if again then None else Some(c.(wire := c.wire[1..])))
  }

  function Apply(s: Sys, step: Step): Sys
    requires Enabled(s, step)
  {
    match step
    case Store(e) => s.(db := s.db + [e])
    case Publish =>
      var s' := s.(published := s.published + 1);
      if s.conn.None? then s'
      else WithConn(s', Buffered(s.conn.value, s.db[s.published]))
    case Connect =>
      var mark := if s.published <= |s.db| then Top(s.db[..s.published]) else 0;
      WithConn(s, Conn(Subscribed, s.last, Subscriber(s.workspace, s.capacity, [], None), mark, [Hello], true, {}))
    case Snapshot =>
      var c := s.conn.value;
      WithConn(s, c.(phase := Replaying(History(s.db, s.workspace, c.sent, s.limit), Top(s.db))))
    case Replay => WithConn(s, Replayed(s.conn.value))
    case TakeEvent => WithConn(s, Taken(s.conn.value))
    case TakeGap => WithConn(s, GapTaken(s.conn.value))
    case Beat => WithConn(s, s.conn.value.(wire := s.conn.value.wire + [Heartbeat(s.conn.value.sent)]))
    case Deliver => Delivered(s)
    case Drop => s.(conn := None)
  }

  /**
   No event is sent past one that found the buffer full (the gap is taken first),
   and no more events are missed at a reconnect than history may hold.
   */
  predicate Quiet(s: Sys, step: Step)
    requires Enabled(s, step)
  {
    match step
    case TakeEvent =>
      var c := s.conn.value;
      forall d | d in c.lost :: !(c.sent < d < c.sub.events[0].number)
    case Snapshot => |Newer(s.db, s.workspace, s.conn.value.sent)| <= s.limit
    case _ => true
  }

  // ------------------------------------------------------------------- invariant

  function EventsOf(frames: seq<Frame>): seq<Event> {
    if frames == [] then [] else (if frames[0].EventFrame? then [frames[0].event] else []) + EventsOf(frames[1..])
  }

  /** A position is one the client started from, or not beyond the stored events. */
  predicate Known(s: Sys, number: int) { number >= s.init && (number == s.init || number <= Top(s.db)) }

  /** A rising list of events of one workspace in a range. */
  predicate InRange(b: seq<Event>, workspace: string, low: int, high: int) {
    && (forall i | 0 <= i < |b| :: low < b[i].number <= high && b[i].workspace == workspace)
    && forall i, j | 0 <= i < j < |b| :: b[i].number < b[j].number
  }

  /** Lost events have been sent from history, or lie within the pending gap. */
  predicate LostIsKnown(c: Conn) {
    forall d | d in c.lost :: d <= c.sent || (c.sub.gap.Some? && d <= c.sub.gap.value.last)
  }

  /** Of the events published after the mark, the buffer holds, in order, those that were not lost. */
  predicate BufferInv(published: seq<Event>, workspace: string, c: Conn) {
    && c.sub.workspace == workspace && 0 <= c.mark <= Top(published)
    && InRange(c.sub.events, workspace, c.mark, Top(published))
    && (forall e | e in c.sub.events :: e in published)
    && (forall e | e in published && e.workspace == workspace && c.mark < e.number :: e in c.sub.events || e.number in c.lost)
    && (forall d | d in c.lost :: d <= Top(published))
    && (c.open ==> LostIsKnown(c))
  }

  /** A gap frame is the last one, and ends the connection. */
  predicate WireInv(c: Conn) {
    && (forall i | 0 <= i < |c.wire| && c.wire[i].GapFrame? :: i == |c.wire| - 1 && !c.open)
    && (!c.open ==> c.wire != [] && c.wire[|c.wire| - 1].GapFrame?)
  }

  predicate ConnInv(s: Sys, c: Conn)
    requires s.published <= |s.db|
  {
    && Known(s, c.sent) && s.last <= c.sent
    && EventsOf(c.wire) == Between(s.db, s.workspace, s.last, c.sent)
    && WireInv(c) && (!c.open ==> c.phase.Live?) && BufferInv(s.db[..s.published], s.workspace, c)
    && match c.phase
       case Subscribed => true
       case Replaying(rest, upTo) =>
         c.mark <= upTo <= Top(s.db) && rest == Between(s.db, s.workspace, c.sent, upTo)
       case Live => Between(s.db, s.workspace, c.sent, c.mark) == []
  }

  predicate Inv(s: Sys) {
    && Rising(s.db) && s.published <= |s.db| && Known(s, s.last)
    && s.received == Between(s.db, s.workspace, s.init, s.last)
    && (s.conn.Some? ==> ConnInv(s, s.conn.value))
  }

  /** A client that starts at a number, with nothing received and no connection. */
  predicate Starts(s: Sys) {
    Rising(s.db) && s.published <= |s.db| && s.last == s.init && s.received == [] && s.conn == None
  }

  lemma StartsInv(s: Sys)
    requires Starts(s)
    ensures Inv(s)
  {
    EmptyRange(s.db, s.workspace, s.init, s.last);
  }

  // -------------------------------------------------------------------- list facts

  lemma {:induction false} EventsOfConcat(a: seq<Frame>, b: seq<Frame>)
    ensures EventsOf(a + b) == EventsOf(a) + EventsOf(b)
  {
    if a == [] {
      assert a + b == b;
    } else {
      assert (a + b)[0] == a[0] && (a + b)[1..] == a[1..] + b;
      EventsOfConcat(a[1..], b);
    }
  }

  lemma EventsOfOne(frame: Frame)
    ensures EventsOf([frame]) == if frame.EventFrame? then [frame.event] else []
  {
    assert [frame][1..] == [];
  }

  /** Listings rise, and lie in their range. */
  lemma {:induction false} BetweenRises(db: seq<Event>, workspace: string, low: int, high: int)
    requires Rising(db)
    ensures InRange(Between(db, workspace, low, high), workspace, low, if high < Top(db) then high else Top(db))
  {
    if db != [] {
      var before, last := db[..|db| - 1], db[|db| - 1];
      RisingPrefix(db, |db| - 1);
      BetweenRises(before, workspace, low, high);
      var c := Between(before, workspace, low, high);
      assert last.number > Top(before) && Top(db) == last.number;
      RangeGrows(c, last, workspace, low, if high < Top(before) then high else Top(before), high);
    }
  }

  lemma RangeGrows(c: seq<Event>, e: Event, workspace: string, low: int, end: int, high: int)
    requires InRange(c, workspace, low, end) && end < e.number && end <= high
    ensures InRange(c, workspace, low, if high < e.number then high else e.number)
    ensures low < e.number <= high && e.workspace == workspace ==> InRange(c + [e], workspace, low, e.number)
    ensures c + [] == c
  {
  }

  /** The first event of a listing splits it. */
  lemma HeadSplits(db: seq<Event>, workspace: string, low: int, high: int)
    requires Rising(db) && Between(db, workspace, low, high) != []
    ensures var b := Between(db, workspace, low, high);
      && low < b[0].number <= high && b[0].number <= Top(db) && b[0].workspace == workspace
      && Between(db, workspace, low, b[0].number) == [b[0]]
      && Between(db, workspace, b[0].number, high) == b[1..]
  {
    var b := Between(db, workspace, low, high);
    var e := b[0];
    BetweenRises(db, workspace, low, high);
    BetweenSplits(db, workspace, low, e.number, high);
    var first, rest := Between(db, workspace, low, e.number), Between(db, workspace, e.number, high);
    BetweenRises(db, workspace, low, e.number);
    BetweenMembers(db, workspace, low, high, e);
    BetweenMembers(db, workspace, low, e.number, e);
    assert first != [] && first[0] == b[0];
    assert first == [e];
    assert b[1..] == rest;
  }

  /** With nothing of the workspace in between, an event is a listing by itself. */
  lemma OnlyMember(db: seq<Event>, workspace: string, low: int, e: Event)
    requires Rising(db) && e in db && e.workspace == workspace && low < e.number
    requires forall x | x in db && x.workspace == workspace :: !(low < x.number < e.number)
    ensures Between(db, workspace, low, e.number) == [e]
  {
    hide Between;
    BetweenMembers(db, workspace, low, e.number, e);
    var head := Between(db, workspace, low, e.number)[0];
    BetweenMembers(db, workspace, low, e.number, head);
    HeadSplits(db, workspace, low, e.number);
    assert head.number == e.number && head == e;
  }

  /** Within an empty listing every shorter one is empty. */
  lemma EmptyWithin(db: seq<Event>, workspace: string, low: int, middle: int, high: int)
    requires Rising(db) && middle <= high && Between(db, workspace, low, high) == []
    ensures Between(db, workspace, low, middle) == []
  {
    if low <= middle {
      BetweenSplits(db, workspace, low, middle, high);
    } else {
      EmptyRange(db, workspace, low, middle);
    }
  }

  // ------------------------------------------------------------------ preservation

  lemma StoreInv(s: Sys, e: Event)
    requires Inv(s) && Enabled(s, Store(e))
    ensures Inv(Apply(s, Store(e)))
  {
    var db' := s.db + [e];
    assert db'[..|s.db|] == s.db && db'[|s.db|] == e && Top(db') == e.number;
    assert s.db != [] ==> db'[|s.db| - 1] == s.db[|s.db| - 1];
    assert Top(s.db) <= Top(db');
    assert db'[..s.published] == s.db[..s.published];
    StoredLater(s.db, e, s.workspace, s.init, s.last);
    if s.conn.Some? {
      var c := s.conn.value;
      RisingPrefix(s.db, s.published);
      StoredLater(s.db, e, s.workspace, s.last, c.sent);
      StoredLater(s.db, e, s.workspace, c.sent, c.mark);
      if c.phase.Replaying? { StoredLater(s.db, e, s.workspace, c.sent, c.phase.upTo); }
    }
  }

  lemma PublishInv(s: Sys)
    requires Inv(s) && Enabled(s, Publish)
    ensures Inv(Apply(s, Publish))
  {
    hide Between, EventsOf;
    if s.conn.Some? {
      RisingPrefix(s.db, s.published);
      RisingPrefix(s.db, s.published + 1);
      TopGrows(s.db, s.published);
      BufferedInv(s.db[..s.published], s.db[s.published], s.workspace, s.conn.value);
      assert s.db[..s.published + 1] == s.db[..s.published] + [s.db[s.published]];
    }
  }

  /** A published event is buffered, or lost and within the gap. */
  lemma BufferedInv(published: seq<Event>, e: Event, workspace: string, c: Conn)
    requires BufferInv(published, workspace, c) && Top(published) < e.number
    ensures BufferInv(published + [e], workspace, Buffered(c, e))
  {
    assert Top(published + [e]) == e.number;
    assert forall x :: x in published + [e] <==> x in published || x == e;
    var events := Buffered(c, e).sub.events;
    assert events == c.sub.events || events == c.sub.events + [e];
    assert forall x :: x in events <==> x in c.sub.events || (events != c.sub.events && x == e);
  }

  lemma TopGrows(db: seq<Event>, n: nat)
    requires Rising(db) && n < |db|
    ensures Top(db[..n]) <= Top(db[..n + 1])
  {
    if n > 0 { assert db[..n][n - 1].number < db[..n + 1][n].number; }
  }

  lemma NoneBeyondTop(db: seq<Event>)
    requires Rising(db)
    ensures forall e | e in db :: e.number <= Top(db)
  {
  }

  lemma ConnectInv(s: Sys)
    requires Inv(s) && Enabled(s, Connect)
    ensures Inv(Apply(s, Connect))
  {
    hide Between, EventsOf;
    RisingPrefix(s.db, s.published);
    EmptyRange(s.db, s.workspace, s.last, s.last);
    NoneBeyondTop(s.db[..s.published]);
    EventsOfOne(Hello);
  }

  /** With a short enough backlog, history is everything after the client's number. */
  lemma HistoryIsBacklog(s: Sys, after: int)
    requires Rising(s.db) && |Newer(s.db, s.workspace, after)| <= s.limit
    ensures History(s.db, s.workspace, after, s.limit) == Between(s.db, s.workspace, after, Top(s.db))
  {
    if after <= 0 {
      RisingPrefix(s.db, |s.db|);
      BetweenSplits(s.db, s.workspace, after, 0, Top(s.db));
      NoneInRange(s.db, s.workspace, after, 0);
    }
  }

  lemma SnapshotInv(s: Sys)
    requires Inv(s) && Enabled(s, Snapshot) && Quiet(s, Snapshot)
    ensures Inv(Apply(s, Snapshot))
  {
    assert s.conn.value.mark <= Top(s.db[..s.published]);
    hide Between, History, BufferInv, InRange;
    HistoryIsBacklog(s, s.conn.value.sent);
    RisingPrefix(s.db, s.published);
  }

  /** Forwarding the next event of a listing moves both ends of the connection on. */
  lemma SentInv(s: Sys, c: Conn, e: Event)
    requires Inv(s) && Known(s, c.sent) && s.last <= c.sent
    requires EventsOf(c.wire) == Between(s.db, s.workspace, s.last, c.sent)
    requires c.sent < e.number <= Top(s.db) && Between(s.db, s.workspace, c.sent, e.number) == [e]
    ensures Sent(c, e) == c.(wire := c.wire + [EventFrame(e)], sent := e.number)
    ensures EventsOf(Sent(c, e).wire) == Between(s.db, s.workspace, s.last, e.number)
    ensures Known(s, e.number)
  {
    EventsOfConcat(c.wire, [EventFrame(e)]);
    EventsOfOne(EventFrame(e));
    BetweenSplits(s.db, s.workspace, s.last, c.sent, e.number);
  }

  lemma ReplayInv(s: Sys)
    requires Inv(s) && Enabled(s, Replay)
    ensures Inv(Apply(s, Replay))
  {
    hide Between, EventsOf;
    var c := s.conn.value;
    if c.phase.rest == [] {
      EmptyWithin(s.db, s.workspace, c.sent, c.mark, c.phase.upTo);
    } else {
      HeadSplits(s.db, s.workspace, c.sent, c.phase.upTo);
      SentInv(s, c, c.phase.rest[0]);
    }
  }

  lemma TakeEventInv(s: Sys)
    requires Inv(s) && Enabled(s, TakeEvent) && Quiet(s, TakeEvent)
    ensures Inv(Apply(s, TakeEvent))
  {
    hide Between, EventsOf, BufferInv, InRange;
    var c := s.conn.value;
    var db, ws, pub := s.db, s.workspace, s.db[..s.published];
    var e := c.sub.events[0];
    RisingPrefix(db, s.published);
    TakenBuffer(pub, ws, c);
    EmptyRange(db, ws, e.number, e.number);
    if e.number <= c.sent {
      assert Sent(c, e) == c.(wire := c.wire + []);
      assert c.wire + [] == c.wire;
      EmptyRange(db, ws, c.sent, e.number);
    } else {
      NextAfterSent(db, s.published, ws, c);
      SentInv(s, c, e);
    }
  }

  /** The buffer without its first event. */
  lemma TakenBuffer(published: seq<Event>, workspace: string, c: Conn)
    requires BufferInv(published, workspace, c) && c.sub.events != []
    ensures BufferInv(published, workspace, Taken(c))
    ensures c.sub.events[0] in published && c.sub.events[0].number <= Top(published)
  {
    var events, rest := c.sub.events, c.sub.events[1..];
    assert events == [events[0]] + rest;
    assert forall i | 0 <= i < |rest| :: rest[i] == events[i + 1];
    assert events[0] in events && forall x | x in rest :: x in events;
    forall e | e in published && e.workspace == workspace && events[0].number < e.number
      ensures e in rest || e.number in c.lost
    {
      if e in events { assert e == events[0] || e in rest; }
    }
  }

  /** The first buffered event beyond what was sent is the next one to send, if no lost one lies before it. */
  lemma NextAfterSent(db: seq<Event>, n: nat, ws: string, c: Conn)
    requires Rising(db) && n <= |db| && BufferInv(db[..n], ws, c) && c.sub.events != []
    requires c.sent < c.sub.events[0].number && Between(db, ws, c.sent, c.mark) == []
    requires forall d | d in c.lost :: !(c.sent < d < c.sub.events[0].number)
    ensures Between(db, ws, c.sent, c.sub.events[0].number) == [c.sub.events[0]]
  {
    hide Between;
    var e := c.sub.events[0];
    RisingPrefix(db, n);
    assert e in c.sub.events && e in db[..n];
    forall x | x in db && x.workspace == ws ensures !(c.sent < x.number < e.number) {
      BetweenMembers(db, ws, c.sent, c.mark, x);
      if x.number <= Top(db[..n]) { InPrefix(db, n, x); }
      if x in c.sub.events { FirstIsLeast(c.sub.events, ws, c.mark, Top(db[..n]), x); }
    }
    OnlyMember(db, ws, c.sent, e);
  }

  lemma FirstIsLeast(b: seq<Event>, workspace: string, low: int, high: int, x: Event)
    requires InRange(b, workspace, low, high) && x in b
    ensures b[0].number <= x.number
  {
  }

  lemma InPrefix(db: seq<Event>, n: nat, x: Event)
    requires Rising(db) && n <= |db| && x in db && x.number <= Top(db[..n])
    ensures x in db[..n]
  {
    RisingPrefix(db, n);
    var i :| 0 <= i < |db| && db[i] == x;
    assert i < n;
    assert db[..n][i] == x;
  }

  /** A gap within what was sent is dropped; any other ends the connection. */
  lemma TakeGapInv(s: Sys)
    requires Inv(s) && Enabled(s, TakeGap)
    ensures Inv(Apply(s, TakeGap))
  {
    hide Between, EventsOf;
    var c := s.conn.value;
    var gap := c.sub.gap.value;
    EventsOfConcat(c.wire, [GapFrame(gap)]);
    EventsOfOne(GapFrame(gap));
    assert EventsOf(c.wire) + [] == EventsOf(c.wire);
  }

  lemma BeatInv(s: Sys)
    requires Inv(s) && Enabled(s, Beat)
    ensures Inv(Apply(s, Beat))
  {
    var c := s.conn.value;
    EventsOfConcat(c.wire, [Heartbeat(c.sent)]);
    EventsOfOne(Heartbeat(c.sent));
    assert EventsOf(c.wire) + [] == EventsOf(c.wire);
  }

  /** Taking the first frame off the wire. */
  lemma WireHead(c: Conn)
    requires c.wire != [] && WireInv(c)
    ensures EventsOf(c.wire) == (if c.wire[0].EventFrame? then [c.wire[0].event] else []) + EventsOf(c.wire[1..])
    ensures !c.wire[0].GapFrame? ==> WireInv(c.(wire := c.wire[1..]))
  {
    assert forall i | 0 <= i < |c.wire[1..]| :: c.wire[1..][i] == c.wire[i + 1];
  }

  lemma DeliverInv(s: Sys)
    requires Inv(s) && Enabled(s, Deliver)
    ensures Inv(Apply(s, Deliver))
  {
    hide Between, EventsOf, Top, Rising, WireInv, InRange;
    var c := s.conn.value;
    WireHead(c);
    if c.wire[0].EventFrame? {
      var e := c.wire[0].event;
      assert Between(s.db, s.workspace, s.last, c.sent)[0] == e;
      HeadSplits(s.db, s.workspace, s.last, c.sent);
      BetweenSplits(s.db, s.workspace, s.init, s.last, e.number);
      assert EventsOf(c.wire)[1..] == EventsOf(c.wire[1..]);
    } else {
      assert EventsOf(c.wire) == EventsOf(c.wire[1..]);
    }
  }

  /** Every quiet step keeps the invariant. */
  lemma QuietStepKeepsInv(s: Sys, step: Step)
    requires Inv(s) && Enabled(s, step) && Quiet(s, step)
    ensures Inv(Apply(s, step))
  {
    match step
    case Store(e) => StoreInv(s, e);
    case Publish => PublishInv(s);
    case Connect => ConnectInv(s);
    case Snapshot => SnapshotInv(s);
    case Replay => ReplayInv(s);
    case TakeEvent => TakeEventInv(s);
    case TakeGap => TakeGapInv(s);
    case Beat => BeatInv(s);
    case Deliver => DeliverInv(s);
    case Drop =>
  }
}

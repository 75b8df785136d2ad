/**
 Events, frames and the small steps of observer delivery (`internal/observation`):
 what the store lists, what the broker hands on, what the socket forwards and what
 the client keeps.
 */
module ObservationCore {
  import opened OperationCore

  const DEFAULT_BUFFER: nat := 128

  datatype Event = Event(number: int, workspace: string)

  datatype Gap = Gap(first: int, last: int)

  datatype Frame = Hello | EventFrame(event: Event) | GapFrame(gap: Gap) | Heartbeat(number: int)

  /** Events of one workspace with a number above `low` and at most `high`, in stored order. */
  function Between(db: seq<Event>, workspace: string, low: int, high: int): seq<Event> {
    if db == [] then []
    else
      var last := db[|db| - 1];
      Between(db[..|db| - 1], workspace, low, high)
      + if last.workspace == workspace && low < last.number <= high then [last] else []
  }

  /** Stored numbers rise. */
  predicate Rising(db: seq<Event>) {
    (forall i | 0 <= i < |db| :: db[i].number > 0) && forall i, j | 0 <= i < j < |db| :: db[i].number < db[j].number
  }

  function Top(db: seq<Event>): int { if db == [] then 0 else db[|db| - 1].number }

  function Newer(db: seq<Event>, workspace: string, low: int): seq<Event> { Between(db, workspace, low, Top(db)) }

  /** The next events after a number, or for a new observer the most recent ones. */
  function History(db: seq<Event>, workspace: string, after: int, limit: nat): seq<Event> {
    if after > 0 then
      var events := Newer(db, workspace, after);
      if |events| <= limit then events else events[..limit]
    else
      var events := Newer(db, workspace, 0);
      if |events| <= limit then events else events[|events| - limit..]
  }

  // --------------------------------------------------------------------- broker

  datatype Subscriber = Subscriber(workspace: string, capacity: nat, events: seq<Event>, gap: Option<Gap>)

  /** Hand an event to a subscriber: into its buffer, or as a gap when that is full. */
  function Offered(sub: Subscriber, e: Event): Subscriber {
    if sub.workspace != e.workspace then sub
    else if |sub.events| < sub.capacity then sub.(events := sub.events + [e])
    else sub.(gap := Some(Gap(e.number, e.number)))
  }

  // --------------------------------------------------------------------- socket

  /** Forward an event unless an event with at least its number went before. */
  function Forwarded(last: int, e: Event): (seq<Frame>, int) {
    if e.number <= last then ([], last) else ([EventFrame(e)], e.number)
  }

  /** Forward a list of events in order. */
  function ForwardedAll(last: int, events: seq<Event>): (seq<Frame>, int)
    decreases |events|
  {
    if events == [] then ([], last)
    else
      var (frames, next) := Forwarded(last, events[0]);
      var (rest, end) := ForwardedAll(next, events[1..]);
      (frames + rest, end)
  }

  // --------------------------------------------------------------------- client

  /** What the client hands to its callback, its new position, and whether it reconnects. */
  function Kept(last: int, frame: Frame): (seq<Frame>, int, bool) {
    match frame
    case EventFrame(e) => if e.number <= last then ([], last, false) else ([frame], e.number, false)
    case GapFrame(_) => ([frame], last, true)
    case _ => ([frame], last, false)
  }

  /** Reading frames until the connection ends or a gap asks for a new one. */
  function KeptAll(last: int, frames: seq<Frame>): (seq<Frame>, int, bool)
    decreases |frames|
  {
    if frames == [] then ([], last, false)
    else
      var (kept, next, again) := Kept(last, frames[0]);
      if again then (kept, next, true)
      else
        var (rest, end, more) := KeptAll(next, frames[1..]);
        (kept + rest, end, more)
  }

  // ---------------------------------------------------------------- listing lemmas

  lemma {:induction false} BetweenMembers(db: seq<Event>, workspace: string, low: int, high: int, e: Event)
    ensures e in Between(db, workspace, low, high) <==> e in db && e.workspace == workspace && low < e.number <= high
  {
    if db != [] {
      BetweenMembers(db[..|db| - 1], workspace, low, high, e);
      assert db == db[..|db| - 1] + [db[|db| - 1]];
    }
  }

  lemma RisingPrefix(db: seq<Event>, n: nat)
    requires Rising(db) && n <= |db|
    ensures Rising(db[..n])
    ensures Top(db[..n]) <= Top(db) && Top(db) >= 0
    ensures forall i | n <= i < |db| :: db[i].number > Top(db[..n])
  {
  }

  /** A listing falls into two at any number in between. */
  lemma {:induction false} BetweenSplits(db: seq<Event>, workspace: string, low: int, middle: int, high: int)
    requires Rising(db) && low <= middle <= high
    ensures Between(db, workspace, low, high) == Between(db, workspace, low, middle) + Between(db, workspace, middle, high)
  {
    if db != [] {
      var last, before := db[|db| - 1], db[..|db| - 1];
      RisingPrefix(db, |db| - 1);
      hide Rising, Top;
      BetweenSplits(before, workspace, low, middle, high);
      var a, b := Between(before, workspace, low, middle), Between(before, workspace, middle, high);
      if last.number <= middle {
        NothingBeyondTop(before, workspace, middle, high);
        assert a + [] == a && (a + [last]) + [] == a + [last];
      } else {
        assert (a + b) + [last] == a + (b + [last]);
      }
    }
  }

  lemma {:induction false} NothingBeyondTop(db: seq<Event>, workspace: string, low: int, high: int)
    requires Rising(db) && low >= Top(db)
    ensures Between(db, workspace, low, high) == []
  {
    if db != [] {
      RisingPrefix(db, |db| - 1);
      NothingBeyondTop(db[..|db| - 1], workspace, low, high);
    }
  }

  lemma {:induction false} EmptyRange(db: seq<Event>, workspace: string, low: int, high: int)
    requires low >= high
    ensures Between(db, workspace, low, high) == []
  {
    if db != [] { EmptyRange(db[..|db| - 1], workspace, low, high); }
  }

  /** A new event does not change a listing that ends before it. */
  lemma StoredLater(db: seq<Event>, e: Event, workspace: string, low: int, high: int)
    requires Rising(db + [e]) && (high <= Top(db) || low >= high)
    ensures Between(db + [e], workspace, low, high) == Between(db, workspace, low, high)
  {
    assert (db + [e])[..|db|] == db;
    assert e.number > Top(db) by { if db != [] { assert (db + [e])[|db| - 1] == db[|db| - 1]; } }
  }

  /** The listing of a prefix, as far as the prefix goes. */
  lemma {:induction false} BetweenOfPrefix(db: seq<Event>, n: nat, workspace: string, low: int, high: int)
    requires Rising(db) && n <= |db| && high <= Top(db[..n])
    ensures Between(db[..n], workspace, low, high) == Between(db, workspace, low, high)
    decreases |db| - n
  {
    if n == |db| {
      assert db[..n] == db;
    } else {
      RisingPrefix(db, n);
      RisingPrefix(db, n + 1);
      assert db[..n + 1] == db[..n] + [db[n]];
      StoredLater(db[..n], db[n], workspace, low, high);
      assert Top(db[..n]) <= Top(db[..n + 1]) by { if n > 0 { assert db[n - 1].number < db[n].number; } }
      BetweenOfPrefix(db, n + 1, workspace, low, high);
    }
  }

  lemma {:induction false} NoneInRange(db: seq<Event>, workspace: string, low: int, high: int)
    requires forall j | 0 <= j < |db| && db[j].workspace == workspace :: !(low < db[j].number <= high)
    ensures Between(db, workspace, low, high) == []
  {
    if db != [] { NoneInRange(db[..|db| - 1], workspace, low, high); }
  }
}

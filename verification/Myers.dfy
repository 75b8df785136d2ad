/**
 The line diff of `internal/edit/diff.go`: Myers' forward search over diagonals,
 followed by a walk back through the recorded frontiers.
 */
module Myers {
  import opened EditScript

  /** The diagonals that round `d` visits, -d, -d+2, ..., d, numbered by their deletions. */
  function Diagonal(d: int, i: int): int { 2 * i - d }

  predicate OnFrontier(d: int, k: int, i: int) { 0 <= i <= d && k == Diagonal(d, i) }

  /** `x` is the furthest point on diagonal `k` within `d` edits. */
  ghost predicate Furthest<T>(a: seq<T>, b: seq<T>, d: int, k: int, x: int) {
    x >= 0 && x - k >= 0
    && Distance(a, b, x, x - k) <= d < Distance(a, b, x + 1, x + 1 - k)
  }

  /** The frontier `v` holds the furthest point on every diagonal of round `d`. */
  ghost predicate Frontier<T>(a: seq<T>, b: seq<T>, d: int, v: map<int, int>) {
    forall i {:trigger Diagonal(d, i)} | 0 <= i <= d ::
      Diagonal(d, i) in v && Furthest(a, b, d, Diagonal(d, i), v[Diagonal(d, i)])
  }

  lemma FurthestIsMaximal<T>(a: seq<T>, b: seq<T>, d: int, k: int, x: int, other: int)
    requires Furthest(a, b, d, k, x) && other >= 0 && other - k >= 0
    requires Distance(a, b, other, other - k) <= d
    ensures other <= x
  {
    hide Distance;
    if other > x {
      DistanceDiagonal(a, b, x + 1, x + 1 - k, other - x - 1);
    }
  }

  /** The rule both loops use to choose the previous diagonal. */
  predicate GoesDown(v: map<int, int>, d: int, k: int)
    requires k != -d && k != d ==> k - 1 in v && k + 1 in v
  {
    k == -d || (k != d && v[k - 1] < v[k + 1])
  }

  /** Where a round enters diagonal `k`, given the previous frontier. */
  function Entry(v: map<int, int>, d: int, k: int): int
    requires k != -d && k != d ==> k - 1 in v && k + 1 in v
    requires k == -d ==> k + 1 in v
    requires k == d && k != -d ==> k - 1 in v
  {
    if GoesDown(v, d, k) then v[k + 1] else v[k - 1] + 1
  }

  /** Reaching a diagonal in `d` edits goes through its entry point ... */
  lemma EntryIsReachable<T>(a: seq<T>, b: seq<T>, d: int, k: int, i: int, v: map<int, int>)
    requires d > 0 && Frontier(a, b, d - 1, v) && OnFrontier(d, k, i)
    ensures k != -d ==> k - 1 in v
    ensures k != d ==> k + 1 in v
    ensures var x := Entry(v, d, k); x >= 0 && x - k >= 0 && Distance(a, b, x, x - k) <= d
  {
    hide Distance;
    assert k != -d ==> Diagonal(d - 1, i - 1) == k - 1;
    assert k != d ==> Diagonal(d - 1, i) == k + 1;
    if GoesDown(v, d, k) {
      DistanceNeighbours(a, b, v[k + 1], v[k + 1] - (k + 1));
    } else {
      DistanceNeighbours(a, b, v[k - 1], v[k - 1] - (k - 1));
    }
  }

  lemma EntryIsMaximum(v: map<int, int>, d: int, k: int)
    requires k != -d ==> k - 1 in v
    requires k != d ==> k + 1 in v
    requires -d <= k <= d && d > 0
    ensures k != -d ==> Entry(v, d, k) >= v[k - 1] + 1
    ensures k != d ==> Entry(v, d, k) >= v[k + 1]
  {
  }

  /** What the previous frontier says about a point reached in fewer than `d` edits. */
  lemma PointOnFrontier<T>(a: seq<T>, b: seq<T>, d: int, k: int, i: int, v: map<int, int>, x: int)
    requires Frontier(a, b, d - 1, v) && OnFrontier(d - 1, k, i)
    requires x >= 0 && x - k >= 0 && Distance(a, b, x, x - k) <= d - 1
    ensures k in v && x <= v[k]
  {
    hide Distance;
    assert k == Diagonal(d - 1, i);
    FurthestIsMaximal(a, b, d - 1, k, v[k], x);
  }

  /** ... and beyond the entry point only matching lines can be used. */
  lemma BeyondEntryLinesMatch<T>(a: seq<T>, b: seq<T>, d: int, k: int, i: int, v: map<int, int>, x: int)
    requires d > 0 && Frontier(a, b, d - 1, v) && OnFrontier(d, k, i)
    requires k != -d ==> k - 1 in v
    requires k != d ==> k + 1 in v
    requires Entry(v, d, k) <= x && x >= 0 && x - k >= 0
    requires Distance(a, b, x + 1, x + 1 - k) <= d
    ensures Match(a, b, x, x - k)
  {
    hide Distance;
    EntryIsMaximum(v, d, k);
    DistanceStep(a, b, x, x - k);
    if !Match(a, b, x, x - k) {
      hide Entry, Frontier, Furthest;
      if Distance(a, b, x, x + 1 - k) <= d - 1 {
        DistanceBounds(a, b, x, x + 1 - k);
        PointOnFrontier(a, b, d, k - 1, i - 1, v, x);
      } else {
        DistanceBounds(a, b, x + 1, x - k);
        PointOnFrontier(a, b, d, k + 1, i, v, x + 1);
      }
      assert false;
    }
  }

  /** The point where round `d` stops on diagonal `k` is the furthest one. */
  lemma SlideIsFurthest<T>(a: seq<T>, b: seq<T>, d: int, k: int, i: int, v: map<int, int>, x: int)
    requires d > 0 && Frontier(a, b, d - 1, v) && OnFrontier(d, k, i)
    requires k != -d ==> k - 1 in v
    requires k != d ==> k + 1 in v
    requires Entry(v, d, k) <= x && x >= 0 && x - k >= 0
    requires Distance(a, b, x, x - k) <= d && !Match(a, b, x, x - k)
    ensures Furthest(a, b, d, k, x)
  {
    hide Distance;
    if Distance(a, b, x + 1, x + 1 - k) <= d {
      BeyondEntryLinesMatch(a, b, d, k, i, v, x);
    }
  }

  /** One diagonal of one round: enter from the previous frontier, then follow matching lines. */
  method Advance<T(==)>(a: seq<T>, b: seq<T>, distance: int, k: int, ghost i: int, v: map<int, int>) returns (x: int)
    requires OnFrontier(distance, k, i)
    requires if distance == 0 then v == map[1 := 0] else Frontier(a, b, distance - 1, v)
    ensures Furthest(a, b, distance, k, x)
  {
    hide Distance;
    DistanceStep(a, b, 0, 0);
    if distance > 0 {
      EntryIsReachable(a, b, distance, k, i, v);
    }
    if k == -distance || (k != distance && v[k - 1] < v[k + 1]) {
      x := v[k + 1];
    } else {
      x := v[k - 1] + 1;
    }
    ghost var entry := x;
    var y := x - k;
    while x < |a| && y < |b| && a[x] == b[y]
      invariant x >= entry && y == x - k >= 0
      invariant Distance(a, b, x, y) <= distance
      decreases |a| - x
    {
      DistanceStep(a, b, x, y);
      x := x + 1;
      y := y + 1;
    }
    DistanceStep(a, b, x, y);
    if distance > 0 {
      SlideIsFurthest(a, b, distance, k, i, v, x);
    }
  }

  ghost predicate AtCorner<T>(a: seq<T>, b: seq<T>, k: int, x: int) { x >= |a| && x - k >= |b| }

  /** A complete round that misses the corner proves the corner is further away. */
  lemma MissedCorner<T>(a: seq<T>, b: seq<T>, d: int, v: map<int, int>)
    requires Frontier(a, b, d, v) && Distance(a, b, |a|, |b|) >= d
    requires forall i {:trigger Diagonal(d, i)} | 0 <= i <= d :: !AtCorner(a, b, Diagonal(d, i), v[Diagonal(d, i)])
    ensures Distance(a, b, |a|, |b|) >= d + 1
  {
    hide Distance;
    if Distance(a, b, |a|, |b|) == d {
      var i := DistanceSplits(a, b, |a|, |b|);
      assert Diagonal(d, i) == |a| - |b|;
      FurthestIsMaximal(a, b, d, |a| - |b|, v[|a| - |b|], |a|);
    }
  }

  /** The recorded frontiers of a finished search. */
  ghost predicate Trace<T>(a: seq<T>, b: seq<T>, trace: seq<map<int, int>>) {
    forall d | 0 <= d < |trace| :: Frontier(a, b, d, trace[d])
  }

  /** One round over its diagonals, left early when the corner is met. */
  method Round<T(==)>(a: seq<T>, b: seq<T>, distance: int, v: map<int, int>) returns (current: map<int, int>, done: bool)
    requires 0 <= distance <= Distance(a, b, |a|, |b|)
    requires if distance == 0 then v == map[1 := 0] else Frontier(a, b, distance - 1, v)
    ensures done ==> Distance(a, b, |a|, |b|) == distance
    ensures !done ==> Frontier(a, b, distance, current) && Distance(a, b, |a|, |b|) > distance
  {
    hide Distance;
    current := map[];
    var k := -distance;
    ghost var i := 0;
    while k <= distance
      invariant 0 <= i <= distance + 1 && k == Diagonal(distance, i)
      invariant forall j {:trigger Diagonal(distance, j)} | 0 <= j < i ::
          Diagonal(distance, j) in current
          && Furthest(a, b, distance, Diagonal(distance, j), current[Diagonal(distance, j)])
          && !AtCorner(a, b, Diagonal(distance, j), current[Diagonal(distance, j)])
      decreases distance - k
    {
      var x := Advance(a, b, distance, k, i, v);
      current := current[k := x];
      var y := x - k;
      if x >= |a| && y >= |b| {
        DistanceBeyondCorner(a, b, x, y);
        assert x == |a| && y == |b|;
        return current, true;
      }
      k, i := k + 2, i + 1;
    }
    done := false;
    MissedCorner(a, b, distance, current);
  }

  /** Search for the shortest script that turns `a` into `b`. */
  method LineDiff<T(==, !new)>(a: seq<T>, b: seq<T>) returns (ops: seq<DiffOp<T>>)
    ensures Transforms(ops, a, b)
    ensures Shortest(ops) && KeepsMost(ops)
    ensures Changes(ops) == Distance(a, b, |a|, |b|) == |a| + |b| - 2 * |KeptLines(ops)|
  {
    hide Distance;
    var max := |a| + |b|;
    var v := map[1 := 0];
    var trace: seq<map<int, int>> := [];
    var distance := 0;
    while distance <= max
      invariant distance == |trace| && Trace(a, b, trace)
      invariant if distance == 0 then v == map[1 := 0] else v == trace[distance - 1]
      invariant Distance(a, b, |a|, |b|) >= distance
    {
      var current, done := Round(a, b, distance, v);
      trace := trace + [current];
      if done {
        assert trace[..|trace| - 1] == trace[..distance];
        ops := Backtrack(a, b, trace);
        ShortestKeepsLongest(a, b, ops);
        return;
      }
      v := current;
      distance := distance + 1;
    }
    DistanceBounds(a, b, |a|, |b|);
    assert false;
  }

  /** A script that meets the distance is shortest, and so keeps the most lines. */
  lemma ShortestKeepsLongest<T(!new)>(a: seq<T>, b: seq<T>, ops: seq<DiffOp<T>>)
    requires Transforms(ops, a, b) && Changes(ops) == Distance(a, b, |a|, |b|)
    ensures Shortest(ops) && KeepsMost(ops)
    ensures Changes(ops) == |a| + |b| - 2 * |KeptLines(ops)|
  {
    hide Distance;
    assert a[..|a|] == a && b[..|b|] == b;
    ChangesCountKept(ops);
    forall other | Transforms(other, a, b) ensures Changes(ops) <= Changes(other) {
      DistanceIsLowerBound(a, b, other, |a|, |b|);
    }
    forall c | Subsequence(c, a) && Subsequence(c, b) ensures |c| <= |KeptLines(ops)| {
      var other := CommonIsKept(c, a, b);
      ChangesCountKept(other);
      assert Changes(ops) <= Changes(other);
    }
  }

  // ------------------------------------------------------------- backtracking

  function Reverse<T>(ops: seq<DiffOp<T>>): seq<DiffOp<T>> {
    if ops == [] then [] else Reverse(ops[1..]) + [ops[0]]
  }

  lemma {:induction false} ReverseAppend<T>(ops: seq<DiffOp<T>>, op: DiffOp<T>)
    ensures Reverse(ops + [op]) == [op] + Reverse(ops)
  {
    if ops == [] {
      assert ops + [op] == [op];
    } else {
      assert (ops + [op])[1..] == ops[1..] + [op];
      ReverseAppend(ops[1..], op);
    }
  }

  /** Prepending one operation extends what a script covers to the left. */
  lemma Prepended<T>(backward: seq<DiffOp<T>>, op: DiffOp<T>)
    ensures var ops := Reverse(backward + [op]);
      && OldLines(ops) == (if op.Ins? then [] else [op.line]) + OldLines(Reverse(backward))
      && NewLines(ops) == (if op.Del? then [] else [op.line]) + NewLines(Reverse(backward))
      && Changes(ops) == (if op.Keep? then 0 else 1) + Changes(Reverse(backward))
  {
    ReverseAppend(backward, op);
    assert ([op] + Reverse(backward))[1..] == Reverse(backward);
  }

  /** The operations gathered so far cover everything right of and below (x, y). */
  ghost predicate Covers<T>(a: seq<T>, b: seq<T>, backward: seq<DiffOp<T>>, x: int, y: int, changes: int) {
    && 0 <= x <= |a| && 0 <= y <= |b|
    && Transforms(Reverse(backward), a[x..], b[y..])
    && Changes(Reverse(backward)) == changes
  }

  /** On the origin's diagonal with no edits, all lines match. */
  lemma {:induction false} NoEditsMatch<T>(a: seq<T>, b: seq<T>, x: nat)
    requires Distance(a, b, x, x) == 0
    ensures forall j: nat | j < x :: Match(a, b, j, j)
  {
    if x > 0 {
      NoEditsMatch(a, b, x - 1);
    }
  }

  /** The lines at point `x` of diagonal `k` match. */
  predicate MatchOn<T(==)>(a: seq<T>, b: seq<T>, k: int, x: int) {
    x >= 0 && x - k >= 0 && Match(a, b, x, x - k)
  }

  /** Between the entry to a diagonal and its furthest point, all lines match. */
  lemma SlideMatches<T>(a: seq<T>, b: seq<T>, d: int, k: int, i: int, v: map<int, int>, x: int)
    requires d > 0 && Frontier(a, b, d - 1, v) && OnFrontier(d, k, i) && Furthest(a, b, d, k, x)
    ensures k != -d ==> k - 1 in v
    ensures k != d ==> k + 1 in v
    ensures 0 <= Entry(v, d, k) <= x && Entry(v, d, k) - k >= 0
    ensures forall j | Entry(v, d, k) <= j < x :: MatchOn(a, b, k, j)
  {
    hide Distance;
    EntryIsReachable(a, b, d, k, i, v);
    var entry := Entry(v, d, k);
    FurthestIsMaximal(a, b, d, k, x, entry);
    forall j | entry <= j < x ensures MatchOn(a, b, k, j) {
      DistanceDiagonal(a, b, j + 1, j + 1 - k, x - j - 1);
      BeyondEntryLinesMatch(a, b, d, k, i, v, j);
    }
  }

  /** Prepending a line that the text has just left of the covered part. */
  lemma CoversMore<T>(a: seq<T>, b: seq<T>, backward: seq<DiffOp<T>>, x: int, y: int, changes: int)
    requires Covers(a, b, backward, x, y, changes)
    ensures x > 0 && y > 0 && a[x - 1] == b[y - 1] ==>
      Covers(a, b, backward + [Keep(a[x - 1])], x - 1, y - 1, changes)
    ensures x > 0 ==> Covers(a, b, backward + [Del(a[x - 1])], x - 1, y, changes + 1)
    ensures y > 0 ==> Covers(a, b, backward + [Ins(b[y - 1])], x, y - 1, changes + 1)
  {
    assert x > 0 ==> a[x - 1..] == [a[x - 1]] + a[x..];
    assert y > 0 ==> b[y - 1..] == [b[y - 1]] + b[y..];
    if x > 0 {
      Prepended(backward, Keep(a[x - 1]));
      Prepended(backward, Del(a[x - 1]));
    }
    if y > 0 {
      Prepended(backward, Ins(b[y - 1]));
    }
  }

  /** Back along diagonal `k` over matching lines, until one coordinate meets the previous point. */
  method FollowDiagonal<T(==)>(a: seq<T>, b: seq<T>, k: int, x0: int, previousX: int, previousY: int,
                        backward0: seq<DiffOp<T>>, ghost entry: int, ghost changes: int)
    returns (x: int, y: int, backward: seq<DiffOp<T>>)
    requires previousX <= entry <= x0 && previousY <= entry - k && (previousX == entry || previousY == entry - k)
    requires forall j | entry <= j < x0 :: MatchOn(a, b, k, j)
    requires Covers(a, b, backward0, x0, x0 - k, changes)
    ensures x == entry && y == entry - k && Covers(a, b, backward, x, y, changes)
  {
    x, y, backward := x0, x0 - k, backward0;
    while x > previousX && y > previousY
      invariant entry <= x <= x0 && x - y == k
      invariant Covers(a, b, backward, x, y, changes)
    {
      assert MatchOn(a, b, k, x - 1);
      CoversMore(a, b, backward, x, y, changes);
      x := x - 1;
      y := y - 1;
      backward := backward + [Keep(a[x])];
    }
  }

  /** One round of the walk: back along the diagonal to its entry, then one edit. */
  method StepBack<T(==)>(a: seq<T>, b: seq<T>, previous: map<int, int>, distance: int,
                  x0: int, y0: int, backward0: seq<DiffOp<T>>, ghost i: int, ghost changes: int)
    returns (x: int, y: int, backward: seq<DiffOp<T>>, ghost i': int)
    requires distance > 0 && Frontier(a, b, distance - 1, previous)
    requires OnFrontier(distance, x0 - y0, i) && Furthest(a, b, distance, x0 - y0, x0)
    requires Covers(a, b, backward0, x0, y0, changes)
    ensures OnFrontier(distance - 1, x - y, i') && Furthest(a, b, distance - 1, x - y, x)
    ensures Covers(a, b, backward, x, y, changes + 1)
  {
    hide Distance;
    var k := x0 - y0;
    SlideMatches(a, b, distance, k, i, previous, x0);
    var previousK;
    if k == -distance || (k != distance && previous[k - 1] < previous[k + 1]) {
      previousK, i' := k + 1, i;
    } else {
      previousK, i' := k - 1, i - 1;
    }
    assert Diagonal(distance - 1, i') == previousK;
    var previousX := previous[previousK];
    var previousY := previousX - previousK;
    assert Furthest(a, b, distance - 1, previousK, previousX);
    x, y, backward := FollowDiagonal(a, b, k, x0, previousX, previousY, backward0, Entry(previous, distance, k), changes);
    CoversMore(a, b, backward, x, y, changes);
    if x == previousX {
      y := y - 1;
      backward := backward + [Ins(b[y])];
    } else {
      x := x - 1;
      backward := backward + [Del(a[x])];
    }
    assert x == previousX && y == previousY && x - y == previousK;
  }

  /** The loop at round 0: only matching lines are left. */
  method Unwind<T(==)>(a: seq<T>, b: seq<T>, x0: int, y0: int, backward0: seq<DiffOp<T>>, ghost changes: int)
    returns (backward: seq<DiffOp<T>>)
    requires x0 == y0 && Covers(a, b, backward0, x0, y0, changes)
    requires Distance(a, b, x0, y0) == 0
    ensures Covers(a, b, backward, 0, 0, changes)
  {
    hide Distance;
    var x, y := x0, y0;
    backward := backward0;
    NoEditsMatch(a, b, x);
    while x > 0 && y > 0
      invariant x == y && Covers(a, b, backward, x, y, changes)
    {
      assert Match(a, b, x - 1, x - 1);
      CoversMore(a, b, backward, x, y, changes);
      x := x - 1;
      y := y - 1;
      backward := backward + [Keep(a[x])];
    }
    backward := UnwindEdges(a, b, x, y, backward, changes);
  }

  /** The two loops that would remove or add what is left of one text. */
  method UnwindEdges<T>(a: seq<T>, b: seq<T>, x0: int, y0: int, backward0: seq<DiffOp<T>>, ghost changes: int)
    returns (backward: seq<DiffOp<T>>)
    requires Covers(a, b, backward0, x0, y0, changes)
    ensures Covers(a, b, backward, 0, 0, changes + x0 + y0)
  {
    var x, y := x0, y0;
    backward := backward0;
    while x > 0
      invariant 0 <= x <= x0 && Covers(a, b, backward, x, y, changes + x0 - x)
    {
      CoversMore(a, b, backward, x, y, changes + x0 - x);
      x := x - 1;
      backward := backward + [Del(a[x])];
    }
    while y > 0
      invariant 0 <= y <= y0 && Covers(a, b, backward, x, y, changes + x0 + y0 - y)
    {
      CoversMore(a, b, backward, x, y, changes + x0 + y0 - y);
      y := y - 1;
      backward := backward + [Ins(b[y])];
    }
  }

  /** Walk the frontiers back from the corner, then put the script in order. */
  method Backtrack<T(==)>(a: seq<T>, b: seq<T>, trace: seq<map<int, int>>) returns (ops: seq<DiffOp<T>>)
    requires trace != [] && Trace(a, b, trace[..|trace| - 1])
    requires Distance(a, b, |a|, |b|) == |trace| - 1
    ensures Transforms(ops, a, b) && Changes(ops) == |trace| - 1
  {
    hide Distance;
    var x, y := |a|, |b|;
    var backward: seq<DiffOp<T>> := [];
    assert a[x..] == [] && b[y..] == [];
    var distance := |trace| - 1;
    DistanceBounds(a, b, x, y);
    ghost var i := DistanceSplits(a, b, x, y);
    DistanceBeyondCorner(a, b, x + 1, y + 1);
    while distance > 0
      invariant 0 <= distance < |trace|
      invariant Covers(a, b, backward, x, y, |trace| - 1 - distance)
      invariant OnFrontier(distance, x - y, i) && Furthest(a, b, distance, x - y, x)
    {
      assert trace[..|trace| - 1][distance - 1] == trace[distance - 1];
      x, y, backward, i := StepBack(a, b, trace[distance - 1], distance, x, y, backward, i, |trace| - 1 - distance);
      distance := distance - 1;
    }
    backward := Unwind(a, b, x, y, backward, |trace| - 1);
    assert a[0..] == a && b[0..] == b;
    ops := ReverseInPlace(backward);
  }

  lemma {:induction false} ReversedAt<T>(ops: seq<DiffOp<T>>, i: nat)
    requires i < |ops|
    ensures |Reverse(ops)| == |ops| && Reverse(ops)[i] == ops[|ops| - 1 - i]
  {
    if |ops| > 1 {
      ReversedAt(ops[1..], if i < |ops| - 1 then i else 0);
    }
  }

  /** The swap loop that ends the walk. */
  method ReverseInPlace<T>(ops: seq<DiffOp<T>>) returns (backward: seq<DiffOp<T>>)
    ensures backward == Reverse(ops)
  {
    backward := ops;
    var left, right := 0, |backward| - 1;
    while left < right
      invariant 0 <= left <= |ops| && right == |ops| - 1 - left && left <= right + 2
      invariant |backward| == |ops|
      invariant forall i | 0 <= i < left :: backward[i] == ops[|ops| - 1 - i] && backward[|ops| - 1 - i] == ops[i]
      invariant forall i | left <= i <= right :: backward[i] == ops[i]
    {
      backward := backward[left := backward[right]][right := backward[left]];
      left, right := left + 1, right - 1;
    }
    forall i | 0 <= i < |ops| ensures |Reverse(ops)| == |ops| && backward[i] == Reverse(ops)[i] {
      ReversedAt(ops, i);
      assert right < i ==> backward[|ops| - 1 - (|ops| - 1 - i)] == ops[|ops| - 1 - i];
    }
    assert |backward| == |Reverse(ops)| by {
      if ops != [] { ReversedAt(ops, 0); }
    }
  }
}

/**
 Edit scripts over lines, and the exact distance between two line sequences.

 A script is what the diff engine prints: context lines (Keep), removed lines
 (Del) and added lines (Ins).  `Distance` is defined on the unbounded quadrant,
 not only on the |a| x |b| grid, because the Myers search steps outside the grid.
 */
module EditScript {

  datatype DiffOp<T> = Keep(line: T) | Del(line: T) | Ins(line: T)

  /** The lines of the first text that a script mentions. */
  function OldLines<T>(ops: seq<DiffOp<T>>): seq<T> {
    if ops == [] then []
    else (if ops[0].Ins? then [] else [ops[0].line]) + OldLines(ops[1..])
  }

  /** The lines of the second text that a script mentions. */
  function NewLines<T>(ops: seq<DiffOp<T>>): seq<T> {
    if ops == [] then []
    else (if ops[0].Del? then [] else [ops[0].line]) + NewLines(ops[1..])
  }

  /** The lines a script leaves alone. */
  function KeptLines<T>(ops: seq<DiffOp<T>>): seq<T> {
    if ops == [] then []
    else (if ops[0].Keep? then [ops[0].line] else []) + KeptLines(ops[1..])
  }

  /** Number of changed lines: removals plus additions. */
  function Changes<T>(ops: seq<DiffOp<T>>): nat {
    if ops == [] then 0
    else (if ops[0].Keep? then 0 else 1) + Changes(ops[1..])
  }

  /** `ops` turns `a` into `b`. */
  predicate Transforms<T(==)>(ops: seq<DiffOp<T>>, a: seq<T>, b: seq<T>) {
    OldLines(ops) == a && NewLines(ops) == b
  }

  lemma {:induction false} OldConcat<T>(s: seq<DiffOp<T>>, t: seq<DiffOp<T>>)
    ensures OldLines(s + t) == OldLines(s) + OldLines(t)
  {
    if s == [] {
      assert s + t == t;
    } else {
      assert (s + t)[0] == s[0] && (s + t)[1..] == s[1..] + t;
      OldConcat(s[1..], t);
    }
  }

  lemma {:induction false} NewConcat<T>(s: seq<DiffOp<T>>, t: seq<DiffOp<T>>)
    ensures NewLines(s + t) == NewLines(s) + NewLines(t)
  {
    if s == [] {
      assert s + t == t;
    } else {
      assert (s + t)[0] == s[0] && (s + t)[1..] == s[1..] + t;
      NewConcat(s[1..], t);
    }
  }

  lemma {:induction false} ChangesConcat<T>(s: seq<DiffOp<T>>, t: seq<DiffOp<T>>)
    ensures Changes(s + t) == Changes(s) + Changes(t)
  {
    if s == [] {
      assert s + t == t;
    } else {
      assert (s + t)[0] == s[0] && (s + t)[1..] == s[1..] + t;
      ChangesConcat(s[1..], t);
    }
  }

  lemma ScriptConcat<T>(s: seq<DiffOp<T>>, t: seq<DiffOp<T>>)
    ensures OldLines(s + t) == OldLines(s) + OldLines(t)
    ensures NewLines(s + t) == NewLines(s) + NewLines(t)
    ensures Changes(s + t) == Changes(s) + Changes(t)
  {
    hide *;
    OldConcat(s, t);
    NewConcat(s, t);
    ChangesConcat(s, t);
  }

  /** A script grown by one operation. */
  lemma Appended<T>(ops: seq<DiffOp<T>>, op: DiffOp<T>)
    ensures OldLines(ops + [op]) == OldLines(ops) + if op.Ins? then [] else [op.line]
    ensures NewLines(ops + [op]) == NewLines(ops) + if op.Del? then [] else [op.line]
    ensures Changes(ops + [op]) == Changes(ops) + if op.Keep? then 0 else 1
  {
    ScriptConcat(ops, [op]);
  }

  lemma {:induction false} ChangesCountKept<T>(ops: seq<DiffOp<T>>)
    ensures |OldLines(ops)| + |NewLines(ops)| == Changes(ops) + 2 * |KeptLines(ops)|
  {
    if ops != [] {
      ChangesCountKept(ops[1..]);
    }
  }

  // ---------------------------------------------------------------- distance

  /** The lines left of and above the point (x, y) exist and agree. */
  predicate Match<T(==)>(a: seq<T>, b: seq<T>, x: nat, y: nat) {
    x < |a| && y < |b| && a[x] == b[y]
  }

  /** Fewest insertions and deletions from the origin to the point (x, y). */
  ghost function Distance<T>(a: seq<T>, b: seq<T>, x: nat, y: nat): nat {
    if x == 0 then y
    else if y == 0 then x
    else if Match(a, b, x - 1, y - 1) then Distance(a, b, x - 1, y - 1)
    else 1 + Min(Distance(a, b, x - 1, y), Distance(a, b, x, y - 1))
  }

  /** One step of the distance: free along a match, otherwise one edit. */
  lemma DistanceStep<T>(a: seq<T>, b: seq<T>, x: nat, y: nat)
    ensures Distance(a, b, 0, 0) == 0
    ensures Distance(a, b, x + 1, y + 1) ==
      if Match(a, b, x, y) then Distance(a, b, x, y)
      else 1 + Min(Distance(a, b, x, y + 1), Distance(a, b, x + 1, y))
  {
  }

  function Min(i: nat, j: nat): nat { if i < j then i else j }

  lemma {:induction false} DistanceBounds<T>(a: seq<T>, b: seq<T>, x: nat, y: nat)
    ensures x - y <= Distance(a, b, x, y) && y - x <= Distance(a, b, x, y)
    ensures Distance(a, b, x, y) <= x + y
  {
    if x > 0 && y > 0 {
      if Match(a, b, x - 1, y - 1) {
        DistanceBounds(a, b, x - 1, y - 1);
      } else {
        DistanceBounds(a, b, x - 1, y);
        DistanceBounds(a, b, x, y - 1);
      }
    }
  }

  /** The distance splits into deletions and insertions, which fixes its parity. */
  lemma {:induction false} DistanceSplits<T>(a: seq<T>, b: seq<T>, x: nat, y: nat) returns (deletions: nat)
    ensures 2 * deletions == Distance(a, b, x, y) + x - y && deletions <= Distance(a, b, x, y)
  {
    DistanceBounds(a, b, x, y);
    if x == 0 || y == 0 {
      deletions := x;
    } else if Match(a, b, x - 1, y - 1) {
      deletions := DistanceSplits(a, b, x - 1, y - 1);
    } else if Distance(a, b, x - 1, y) < Distance(a, b, x, y - 1) {
      deletions := DistanceSplits(a, b, x - 1, y);
      deletions := deletions + 1;
    } else {
      deletions := DistanceSplits(a, b, x, y - 1);
    }
  }

  /** Neighbouring points differ by at most one edit. */
  lemma {:induction false} DistanceNeighbours<T>(a: seq<T>, b: seq<T>, x: nat, y: nat)
    ensures Distance(a, b, x + 1, y) <= Distance(a, b, x, y) + 1
    ensures Distance(a, b, x, y) <= Distance(a, b, x + 1, y) + 1
    ensures Distance(a, b, x, y + 1) <= Distance(a, b, x, y) + 1
    ensures Distance(a, b, x, y) <= Distance(a, b, x, y + 1) + 1
    decreases x + y
  {
    if y > 0 { DistanceNeighbours(a, b, x, y - 1); }
    if x > 0 { DistanceNeighbours(a, b, x - 1, y); }
  }

  /** Distance never falls along a diagonal. */
  lemma {:induction false} DistanceDiagonal<T>(a: seq<T>, b: seq<T>, x: nat, y: nat, j: nat)
    ensures Distance(a, b, x, y) <= Distance(a, b, x + j, y + j)
    decreases j
  {
    if j > 0 {
      DistanceDiagonal(a, b, x, y, j - 1);
      DistanceNeighbours(a, b, x + j - 1, y + j - 1);
    }
  }

  lemma {:induction false} DistanceRightOf<T>(a: seq<T>, b: seq<T>, x: nat, y: nat)
    requires x >= |a|
    ensures Distance(a, b, x, y) == Distance(a, b, |a|, y) + (x - |a|)
    decreases x + y
  {
    if x > |a| && y > 0 {
      DistanceRightOf(a, b, x - 1, y);
      DistanceRightOf(a, b, x, y - 1);
      DistanceNeighbours(a, b, |a|, y - 1);
    }
  }

  lemma {:induction false} DistanceBelow<T>(a: seq<T>, b: seq<T>, x: nat, y: nat)
    requires y >= |b|
    ensures Distance(a, b, x, y) == Distance(a, b, x, |b|) + (y - |b|)
    decreases x + y
  {
    if y > |b| && x > 0 {
      DistanceBelow(a, b, x, y - 1);
      DistanceBelow(a, b, x - 1, y);
      DistanceNeighbours(a, b, x - 1, |b|);
    }
  }

  /** Past the corner every further step costs one edit. */
  lemma DistanceBeyondCorner<T>(a: seq<T>, b: seq<T>, x: nat, y: nat)
    requires x >= |a| && y >= |b|
    ensures Distance(a, b, x, y) == Distance(a, b, |a|, |b|) + (x - |a|) + (y - |b|)
  {
    DistanceRightOf(a, b, x, y);
    DistanceBelow(a, b, |a|, y);
  }

  /** No script from a prefix of `a` to a prefix of `b` beats the distance. */
  lemma {:induction false} DistanceIsLowerBound<T>(a: seq<T>, b: seq<T>, ops: seq<DiffOp<T>>, x: nat, y: nat)
    requires x <= |a| && y <= |b| && Transforms(ops, a[..x], b[..y])
    ensures Distance(a, b, x, y) <= Changes(ops)
    decreases |ops|
  {
    if ops != [] {
      var init, last := ops[..|ops| - 1], ops[|ops| - 1];
      assert ops == init + [last];
      ScriptConcat(init, [last]);
      assert OldLines([last]) == if last.Ins? then [] else [last.line];
      assert NewLines([last]) == if last.Del? then [] else [last.line];
      assert Changes([last]) == if last.Keep? then 0 else 1;
      match last
      case Keep(line) =>
        assert a[..x][..x - 1] == a[..x - 1] == OldLines(init) && a[..x][x - 1] == line;
        assert b[..y][..y - 1] == b[..y - 1] == NewLines(init) && b[..y][y - 1] == line;
        DistanceIsLowerBound(a, b, init, x - 1, y - 1);
      case Del(line) =>
        assert a[..x][..x - 1] == a[..x - 1] == OldLines(init);
        DistanceIsLowerBound(a, b, init, x - 1, y);
        DistanceNeighbours(a, b, x - 1, y);
      case Ins(line) =>
        assert b[..y][..y - 1] == b[..y - 1] == NewLines(init);
        DistanceIsLowerBound(a, b, init, x, y - 1);
        DistanceNeighbours(a, b, x, y - 1);
    }
  }

  /** Among all scripts with the same effect, none changes fewer lines. */
  ghost predicate Shortest<T(!new)>(ops: seq<DiffOp<T>>) {
    forall other | Transforms(other, OldLines(ops), NewLines(ops)) :: Changes(ops) <= Changes(other)
  }

  // ------------------------------------------------------ common subsequences

  predicate Subsequence<T(==)>(c: seq<T>, a: seq<T>) {
    if c == [] then true
    else if a == [] then false
    else if c[0] == a[0] && Subsequence(c[1..], a[1..]) then true
    else Subsequence(c, a[1..])
  }

  /** Among all common subsequences of the two texts, none is longer than what the script keeps. */
  ghost predicate KeepsMost<T(!new)>(ops: seq<DiffOp<T>>) {
    forall c | Subsequence(c, OldLines(ops)) && Subsequence(c, NewLines(ops)) :: |c| <= |KeptLines(ops)|
  }

  /** One more line on one side, or the same line on both. */
  lemma SubsequenceGrows<T>(c: seq<T>, x: T, a: seq<T>)
    requires Subsequence(c, a)
    ensures Subsequence(c, [x] + a) && Subsequence([x] + c, [x] + a)
    ensures [] + c == c
  {
    assert ([x] + a)[1..] == a && ([x] + c)[1..] == c;
  }

  lemma {:induction false} KeptIsCommon<T>(ops: seq<DiffOp<T>>)
    ensures Subsequence(KeptLines(ops), OldLines(ops))
    ensures Subsequence(KeptLines(ops), NewLines(ops))
  {
    if ops != [] {
      hide Subsequence;
      KeptIsCommon(ops[1..]);
      SubsequenceGrows(KeptLines(ops[1..]), ops[0].line, OldLines(ops[1..]));
      SubsequenceGrows(KeptLines(ops[1..]), ops[0].line, NewLines(ops[1..]));
      assert [] + OldLines(ops[1..]) == OldLines(ops[1..]) && [] + NewLines(ops[1..]) == NewLines(ops[1..]);
    }
  }

  /** Every common subsequence is what some script keeps. */
  lemma {:induction false} CommonIsKept<T>(c: seq<T>, a: seq<T>, b: seq<T>) returns (ops: seq<DiffOp<T>>)
    requires Subsequence(c, a) && Subsequence(c, b)
    ensures Transforms(ops, a, b) && KeptLines(ops) == c
    decreases |a| + |b|
  {
    if a == [] && b == [] {
      ops := [];
    } else if a != [] && !(c != [] && c[0] == a[0] && Subsequence(c[1..], a[1..])) {
      var rest := CommonIsKept(c, a[1..], b);
      ops := [Del(a[0])] + rest;
      assert ops[1..] == rest;
    } else if b != [] && !(c != [] && c[0] == b[0] && Subsequence(c[1..], b[1..])) {
      var rest := CommonIsKept(c, a, b[1..]);
      ops := [Ins(b[0])] + rest;
      assert ops[1..] == rest;
    } else {
      var rest := CommonIsKept(c[1..], a[1..], b[1..]);
      ops := [Keep(a[0])] + rest;
      assert ops[1..] == rest;
    }
  }
}

/**
 Grouping a script into hunks, the numbers a hunk header carries, and what a
 patch program makes of them.
 */
module Hunks {
  import opened EditScript

  const CONTEXT: nat := 3

  /** Positions `start` to `end` of a script, both included. */
  datatype Hunk = Hunk(start: nat, end: nat)

  predicate Changed<T>(ops: seq<DiffOp<T>>, c: int) { 0 <= c < |ops| && !ops[c].Keep? }

  predicate Near(c: int, j: int, context: nat) { c - context <= j <= c + context }

  /** Position `j` lies within `context` of a change before position `bound`. */
  ghost predicate Wanted<T>(ops: seq<DiffOp<T>>, context: nat, bound: nat, j: int) {
    exists c | 0 <= c < bound :: Changed(ops, c) && Near(c, j, context)
  }

  predicate Inside(hunks: seq<Hunk>, i: int, j: int) { 0 <= i < |hunks| && hunks[i].start <= j <= hunks[i].end }

  ghost predicate Shown(hunks: seq<Hunk>, j: int) { exists i :: Inside(hunks, i, j) }

  /** Hunks lie in order, each is nonempty, and at least one position separates two of them. */
  predicate Separated(hunks: seq<Hunk>, size: nat) {
    && (forall i | 0 <= i < |hunks| :: hunks[i].start <= hunks[i].end < size)
    && (forall i, k | 0 <= i < k < |hunks| :: hunks[i].end + 1 < hunks[k].start)
  }

  /** Separated hunks that show exactly the changes and what is near them. */
  ghost predicate Groups<T>(ops: seq<DiffOp<T>>, context: nat, bound: nat, hunks: seq<Hunk>) {
    && Separated(hunks, |ops|)
    && (forall j | 0 <= j < |ops| :: Shown(hunks, j) <==> Wanted(ops, context, bound, j))
  }

  lemma WantedGrows<T>(ops: seq<DiffOp<T>>, context: nat, index: nat, j: int)
    requires Changed(ops, index)
    ensures Wanted(ops, context, index + 1, j) <==> Wanted(ops, context, index, j) || Near(index, j, context)
  {
  }

  /** The window around the next change starts no earlier, and ends no earlier, than the last hunk. */
  lemma NextWindow<T>(ops: seq<DiffOp<T>>, context: nat, index: nat, hunks: seq<Hunk>)
    requires Changed(ops, index) && Groups(ops, context, index, hunks) && hunks != []
    ensures Separated(hunks, |ops|)
    ensures var last := hunks[|hunks| - 1]; last.end <= index + context && (last.start == 0 || last.start <= index - context)
  {
    var last := |hunks| - 1;
    var from := hunks[last].start;
    assert Inside(hunks, last, hunks[last].end) && Inside(hunks, last, from);
    assert Wanted(ops, context, index, hunks[last].end) && Wanted(ops, context, index, from);
    if from > 0 {
      var c :| 0 <= c < index && Changed(ops, c) && Near(c, from, context);
      assert Near(c, from - 1, context) ==> Wanted(ops, context, index, from - 1);
    }
  }

  /** Adding the window around a change, to the last hunk or as a new one, adds what is near that change. */
  lemma WindowIsAdded<T>(ops: seq<DiffOp<T>>, context: nat, index: nat, before: seq<Hunk>, hunks: seq<Hunk>,
                         start: nat, end: nat)
    requires Changed(ops, index) && Groups(ops, context, index, before) && Separated(hunks, |ops|)
    requires forall j | 0 <= j < |ops| :: Near(index, j, context) <==> start <= j <= end
    requires || hunks == before + [Hunk(start, end)]
             || (before != [] && before[|before| - 1].start <= start <= before[|before| - 1].end + 1
                 && before[|before| - 1].end <= end
                 && hunks == before[|before| - 1 := Hunk(before[|before| - 1].start, end)])
    ensures Groups(ops, context, index + 1, hunks)
  {
    hide Wanted;
    forall j | 0 <= j < |ops| ensures Shown(hunks, j) <==> Wanted(ops, context, index + 1, j) {
      WantedGrows(ops, context, index, j);
      if Near(index, j, context) {
        assert Inside(hunks, |hunks| - 1, j);
      } else {
        if Shown(before, j) {
          var i :| Inside(before, i, j);
          assert Inside(hunks, i, j);
        }
        if Shown(hunks, j) {
          var i :| Inside(hunks, i, j);
          assert Inside(before, i, j);
        }
      }
    }
  }

  /** Extend the last hunk, or open a new one, around the change at `index`. */
  method AddChange<T>(ops: seq<DiffOp<T>>, context: nat, index: nat, before: seq<Hunk>) returns (hunks: seq<Hunk>)
    requires Changed(ops, index) && Groups(ops, context, index, before)
    ensures Groups(ops, context, index + 1, hunks)
  {
    hide Groups;
    hunks := before;
    var start := index - context;
    if start < 0 { start := 0; }
    var end := index + context;
    if end >= |ops| { end := |ops| - 1; }
    var last := |hunks| - 1;
    if hunks != [] {
      NextWindow(ops, context, index, hunks);
    }
    if |hunks| > 0 && start <= hunks[last].end + 1 {
      if end > hunks[last].end {
        hunks := hunks[last := hunks[last].(end := end)];
      }
    } else {
      hunks := hunks + [Hunk(start, end)];
    }
    WindowIsAdded(ops, context, index, before, hunks, start, end);
  }

  method ContextualHunks<T>(ops: seq<DiffOp<T>>, context: nat) returns (hunks: seq<Hunk>)
    ensures Groups(ops, context, |ops|, hunks)
  {
    hunks := [];
    for index := 0 to |ops|
      invariant Groups(ops, context, index, hunks)
    {
      if !ops[index].Keep? {
        hunks := AddChange(ops, context, index, hunks);
      }
    }
  }

  /** A change near a shown position lies in the same hunk. */
  lemma NearbyChangeIsInside<T>(ops: seq<DiffOp<T>>, context: nat, hunks: seq<Hunk>, i: nat, j: int, c: int)
    requires Groups(ops, context, |ops|, hunks) && Inside(hunks, i, j) && Changed(ops, c) && Near(c, j, context)
    ensures Inside(hunks, i, c)
  {
    var beside := if c > hunks[i].end then hunks[i].end + 1 else hunks[i].start - 1;
    if !Inside(hunks, i, c) {
      assert Near(c, beside, context);
      assert Wanted(ops, context, |ops|, beside);
      assert false;
    }
  }

  /** Every hunk begins and ends within `context` positions of a change that it shows. */
  lemma HunkEdgesAreNearChanges<T>(ops: seq<DiffOp<T>>, context: nat, hunks: seq<Hunk>, i: nat)
    requires Groups(ops, context, |ops|, hunks) && i < |hunks|
    ensures exists c :: Changed(ops, c) && Inside(hunks, i, c) && Near(c, hunks[i].start, context)
    ensures exists c :: Changed(ops, c) && Inside(hunks, i, c) && Near(c, hunks[i].end, context)
  {
    var from, to := hunks[i].start, hunks[i].end;
    assert Inside(hunks, i, from) && Inside(hunks, i, to);
    assert Wanted(ops, context, |ops|, from) && Wanted(ops, context, |ops|, to);
    var c :| Changed(ops, c) && Near(c, from, context);
    var e :| Changed(ops, e) && Near(e, to, context);
    NearbyChangeIsInside(ops, context, hunks, i, from, c);
    NearbyChangeIsInside(ops, context, hunks, i, to, e);
  }

  // ------------------------------------------------------------ hunk headers

  datatype HunkText<T> = HunkText(oldStart: nat, oldCount: nat, newStart: nat, newCount: nat, body: seq<DiffOp<T>>)

  /** Line numbers count from 1; an empty side is numbered by the line before it. */
  function StartLine(before: nat, count: nat): nat { if count == 0 then before else before + 1 }

  /** What a hunk says about the lines it covers. */
  function Describe<T>(ops: seq<DiffOp<T>>, h: Hunk): HunkText<T>
    requires h.start <= h.end < |ops|
  {
    var body := ops[h.start..h.end + 1];
    var oldCount, newCount := |OldLines(body)|, |NewLines(body)|;
    HunkText(StartLine(|OldLines(ops[..h.start])|, oldCount), oldCount,
             StartLine(|NewLines(ops[..h.start])|, newCount), newCount, body)
  }

  function DescribeAll<T>(ops: seq<DiffOp<T>>, hunks: seq<Hunk>): seq<HunkText<T>>
    requires Separated(hunks, |ops|)
  {
    seq(|hunks|, i requires 0 <= i < |hunks| => Describe(ops, hunks[i]))
  }

  /** One more operation moves both line counts on by what it mentions. */
  lemma CountsStep<T>(ops: seq<DiffOp<T>>, i: nat, j: nat)
    requires i <= j < |ops|
    ensures |OldLines(ops[i..j + 1])| == |OldLines(ops[i..j])| + if ops[j].Ins? then 0 else 1
    ensures |NewLines(ops[i..j + 1])| == |NewLines(ops[i..j])| + if ops[j].Del? then 0 else 1
    ensures Changes(ops[i..j + 1]) == Changes(ops[i..j]) + if ops[j].Keep? then 0 else 1
  {
    assert ops[i..j + 1] == ops[i..j] + [ops[j]];
    Appended(ops[i..j], ops[j]);
  }

  /** The number of changed lines, counted as the printer counts them. */
  method CountChanges<T>(ops: seq<DiffOp<T>>) returns (changed: nat)
    ensures changed == Changes(ops)
  {
    changed := 0;
    for index := 0 to |ops|
      invariant changed == Changes(ops[0..index])
    {
      CountsStep(ops, 0, index);
      if ops[index].Ins? || ops[index].Del? {
        changed := changed + 1;
      }
    }
    assert ops[0..|ops|] == ops;
  }

  /** The line numbers in force before each operation. */
  method LineNumbers<T>(ops: seq<DiffOp<T>>) returns (oldBefore: array<nat>, newBefore: array<nat>)
    ensures oldBefore.Length == newBefore.Length == |ops|
    ensures forall i | 0 <= i < |ops| ::
        oldBefore[i] == |OldLines(ops[..i])| + 1 && newBefore[i] == |NewLines(ops[..i])| + 1
  {
    oldBefore, newBefore := new nat[|ops|], new nat[|ops|];
    var oldLine, newLine := 1, 1;
    for index := 0 to |ops|
      invariant oldLine == |OldLines(ops[..index])| + 1 && newLine == |NewLines(ops[..index])| + 1
      invariant forall i | 0 <= i < index ::
          oldBefore[i] == |OldLines(ops[..i])| + 1 && newBefore[i] == |NewLines(ops[..i])| + 1
    {
      oldBefore[index], newBefore[index] := oldLine, newLine;
      CountsStep(ops, 0, index);
      assert ops[0..index] == ops[..index] && ops[0..index + 1] == ops[..index + 1];
      match ops[index]
      case Keep(_) => oldLine, newLine := oldLine + 1, newLine + 1;
      case Del(_) => oldLine := oldLine + 1;
      case Ins(_) => newLine := newLine + 1;
    }
  }

  /** The header of one hunk from the recorded line numbers. */
  method DescribeHunk<T>(ops: seq<DiffOp<T>>, h: Hunk, oldBefore: nat, newBefore: nat) returns (text: HunkText<T>)
    requires h.start <= h.end < |ops|
    requires oldBefore == |OldLines(ops[..h.start])| + 1 && newBefore == |NewLines(ops[..h.start])| + 1
    ensures text == Describe(ops, h)
  {
    var oldStart: int, newStart: int := oldBefore, newBefore;
    var oldCount, newCount := 0, 0;
    for j := h.start to h.end + 1
      invariant oldCount == |OldLines(ops[h.start..j])| && newCount == |NewLines(ops[h.start..j])|
    {
      CountsStep(ops, h.start, j);
      match ops[j]
      case Keep(_) => oldCount, newCount := oldCount + 1, newCount + 1;
      case Del(_) => oldCount := oldCount + 1;
      case Ins(_) => newCount := newCount + 1;
    }
    if oldCount == 0 {
      oldStart := oldStart - 1;
      if oldStart < 0 { oldStart := 0; }
    }
    if newCount == 0 {
      newStart := newStart - 1;
      if newStart < 0 { newStart := 0; }
    }
    text := HunkText(oldStart, oldCount, newStart, newCount, ops[h.start..h.end + 1]);
  }

  // ---------------------------------------------------------------- patching

  datatype Patched<T> = Patched(lines: seq<T>) | Rejected

  /** Where a hunk applies: a nonempty side starts at its first line, an empty one after the numbered line. */
  function Position(start: nat, count: nat): int { if count == 0 then start else start - 1 }

  /**
   A strict patch program: hunks in order, old lines must match exactly, and the
   numbers of both sides must agree with the lines read and written so far.
   */
  function Patch<T(==)>(old': seq<T>, hunks: seq<HunkText<T>>, read: nat, written: nat): Patched<T>
    requires read <= |old'|
    decreases |hunks|
  {
    if hunks == [] then Patched(old'[read..])
    else
      var h := hunks[0];
      var at := Position(h.oldStart, h.oldCount);
      if read <= at && at + h.oldCount <= |old'|
         && old'[at..at + h.oldCount] == OldLines(h.body)
         && h.newCount == |NewLines(h.body)|
         && written + (at - read) == Position(h.newStart, h.newCount)
      then
        var rest := Patch(old', hunks[1..], at + h.oldCount, written + (at - read) + h.newCount);
        if rest.Rejected? then Rejected else Patched(old'[read..at] + NewLines(h.body) + rest.lines)
      else Rejected
  }

  /** Operations outside every hunk are context, alike in both texts. */
  lemma {:induction false} ContextIsCommon<T>(ops: seq<DiffOp<T>>)
    requires forall j | 0 <= j < |ops| :: ops[j].Keep?
    ensures OldLines(ops) == NewLines(ops) && Changes(ops) == 0
  {
    if ops != [] {
      ContextIsCommon(ops[1..]);
    }
  }

  lemma Unchanged<T>(ops: seq<DiffOp<T>>, hunks: seq<Hunk>, context: nat, j: int)
    requires Groups(ops, context, |ops|, hunks) && 0 <= j < |ops| && !Shown(hunks, j)
    ensures ops[j].Keep?
  {
    assert ops[j].Keep? || (Changed(ops, j) && Near(j, j, context));
  }

  /** Where the lines of a part of the script lie in the whole texts. */
  lemma PartOfScript<T>(ops: seq<DiffOp<T>>, i: nat, j: nat)
    requires i <= j <= |ops|
    ensures |OldLines(ops[..i])| <= |OldLines(ops[..j])| <= |OldLines(ops)|
    ensures |NewLines(ops[..i])| <= |NewLines(ops[..j])| <= |NewLines(ops)|
    ensures OldLines(ops)[|OldLines(ops[..i])|..|OldLines(ops[..j])|] == OldLines(ops[i..j])
    ensures NewLines(ops)[|NewLines(ops[..i])|..|NewLines(ops[..j])|] == NewLines(ops[i..j])
    ensures |OldLines(ops[i..j])| == |OldLines(ops[..j])| - |OldLines(ops[..i])|
    ensures |NewLines(ops[i..j])| == |NewLines(ops[..j])| - |NewLines(ops[..i])|
  {
    hide *;
    assert ops == ops[..j] + ops[j..];
    ScriptConcat(ops[..j], ops[j..]);
    assert ops[..j] == ops[..i] + ops[i..j];
    ScriptConcat(ops[..i], ops[i..j]);
  }

  lemma TailOfScript<T>(ops: seq<DiffOp<T>>, i: nat, j: nat)
    requires i <= j <= |ops|
    ensures NewLines(ops[i..]) == NewLines(ops[i..j]) + NewLines(ops[j..])
  {
    hide *;
    assert ops[i..] == ops[i..j] + ops[j..];
    ScriptConcat(ops[i..j], ops[j..]);
  }

  /** The gap before a hunk, or after the last one, is the same in both texts. */
  lemma GapIsContext<T>(ops: seq<DiffOp<T>>, context: nat, hunks: seq<Hunk>, k: nat, p: nat, q: nat)
    requires Groups(ops, context, |ops|, hunks) && k <= |hunks|
    requires p == if k == 0 then 0 else hunks[k - 1].end + 1
    requires q == if k == |hunks| then |ops| else hunks[k].start
    ensures p <= q <= |ops| && Separated(hunks, |ops|)
    ensures OldLines(ops[p..q]) == NewLines(ops[p..q]) && Changes(ops[p..q]) == 0
  {
    forall j | p <= j < q ensures ops[j].Keep? {
      assert !Shown(hunks, j);
      Unchanged(ops, hunks, context, j);
    }
    ContextIsCommon(ops[p..q]);
  }

  /** One hunk of a patch: copy the gap, then write the hunk's new lines. */
  lemma PatchOneHunk<T>(old': seq<T>, hunks: seq<HunkText<T>>, read: nat, written: nat, at: nat, tail: seq<T>)
    requires hunks != [] && read <= at && at + hunks[0].oldCount <= |old'|
    requires at == Position(hunks[0].oldStart, hunks[0].oldCount)
    requires old'[at..at + hunks[0].oldCount] == OldLines(hunks[0].body)
    requires hunks[0].newCount == |NewLines(hunks[0].body)|
    requires written + (at - read) == Position(hunks[0].newStart, hunks[0].newCount)
    requires Patch(old', hunks[1..], at + hunks[0].oldCount, written + (at - read) + hunks[0].newCount) == Patched(tail)
    ensures Patch(old', hunks, read, written) == Patched(old'[read..at] + NewLines(hunks[0].body) + tail)
  {
  }

  /** A described hunk sits right after everything before it, in both texts. */
  lemma HunkPosition<T>(ops: seq<DiffOp<T>>, h: Hunk)
    requires h.start <= h.end < |ops|
    ensures var d := Describe(ops, h); var e := h.end + 1;
      && d.body == ops[h.start..e] && d.newCount == |NewLines(d.body)|
      && Position(d.oldStart, d.oldCount) == |OldLines(ops[..h.start])|
      && Position(d.newStart, d.newCount) == |NewLines(ops[..h.start])|
      && |OldLines(ops[..h.start])| + d.oldCount == |OldLines(ops[..e])| <= |OldLines(ops)|
      && |NewLines(ops[..h.start])| + d.newCount == |NewLines(ops[..e])|
      && OldLines(ops)[|OldLines(ops[..h.start])|..|OldLines(ops[..e])|] == OldLines(d.body)
  {
    hide OldLines, NewLines;
    PartOfScript(ops, h.start, h.end + 1);
  }

  /** What a patch has read and written, and the new text still to come, at position `p` of the script. */
  ghost predicate PatchesFrom<T>(ops: seq<DiffOp<T>>, hunks: seq<HunkText<T>>, p: nat)
    requires p <= |ops|
  {
    && |OldLines(ops[..p])| <= |OldLines(ops)|
    && Patch(OldLines(ops), hunks, |OldLines(ops[..p])|, |NewLines(ops[..p])|) == Patched(NewLines(ops[p..]))
  }

  lemma PatchOver<T>(ops: seq<DiffOp<T>>, h: Hunk, hunks: seq<HunkText<T>>, p: nat)
    requires p <= h.start <= h.end < |ops| && OldLines(ops[p..h.start]) == NewLines(ops[p..h.start])
    requires hunks != [] && hunks[0] == Describe(ops, h) && PatchesFrom(ops, hunks[1..], h.end + 1)
    ensures PatchesFrom(ops, hunks, p)
  {
    hide OldLines, NewLines, Describe, Position, StartLine, Patch;
    var q, e := h.start, h.end + 1;
    PartOfScript(ops, p, q);
    HunkPosition(ops, h);
    TailOfScript(ops, p, q);
    TailOfScript(ops, q, e);
    PatchOneHunk(OldLines(ops), hunks, |OldLines(ops[..p])|, |NewLines(ops[..p])|, |OldLines(ops[..q])|, NewLines(ops[e..]));
  }

  lemma PatchEnds<T>(ops: seq<DiffOp<T>>, p: nat)
    requires p <= |ops| && OldLines(ops[p..|ops|]) == NewLines(ops[p..|ops|])
    ensures PatchesFrom(ops, [], p)
  {
    hide OldLines, NewLines;
    PartOfScript(ops, p, |ops|);
    assert ops[..|ops|] == ops && ops[p..|ops|] == ops[p..];
  }

  /** Patching from the end of hunk `k - 1` on writes the rest of the new text. */
  lemma {:induction false} PatchFollowsScript<T>(ops: seq<DiffOp<T>>, context: nat, hunks: seq<Hunk>, k: nat, p: nat)
    requires Groups(ops, context, |ops|, hunks) && k <= |hunks|
    requires p == if k == 0 then 0 else hunks[k - 1].end + 1
    ensures p <= |ops| && PatchesFrom(ops, DescribeAll(ops, hunks)[k..], p)
    decreases |hunks| - k
  {
    hide Groups, OldLines, NewLines, Patch;
    var q := if k == |hunks| then |ops| else hunks[k].start;
    GapIsContext(ops, context, hunks, k, p, q);
    var rest := DescribeAll(ops, hunks)[k..];
    if k < |hunks| {
      PatchFollowsScript(ops, context, hunks, k + 1, hunks[k].end + 1);
      assert rest[1..] == DescribeAll(ops, hunks)[k + 1..];
      PatchOver(ops, hunks[k], rest, p);
    } else {
      assert rest == [];
      PatchEnds(ops, p);
    }
  }

  /** Patching the old text with the described hunks gives the new text. */
  lemma PatchGivesNewText<T>(ops: seq<DiffOp<T>>, context: nat, hunks: seq<Hunk>)
    requires Groups(ops, context, |ops|, hunks)
    ensures Patch(OldLines(ops), DescribeAll(ops, hunks), 0, 0) == Patched(NewLines(ops))
  {
    PatchFollowsScript(ops, context, hunks, 0, 0);
    assert ops[0..] == ops;
    assert DescribeAll(ops, hunks)[0..] == DescribeAll(ops, hunks);
  }
}

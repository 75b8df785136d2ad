/**
 Every line number the document parser reports indexes the very line it stands
 beside, in the old or the new text.
 */
module DiffLocations {
  import opened Text
  import opened EditScript
  import opened Hunks
  import opened DiffText
  import opened DiffReaders
  import opened DiffRoundTrip

  /** Script positions in the order the document lists them; -1 stands for a hunk header. */
  function Positions(hunks: seq<Hunk>): seq<int> {
    if hunks == [] then [] else HunkPositions(hunks[0]) + Positions(hunks[1..])
  }

  function HunkPositions(h: Hunk): seq<int> { [-1] + Stretch(h.start, h.end + 1) }

  /** The positions from `i` up to, not including, `e`. */
  function Stretch(i: nat, e: nat): (s: seq<int>)
    ensures i <= e ==> |s| == e - i && forall k | 0 <= k < |s| :: s[k] == i + k
    decreases e - i
  {
    if i >= e then [] else [i] + Stretch(i + 1, e)
  }

  function KindOf(op: Op): LineKind { match op case Keep(_) => Context case Del(_) => Removed case Ins(_) => Added }

  /** A document line stands for position `j` of the script, with the right line numbers. */
  predicate Locates(ops: seq<Op>, j: int, line: DiffLine)
    requires -1 <= j < |ops|
  {
    if j == -1 then line.kind == HunkHeader
    else
      && line.kind == KindOf(ops[j]) && line.text == OpLine(ops[j])
      && line.hasOld == !ops[j].Ins? && line.hasNew == !ops[j].Del?
      && (line.hasOld ==> line.oldLine == |OldLines(ops[..j])| + 1)
      && (line.hasNew ==> line.newLine == |NewLines(ops[..j])| + 1)
  }

  predicate AllLocated(ops: seq<Op>, positions: seq<int>, lines: seq<DiffLine>) {
    && |positions| == |lines|
    && (forall i | 0 <= i < |positions| :: -1 <= positions[i] < |ops|)
    && (forall i | 0 <= i < |positions| :: Locates(ops, positions[i], lines[i]))
  }

  lemma AllLocatedConcat(ops: seq<Op>, p: seq<int>, l: seq<DiffLine>, p': seq<int>, l': seq<DiffLine>)
    requires AllLocated(ops, p, l) && AllLocated(ops, p', l')
    ensures AllLocated(ops, p + p', l + l')
  {
    hide Locates;
    forall i | 0 <= i < |p + p'| ensures -1 <= (p + p')[i] < |ops| && Locates(ops, (p + p')[i], (l + l')[i]) {
      if i >= |p| {
        assert (p + p')[i] == p'[i - |p|] && (l + l')[i] == l'[i - |p|];
      }
    }
  }

  /** The number in a located line really is the place of its text. */
  lemma LocatedLineIsThere(ops: seq<Op>, j: nat, line: DiffLine)
    requires j < |ops| && Locates(ops, j, line)
    ensures line.text[1..] == ops[j].line
    ensures line.hasOld ==> 1 <= line.oldLine <= |OldLines(ops)| && OldLines(ops)[line.oldLine - 1] == line.text[1..]
    ensures line.hasNew ==> 1 <= line.newLine <= |NewLines(ops)| && NewLines(ops)[line.newLine - 1] == line.text[1..]
    ensures line.hasOld || line.hasNew
  {
    var one := ops[j..j + 1];
    assert one == [ops[j]];
    PartOfScript(ops, j, j + 1);
    assert OldLines([ops[j]]) == if ops[j].Ins? then [] else [ops[j].line];
    assert NewLines([ops[j]]) == if ops[j].Del? then [] else [ops[j].line];
    var (x, y) := (|OldLines(ops[..j])|, |NewLines(ops[..j])|);
    assert !ops[j].Ins? ==> OldLines(ops)[x..x + 1][0] == ops[j].line;
    assert !ops[j].Del? ==> NewLines(ops)[y..y + 1][0] == ops[j].line;
  }

  /** The reader knows where it is in a side as soon as that side has lines left in the hunk. */
  predicate Tracks(r: Reader, ops: seq<Op>, i: nat, e: nat)
    requires i <= e <= |ops|
  {
    && r.inHunk
    && (OldLines(ops[i..e]) != [] ==> r.oldLine == |OldLines(ops[..i])| + 1)
    && (NewLines(ops[i..e]) != [] ==> r.newLine == |NewLines(ops[..i])| + 1)
  }

  predicate Fits(ops: seq<Op>) { |OldLines(ops)| < MAX_INT && |NewLines(ops)| < MAX_INT }

  lemma TrackStep(r: Reader, ops: seq<Op>, i: nat, e: nat)
    requires i < e <= |ops| && Tracks(r, ops, i, e) && Fits(ops) && !HeaderLike(ops[i])
    ensures Locates(ops, i, ReadOp(r, ops[i]).0) && Tracks(ReadOp(r, ops[i]).1, ops, i + 1, e)
  {
    hide HeaderLike, OpLine, OldLines, NewLines;
    CountsStep(ops, 0, i);
    assert ops[0..i] == ops[..i] && ops[0..i + 1] == ops[..i + 1];
    assert ops[i..e] == [ops[i]] + ops[i + 1..e];
    ScriptConcat([ops[i]], ops[i + 1..e]);
    SingleLinesOf(ops[i]);
    PartOfScript(ops, 0, i);
    PartOfScript(ops, 0, i + 1);
    PartOfScript(ops, i, e);
    PartOfScript(ops, i + 1, e);
  }

  lemma SingleLinesOf(op: Op)
    ensures OldLines([op]) == (if op.Ins? then [] else [op.line]) && NewLines([op]) == if op.Del? then [] else [op.line]
  {
  }

  lemma {:induction false} BodyLocated(r: Reader, ops: seq<Op>, i: nat, e: nat)
    requires i <= e <= |ops| && Tracks(r, ops, i, e) && Fits(ops)
    requires NoneHeaderLike(ops)
    ensures AllLocated(ops, Stretch(i, e), ReadLines(r, OpLines(ops[i..e])))
    decreases e - i
  {
    hide Fits, Tracks, Locates, ReadLine, ReadOp, OpLine, HeaderLike;
    if i < e {
      TrackStep(r, ops, i, e);
      PrintedOpReads(r, ops[i]) by { InHunk(r, ops, i, e); }
      var r' := ReadOp(r, ops[i]).1;
      BodyLocated(r', ops, i + 1, e);
      assert ops[i..e][1..] == ops[i + 1..e];
      var lines := OpLines(ops[i..e]);
      assert lines[1..] == OpLines(ops[i + 1..e]);
      var read := ReadLines(r, lines);
      assert read == [ReadOp(r, ops[i]).0] + ReadLines(r', OpLines(ops[i + 1..e]));
      assert AllLocated(ops, [i as int], [ReadOp(r, ops[i]).0]);
      AllLocatedConcat(ops, [i], [ReadOp(r, ops[i]).0], Stretch(i + 1, e), ReadLines(r', OpLines(ops[i + 1..e])));
    }
  }

  lemma InHunk(r: Reader, ops: seq<Op>, i: nat, e: nat)
    requires i <= e <= |ops| && Tracks(r, ops, i, e)
    ensures r.inHunk
  {
  }

  /** A header puts the reader at the start of its hunk. */
  lemma HeaderTracks(r: Reader, ops: seq<Op>, h: Hunk)
    requires h.start <= h.end < |ops| && Fits(ops)
    ensures var (line, r') := ReadLine(r, HeaderLine(Describe(ops, h)));
      line.kind == HunkHeader && Tracks(r', ops, h.start, h.end + 1)
  {
    hide HeaderLine, HeaderRange, OldLines, NewLines, Decimal, Value;
    var d := Describe(ops, h);
    HeaderReads(d);
    ValueOfDecimal(d.oldStart);
    ValueOfDecimal(d.newStart);
    PartOfScript(ops, h.start, h.end + 1);
    PartOfScript(ops, 0, h.start);
    assert ParseNumber(Decimal(d.oldStart)) == d.oldStart by { PartOfScript(ops, h.start, |ops|); }
    assert ParseNumber(Decimal(d.newStart)) == d.newStart;
  }

  lemma OneHunkLocated(r: Reader, ops: seq<Op>, h: Hunk, lines: seq<string>)
    requires h.start <= h.end < |ops| && Fits(ops) && NoneHeaderLike(ops)
    requires lines == [HeaderLine(Describe(ops, h))] + OpLines(Describe(ops, h).body)
    ensures AllLocated(ops, HunkPositions(h), ReadLines(r, lines))
  {
    hide Fits, HeaderLike, Tracks, Describe, HeaderLine, OpLines, ReadLine, Locates;
    var d := Describe(ops, h);
    HeaderTracks(r, ops, h);
    var (line, inside) := ReadLine(r, HeaderLine(d));
    BodyLocated(inside, ops, h.start, h.end + 1);
    BodyOf(ops, h);
    HeaderLocated(ops, line);
    AllLocatedConcat(ops, [-1], [line], Stretch(h.start, h.end + 1), ReadLines(inside, OpLines(d.body)));
    assert lines[1..] == OpLines(d.body);
  }

  lemma SeparatedTail(hunks: seq<Hunk>, size: nat)
    requires Separated(hunks, size) && hunks != []
    ensures Separated(hunks[1..], size)
  {
    var rest := hunks[1..];
    forall i, k | 0 <= i < k < |rest| ensures rest[i].end + 1 < rest[k].start {
      assert rest[i] == hunks[i + 1] && rest[k] == hunks[k + 1];
    }
  }

  lemma FirstHunkFits(ops: seq<Op>, hunks: seq<Hunk>)
    requires Separated(hunks, |ops|) && hunks != []
    ensures hunks[0].start <= hunks[0].end < |ops|
  {
  }

  lemma NothingLocated(r: Reader, ops: seq<Op>)
    ensures AllLocated(ops, [], ReadLines(r, []))
  {
  }

  lemma DescribeAllSplits(ops: seq<Op>, hunks: seq<Hunk>)
    requires Separated(hunks, |ops|) && hunks != []
    ensures Separated(hunks[1..], |ops|)
    ensures DescribeAll(ops, hunks) != [] && DescribeAll(ops, hunks)[0] == Describe(ops, hunks[0])
    ensures DescribeAll(ops, hunks)[1..] == DescribeAll(ops, hunks[1..])
  {
    SeparatedTail(hunks, |ops|);
  }

  lemma {:induction false} HunksLocated(r: Reader, ops: seq<Op>, hunks: seq<Hunk>)
    requires Separated(hunks, |ops|) && Fits(ops) && NoneHeaderLike(ops)
    ensures AllLocated(ops, Positions(hunks), ReadLines(r, HunkLines(DescribeAll(ops, hunks))))
    decreases hunks
  {
    hide Fits, NoneHeaderLike, Describe, HeaderLine, OpLines, Locates, ReadLines, AllLocated, Separated, HunkPositions;
    if hunks == [] {
      NothingLocated(r, ops);
    } else {
      DescribeAllSplits(ops, hunks);
      assert hunks[0].start <= hunks[0].end < |ops| by { FirstHunkFits(ops, hunks); }
      var h := Describe(ops, hunks[0]);
      var first := [HeaderLine(h)] + OpLines(h.body);
      var rest := HunkLines(DescribeAll(ops, hunks[1..]));
      OneHunkLocated(r, ops, hunks[0], first);
      ReadLinesConcat(r, first, rest);
      HunksLocated(After(r, first), ops, hunks[1..]);
      AllLocatedConcat(ops, HunkPositions(hunks[0]), ReadLines(r, first),
                       Positions(hunks[1..]), ReadLines(After(r, first), rest));
    }
  }

  lemma BodyOf(ops: seq<Op>, h: Hunk)
    requires h.start <= h.end < |ops|
    ensures Describe(ops, h).body == ops[h.start..h.end + 1]
  {
  }

  lemma HeaderLocated(ops: seq<Op>, line: DiffLine)
    requires line.kind == HunkHeader
    ensures AllLocated(ops, [-1], [line])
  {
  }

  /** A document begins with the two file headers and may end with the marker. */
  lemma FramedLines(path: string, lines: seq<string>, marked: bool) returns (tail: seq<DiffLine>)
    ensures ReadLines(START, FileHeaders(path) + lines + if marked then [NO_NEWLINE] else [])
         == [Plain(FileHeader, "--- a/" + path), Plain(FileHeader, "+++ b/" + path)] + ReadLines(START, lines) + tail
    ensures tail == if marked then [Plain(NoNewline, NO_NEWLINE)] else []
  {
    hide ReadLines, FileHeaders, After;
    var end := if marked then [NO_NEWLINE] else [];
    var headers := FileHeaders(path);
    HeadersRead(path);
    ReadLinesConcat(START, headers + lines, end);
    ReadLinesConcat(START, headers, lines);
    TailCountsNothing(After(START, headers + lines), end);
    tail := ReadLines(After(START, headers + lines), end);
  }

  /** The document of a printed script: two file headers, then every shown position in place. */
  lemma NumbersIndexTheirLines(path: string, ops: seq<Op>, hunks: seq<Hunk>, marked: bool, diff: string, document: Document)
    requires Groups(ops, CONTEXT, |ops|, hunks) && SingleLines(path, ops) && Fits(ops)
    requires diff == Terminated(Printed(path, DescribeAll(ops, hunks), marked)) && Reads(diff, document)
    requires NoneHeaderLike(ops)
    ensures var n := |Positions(hunks)|;
      && |document.lines| == 2 + n + (if marked then 1 else 0)
      && document.lines[0].kind == document.lines[1].kind == FileHeader
      && AllLocated(ops, Positions(hunks), document.lines[2..2 + n])
      && (marked ==> document.lines[2 + n].kind == NoNewline)
  {
    hide Groups, Split, HunkLines, CountKind, ReadLines, TrimNewline, Terminated, NoneHeaderLike, AllLocated, Positions;
    GroupsAreSeparated(ops, hunks);
    var described := DescribeAll(ops, hunks);
    PrintedIsOneLineEach(path, ops, hunks, marked);
    ReadersSeeThePrintedLines(Printed(path, described, marked));
    var lines := HunkLines(described);
    var tail := FramedLines(path, lines, marked);
    HunksLocated(START, ops, hunks);
    SameLength(ops, Positions(hunks), ReadLines(START, lines));
    assert document.lines[2..2 + |lines|] == ReadLines(START, lines);
  }

  lemma SameLength(ops: seq<Op>, positions: seq<int>, lines: seq<DiffLine>)
    requires AllLocated(ops, positions, lines)
    ensures |positions| == |lines|
  {
  }
}

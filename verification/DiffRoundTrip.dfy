/**
 Printing a diff and reading it back: when the counts survive, and that every
 line number read back indexes the line it stands beside.
 */
module DiffRoundTrip {
  import opened Text
  import opened EditScript
  import opened Hunks
  import opened DiffText
  import opened DiffReaders

  /** A change whose printed line looks like a file header. */
  predicate HeaderLike(op: Op) {
    (op.Del? && HasPrefix(op.line, "-- ")) || (op.Ins? && HasPrefix(op.line, "++ "))
  }

  predicate NoneHeaderLike(ops: seq<Op>) { forall op | op in ops :: !HeaderLike(op) }

  predicate VisibleAddition(op: Op) { op.Ins? && !HeaderLike(op) }

  predicate VisibleRemoval(op: Op) { op.Del? && !HeaderLike(op) }

  predicate VisibleChange(op: Op) { VisibleAddition(op) || VisibleRemoval(op) }

  predicate Addition(op: Op) { op.Ins? }

  predicate Removal(op: Op) { op.Del? }

  function CountOps(ops: seq<Op>, p: Op -> bool): nat {
    if ops == [] then 0 else (if p(ops[0]) then 1 else 0) + CountOps(ops[1..], p)
  }

  lemma {:induction false} CountOpsConcat(s: seq<Op>, t: seq<Op>, p: Op -> bool)
    ensures CountOps(s + t, p) == CountOps(s, p) + CountOps(t, p)
  {
    if s == [] {
      assert s + t == t;
    } else {
      assert (s + t)[0] == s[0] && (s + t)[1..] == s[1..] + t;
      CountOpsConcat(s[1..], t, p);
    }
  }

  /** Header-like changes are what the counts lose. */
  lemma {:induction false} VisibleUnlessHeaderLike(ops: seq<Op>)
    ensures CountOps(ops, VisibleChange) == CountOps(ops, VisibleAddition) + CountOps(ops, VisibleRemoval)
    ensures Changes(ops) == CountOps(ops, Addition) + CountOps(ops, Removal)
    ensures CountOps(ops, VisibleAddition) <= CountOps(ops, Addition)
    ensures CountOps(ops, VisibleRemoval) <= CountOps(ops, Removal)
    ensures CountOps(ops, VisibleChange) == Changes(ops) <==> NoneHeaderLike(ops)
  {
    if ops != [] {
      VisibleUnlessHeaderLike(ops[1..]);
      assert forall op :: op in ops <==> op == ops[0] || op in ops[1..];
    }
  }

  // ------------------------------------------------------------- single lines

  lemma PrefixOfCons(c: char, s: string, prefix: string)
    requires prefix != ""
    ensures HasPrefix([c] + s, prefix) <==> prefix[0] == c && HasPrefix(s, prefix[1..])
  {
    if HasPrefix([c] + s, prefix) {
      assert ([c] + s)[..|prefix|][1..] == s[..|prefix| - 1];
    }
    if prefix[0] == c && HasPrefix(s, prefix[1..]) {
      assert ([c] + s)[..|prefix|] == [c] + s[..|prefix| - 1];
    }
  }

  /** How one printed operation reads inside a hunk. */
  function ReadOp(r: Reader, op: Op): (DiffLine, Reader) {
    var line := OpLine(op);
    if HeaderLike(op) then (Plain(FileHeader, line), r)
    else match op
      case Ins(_) => (DiffLine(Added, line, r.oldLine, r.newLine, false, r.newLine > 0), r.(newLine := Next(r.newLine)))
      case Del(_) => (DiffLine(Removed, line, r.oldLine, r.newLine, r.oldLine > 0, false), r.(oldLine := Next(r.oldLine)))
      case Keep(_) =>
        (DiffLine(Context, line, r.oldLine, r.newLine, r.oldLine > 0, r.newLine > 0),
         r.(oldLine := Next(r.oldLine), newLine := Next(r.newLine)))
  }

  lemma PrintedOpReads(r: Reader, op: Op)
    requires r.inHunk
    ensures ReadLine(r, OpLine(op)) == ReadOp(r, op)
    ensures CountsAsChange(OpLine(op)) == VisibleChange(op)
  {
    hide HeaderRange, HasPrefix;
    var c, s := Kind(op), op.line;
    assert !HasPrefix(OpLine(op), "@@ -") ==> !HeaderRange(OpLine(op)).Range? by { NeedsAtSigns(OpLine(op)); }
    PrefixOfCons(c, s, "@@ -");
    PrefixOfCons(c, s, "@@");
    PrefixOfCons(c, s, "+++ ");
    PrefixOfCons(c, s, "--- ");
    PrefixOfCons(c, s, "diff --git ");
    PrefixOfCons(c, s, NO_NEWLINE);
    PrefixOfCons(c, s, "+");
    PrefixOfCons(c, s, "-");
    assert "+++ "[1..] == "++ " && "--- "[1..] == "-- " && "+"[1..] == "" && "-"[1..] == "";
    EmptyPrefix(s);
  }

  lemma NeedsAtSigns(line: string)
    ensures HeaderRange(line).Range? ==> HasPrefix(line, "@@ -")
  {
  }

  lemma EmptyPrefix(s: string)
    ensures HasPrefix(s, "")
  {
  }

  lemma RangeReads(digits: string, count: string, rest: string)
    requires Digits(digits) && Digits(count) && rest != "" && !IsDigit(rest[0])
    ensures var s := digits + "," + count + rest;
      DigitRun(s) == |digits| && AfterCount(s[|digits|..]) == rest && s[..|digits|] == digits
  {
    var s, tail := digits + "," + count + rest, "," + count + rest;
    assert s == digits + tail && tail[1..] == count + rest;
    RunEndsBefore(digits, tail);
    RunEndsBefore(count, rest);
    assert s[|digits|..] == tail;
    assert tail[1 + |count|..] == rest;
  }

  /** A printed hunk header is recognised, with its two starting lines. */
  lemma HeaderReads(h: HunkText<string>)
    ensures HeaderRange(HeaderLine(h)) == Range(Decimal(h.oldStart), Decimal(h.newStart))
  {
    hide Decimal, DigitRun, AfterCount;
    var line := HeaderLine(h);
    var (a, b, c, d) := (Decimal(h.oldStart), Decimal(h.oldCount), Decimal(h.newStart), Decimal(h.newCount));
    var right := c + "," + d + " @@";
    var left := a + "," + b + (" +" + right);
    assert line == "@@ -" + left;
    assert line[..4] == "@@ -" && line[4..] == left;
    RangeReads(a, b, " +" + right);
    assert (" +" + right)[..2] == " +" && (" +" + right)[2..] == right;
    RangeReads(c, d, " @@");
  }

  lemma HeaderIsNoChange(h: HunkText<string>)
    ensures '\n' !in HeaderLine(h) && !CountsAsChange(HeaderLine(h))
  {
    hide Decimal;
    var line := HeaderLine(h);
    assert line[0] == '@' && line[..2] == "@@";
  }

  // -------------------------------------------------------------------- counts

  lemma {:induction false} BodyCounts(r: Reader, ops: seq<Op>)
    requires r.inHunk
    ensures CountLines(OpLines(ops)) == CountOps(ops, VisibleChange)
    ensures CountKind(ReadLines(r, OpLines(ops)), Added) == CountOps(ops, VisibleAddition)
    ensures CountKind(ReadLines(r, OpLines(ops)), Removed) == CountOps(ops, VisibleRemoval)
    ensures After(r, OpLines(ops)).inHunk
    decreases ops
  {
    hide OpLine, CountsAsChange, ReadLine;
    if ops != [] {
      PrintedOpReads(r, ops[0]);
      BodyCounts(ReadOp(r, ops[0]).1, ops[1..]);
      var lines := OpLines(ops);
      assert lines[1..] == OpLines(ops[1..]);
      var read := ReadLines(r, lines);
      assert read[0] == ReadOp(r, ops[0]).0 && read[1..] == ReadLines(ReadOp(r, ops[0]).1, lines[1..]);
    }
  }

  function Total(hunks: seq<HunkText<string>>, p: Op -> bool): nat {
    if hunks == [] then 0 else CountOps(hunks[0].body, p) + Total(hunks[1..], p)
  }

  /** One hunk: its header counts for nothing and opens the hunk. */
  lemma HunkCounts(r: Reader, h: HunkText<string>) returns (r': Reader)
    ensures var lines := [HeaderLine(h)] + OpLines(h.body);
      && CountLines(lines) == CountOps(h.body, VisibleChange)
      && CountKind(ReadLines(r, lines), Added) == CountOps(h.body, VisibleAddition)
      && CountKind(ReadLines(r, lines), Removed) == CountOps(h.body, VisibleRemoval)
      && After(r, lines) == r'
  {
    hide HeaderLine, CountsAsChange, OpLines, HeaderRange;
    HeaderReads(h);
    HeaderIsNoChange(h);
    var lines := [HeaderLine(h)] + OpLines(h.body);
    var inside := ReadLine(r, lines[0]).1;
    BodyCounts(inside, h.body);
    assert lines[1..] == OpLines(h.body);
    var read := ReadLines(r, lines);
    assert read[0] == Plain(HunkHeader, lines[0]) && read[1..] == ReadLines(inside, OpLines(h.body));
    r' := After(r, lines);
  }

  lemma {:induction false} HunksCount(r: Reader, hunks: seq<HunkText<string>>)
    ensures CountLines(HunkLines(hunks)) == Total(hunks, VisibleChange)
    ensures CountKind(ReadLines(r, HunkLines(hunks)), Added) == Total(hunks, VisibleAddition)
    ensures CountKind(ReadLines(r, HunkLines(hunks)), Removed) == Total(hunks, VisibleRemoval)
    decreases hunks
  {
    hide HeaderLine, OpLines, ReadLine, CountOps;
    if hunks != [] {
      var first := [HeaderLine(hunks[0])] + OpLines(hunks[0].body);
      var rest := HunkLines(hunks[1..]);
      var r' := HunkCounts(r, hunks[0]);
      HunksCount(r', hunks[1..]);
      CountLinesConcat(first, rest);
      ReadLinesConcat(r, first, rest);
      CountKindConcat(ReadLines(r, first), ReadLines(r', rest), Added);
      CountKindConcat(ReadLines(r, first), ReadLines(r', rest), Removed);
    }
  }

  lemma {:induction false} NothingCounted(ops: seq<Op>, p: Op -> bool)
    requires (forall op: Op | op.Keep? :: !p(op)) && Changes(ops) == 0
    ensures CountOps(ops, p) == 0
  {
    if ops != [] {
      NothingCounted(ops[1..], p);
    }
  }

  lemma CountOpsSplit(ops: seq<Op>, i: nat, j: nat, p: Op -> bool)
    requires i <= j <= |ops|
    ensures CountOps(ops[i..], p) == CountOps(ops[i..j], p) + CountOps(ops[j..], p)
  {
    hide CountOps;
    assert ops[i..] == ops[i..j] + ops[j..];
    CountOpsConcat(ops[i..j], ops[j..], p);
  }

  /** The hunks hold every change of the script exactly once. */
  lemma {:induction false} HunksHoldAllChanges(ops: seq<Op>, hunks: seq<Hunk>, p: Op -> bool, k: nat, at: nat)
    requires Groups(ops, CONTEXT, |ops|, hunks) && k <= |hunks| && (forall op: Op | op.Keep? :: !p(op))
    requires at == if k == 0 then 0 else hunks[k - 1].end + 1
    ensures at <= |ops| && Separated(hunks, |ops|)
    ensures Total(DescribeAll(ops, hunks)[k..], p) == CountOps(ops[at..], p)
    decreases |hunks| - k
  {
    hide Groups, CountOps, Changes, OldLines, NewLines;
    var q := if k == |hunks| then |ops| else hunks[k].start;
    GapIsContext(ops, CONTEXT, hunks, k, at, q);
    NothingCounted(ops[at..q], p);
    var rest := DescribeAll(ops, hunks)[k..];
    if k < |hunks| {
      var e := hunks[k].end + 1;
      HunksHoldAllChanges(ops, hunks, p, k + 1, e);
      CountOpsSplit(ops, at, q, p);
      CountOpsSplit(ops, q, e, p);
      assert rest[1..] == DescribeAll(ops, hunks)[k + 1..] && rest[0].body == ops[q..e];
    } else {
      assert ops[at..q] == ops[at..] && rest == [];
    }
  }

  // ------------------------------------------------------------- from the text

  predicate OneLine(s: string) { '\n' !in s }

  predicate AllOneLine(lines: seq<string>) { forall line | line in lines :: OneLine(line) }

  /** Neither the path nor any line of the script contains a newline. */
  predicate SingleLines(path: string, ops: seq<Op>) {
    OneLine(path) && forall op | op in ops :: OneLine(op.line)
  }

  lemma {:induction false} BodyIsOneLineEach(ops: seq<Op>)
    requires forall op | op in ops :: OneLine(op.line)
    ensures AllOneLine(OpLines(ops))
  {
    if ops != [] {
      BodyIsOneLineEach(ops[1..]);
    }
  }

  lemma {:induction false} HunksAreOneLineEach(hunks: seq<HunkText<string>>)
    requires forall h | h in hunks :: forall op | op in h.body :: OneLine(op.line)
    ensures AllOneLine(HunkLines(hunks))
  {
    hide HeaderLine, OpLines, CountsAsChange;
    if hunks != [] {
      HeaderIsNoChange(hunks[0]);
      BodyIsOneLineEach(hunks[0].body);
      HunksAreOneLineEach(hunks[1..]);
    }
  }

  lemma PrintedIsOneLineEach(path: string, ops: seq<Op>, hunks: seq<Hunk>, marked: bool)
    requires Separated(hunks, |ops|) && SingleLines(path, ops)
    ensures AllOneLine(Printed(path, DescribeAll(ops, hunks), marked))
  {
    hide HunkLines;
    HunksAreOneLineEach(DescribeAll(ops, hunks));
  }

  lemma {:induction false} SplitAtFinalNewline(s: string)
    ensures Split(s + "\n", '\n') == Split(s, '\n') + [""]
  {
    if s == "" {
      assert s + "\n" == "\n" && "\n"[1..] == "";
    } else {
      assert (s + "\n")[1..] == s[1..] + "\n";
      SplitAtFinalNewline(s[1..]);
    }
  }

  /** Both readers see exactly the printed lines; the counter also sees the empty end. */
  lemma ReadersSeeThePrintedLines(lines: seq<string>)
    requires AllOneLine(lines) && lines != [] && lines[0] != ""
    ensures var diff := Terminated(lines);
      && Split(diff, '\n') == lines + [""]
      && TrimNewline(diff) != "" && Split(TrimNewline(diff), '\n') == lines
  {
    var diff := Terminated(lines);
    SplitOfTerminated(lines) by { forall line | line in lines ensures '\n' !in line { assert OneLine(line); } }
    TerminatedEndsWithNewline(lines);
    var trimmed := TrimNewline(diff);
    assert diff == trimmed + "\n";
    SplitAtFinalNewline(trimmed);
    assert (Split(trimmed, '\n') + [""])[..|lines|] == (lines + [""])[..|lines|];
  }

  /** What the readers make of everything around the hunks. */
  lemma FramingCountsNothing(path: string, lines: seq<string>, marked: bool) returns (r: Reader)
    ensures var all := FileHeaders(path) + lines + if marked then [NO_NEWLINE] else [];
      && CountLines(all + [""]) == CountLines(lines)
      && CountKind(ReadLines(START, all), Added) == CountKind(ReadLines(r, lines), Added)
      && CountKind(ReadLines(START, all), Removed) == CountKind(ReadLines(r, lines), Removed)
  {
    hide CountLines, CountKind, ReadLines, After, FileHeaders;
    var headers, tail := FileHeaders(path), if marked then [NO_NEWLINE] else [];
    var all := headers + lines + tail;
    r := After(START, headers);
    HeadersCountNothing(path);
    TailCountsNothing(After(START, headers + lines), tail);
    CountLinesConcat(headers + lines + tail, [""]);
    CountLinesConcat(headers + lines, tail);
    CountLinesConcat(headers, lines);
    ReadLinesConcat(START, headers + lines, tail);
    ReadLinesConcat(START, headers, lines);
    forall kind | kind == Added || kind == Removed
      ensures CountKind(ReadLines(START, all), kind) == CountKind(ReadLines(r, lines), kind)
    {
      CountKindConcat(ReadLines(START, headers + lines), ReadLines(After(START, headers + lines), tail), kind);
      CountKindConcat(ReadLines(START, headers), ReadLines(r, lines), kind);
    }
  }

  lemma HeadersRead(path: string)
    ensures FileHeaderLine("--- a/" + path) && FileHeaderLine("+++ b/" + path)
    ensures ReadLines(START, FileHeaders(path)) == [Plain(FileHeader, "--- a/" + path), Plain(FileHeader, "+++ b/" + path)]
    ensures After(START, FileHeaders(path)) == START
  {
    var headers := FileHeaders(path);
    assert headers[0][..4] == "--- " && headers[1][..4] == "+++ ";
    assert headers[0][0] == '-' && headers[1][0] == '+';
    NeedsAtSigns(headers[0]);
    NeedsAtSigns(headers[1]);
    hide HeaderRange;
    assert ReadLine(START, headers[0]) == (Plain(FileHeader, headers[0]), START);
    assert ReadLine(START, headers[1]) == (Plain(FileHeader, headers[1]), START);
    assert headers[1..] == [headers[1]] && headers[1..][1..] == [];
    assert After(START, headers[1..]) == START;
  }

  lemma HeadersCountNothing(path: string)
    ensures CountLines(FileHeaders(path)) == 0 && After(START, FileHeaders(path)) == START
    ensures CountKind(ReadLines(START, FileHeaders(path)), Added) == 0
    ensures CountKind(ReadLines(START, FileHeaders(path)), Removed) == 0
  {
    HeadersRead(path);
    hide After, ReadLines, FileHeaderLine;
    var headers := FileHeaders(path);
    assert headers[1..] == [headers[1]] && headers[1..][1..] == [];
    var read := ReadLines(START, headers);
    assert read[1..] == [read[1]] && read[1..][1..] == [];
    assert CountKind(read[1..][1..], Added) == 0 && CountKind(read[1..][1..], Removed) == 0;
    assert CountLines(headers[1..][1..]) == 0 && CountLines(headers[1..]) == 0;
    assert CountKind(read[1..], Added) == 0 && CountKind(read[1..], Removed) == 0;
  }

  lemma TailCountsNothing(r: Reader, tail: seq<string>)
    requires tail == [] || tail == [NO_NEWLINE]
    ensures CountLines(tail) == 0 && CountLines([""]) == 0
    ensures CountKind(ReadLines(r, tail), Added) == 0 && CountKind(ReadLines(r, tail), Removed) == 0
    ensures tail != [] ==> ReadLines(r, tail) == [Plain(NoNewline, NO_NEWLINE)]
  {
    NoNewlineReads(r);
    hide ReadLine;
    assert [NO_NEWLINE][1..] == [] && [""][1..] == [];
    assert !HasPrefix(NO_NEWLINE, "+") && !HasPrefix(NO_NEWLINE, "-") by { assert NO_NEWLINE[0] == '\\'; }
    var plain := Plain(NoNewline, NO_NEWLINE);
    assert [plain][1..] == [];
    assert ReadLines(r, []) == [] && CountKind([], Added) == 0 && CountKind([], Removed) == 0;
    if tail != [] { assert ReadLines(r, tail) == [plain]; }
  }

  lemma NoNewlineReads(r: Reader)
    ensures ReadLine(r, NO_NEWLINE) == (Plain(NoNewline, NO_NEWLINE), r)
  {
    NeedsAtSigns(NO_NEWLINE);
    hide HeaderRange;
    assert NO_NEWLINE[0] == '\\';
  }

  /** The exact counts both readers report for a printed script. */
  lemma CountsReadBack(path: string, ops: seq<Op>, hunks: seq<Hunk>, marked: bool, diff: string, document: Document)
    requires Groups(ops, CONTEXT, |ops|, hunks) && SingleLines(path, ops)
    requires diff == Terminated(Printed(path, DescribeAll(ops, hunks), marked)) && Reads(diff, document)
    ensures CountLines(Split(diff, '\n')) == CountOps(ops, VisibleChange)
    ensures document.added == CountOps(ops, VisibleAddition)
    ensures document.removed == CountOps(ops, VisibleRemoval)
  {
    hide Groups, Split, HunkLines, CountOps, CountLines, CountKind, ReadLines, Total, TrimNewline, Terminated, HeaderLike;
    GroupsAreSeparated(ops, hunks);
    var described := DescribeAll(ops, hunks);
    PrintedIsOneLineEach(path, ops, hunks, marked);
    ReadersSeeThePrintedLines(Printed(path, described, marked));
    var r := FramingCountsNothing(path, HunkLines(described), marked);
    HunksCount(r, described);
    HunksHoldAllChanges(ops, hunks, VisibleChange, 0, 0);
    HunksHoldAllChanges(ops, hunks, VisibleAddition, 0, 0);
    HunksHoldAllChanges(ops, hunks, VisibleRemoval, 0, 0);
    assert ops[0..] == ops && described[0..] == described;
  }

  /** The counts are the true ones exactly when no change looks like a file header. */
  lemma CountsSurviveExactlyWhen(path: string, ops: seq<Op>, hunks: seq<Hunk>, marked: bool, diff: string, document: Document)
    requires Groups(ops, CONTEXT, |ops|, hunks) && SingleLines(path, ops)
    requires diff == Terminated(Printed(path, DescribeAll(ops, hunks), marked)) && Reads(diff, document)
    ensures CountLines(Split(diff, '\n')) == Changes(ops) <==> NoneHeaderLike(ops)
    ensures document.added == CountOps(ops, Addition) && document.removed == CountOps(ops, Removal)
       <==> NoneHeaderLike(ops)
  {
    hide *;
    CountsReadBack(path, ops, hunks, marked, diff, document);
    VisibleUnlessHeaderLike(ops);
  }
}

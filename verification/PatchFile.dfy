/**
 A patch program's reading of a unified diff: file names, all four numbers of each
 hunk header, and as many lines of each kind as the header announces.  It knows the
 format, and nothing of how the diff was made.
 */
module PatchFile {
  import opened Text
  import opened EditScript
  import opened Hunks
  import opened DiffText

  datatype Pair = Pair(start: nat, count: nat, rest: string) | NoPair

  datatype Body = Body(ops: seq<Op>, rest: seq<string>) | NoBody

  datatype PatchText =
    | PatchText(oldPath: string, newPath: string, hunks: seq<HunkText<string>>, marked: bool)
    | Unreadable

  /** "start,count" in front of something else. */
  function ReadPair(s: string): Pair {
    var n := DigitRun(s);
    if n == 0 || n == |s| || s[n] != ',' then NoPair
    else
      var tail := s[n + 1..];
      var m := DigitRun(tail);
      if m == 0 then NoPair else Pair(Value(s[..n]), Value(tail[..m]), tail[m..])
  }

  /** A header "@@ -start,count +start,count @@" as a hunk without lines. */
  function ReadHeader(line: string): (h: seq<HunkText<string>>)
    ensures |h| <= 1
  {
    if !HasPrefix(line, "@@ -") then []
    else
      var left := ReadPair(line[4..]);
      if left.NoPair? || !HasPrefix(left.rest, " +") then []
      else
        var right := ReadPair(left.rest[2..]);
        if right.NoPair? || right.rest != " @@" then []
        else [HunkText(left.start, left.count, right.start, right.count, [])]
  }

  /** As many old and new lines as announced. */
  function ReadBody(lines: seq<string>, oldLeft: nat, newLeft: nat): (body: Body)
    ensures body.Body? ==> |body.rest| <= |lines|
  {
    if oldLeft == 0 && newLeft == 0 then Body([], lines)
    else if lines == [] || lines[0] == "" then NoBody
    else
      var text := lines[0][1..];
      if lines[0][0] == ' ' && oldLeft > 0 && newLeft > 0 then WithOp(Keep(text), ReadBody(lines[1..], oldLeft - 1, newLeft - 1))
      else if lines[0][0] == '-' && oldLeft > 0 then WithOp(Del(text), ReadBody(lines[1..], oldLeft - 1, newLeft))
      else if lines[0][0] == '+' && newLeft > 0 then WithOp(Ins(text), ReadBody(lines[1..], oldLeft, newLeft - 1))
      else NoBody
  }

  function WithOp(op: Op, body: Body): Body { if body.NoBody? then NoBody else Body([op] + body.ops, body.rest) }

  /** Hunks up to the end, or up to the remark that a final newline is missing. */
  function ReadHunks(oldPath: string, newPath: string, lines: seq<string>): PatchText
    decreases |lines|
  {
    if lines == [] then PatchText(oldPath, newPath, [], false)
    else if lines == ["\\ No newline at end of file"] then PatchText(oldPath, newPath, [], true)
    else
      var h := ReadHeader(lines[0]);
      if h == [] then Unreadable
      else
        var body := ReadBody(lines[1..], h[0].oldCount, h[0].newCount);
        if body.NoBody? then Unreadable
        else
          var rest := ReadHunks(oldPath, newPath, body.rest);
          if rest.Unreadable? then Unreadable else rest.(hunks := [h[0].(body := body.ops)] + rest.hunks)
  }

  function ReadPatch(diff: string): PatchText {
    var lines := Split(diff, '\n');
    if |lines| < 3 || lines[|lines| - 1] != "" || !HasPrefix(lines[0], "--- a/") || !HasPrefix(lines[1], "+++ b/") then Unreadable
    else ReadHunks(lines[0][6..], lines[1][6..], lines[2..|lines| - 1])
  }

  // ------------------------------------------------------------ reading what was printed

  lemma PairParts(a: string, b: string, rest: string)
    requires Digits(a) && Digits(b) && rest != "" && !IsDigit(rest[0])
    ensures ReadPair(a + "," + b + rest) == Pair(Value(a), Value(b), rest)
  {
    hide Value;
    var s, tail := a + "," + b + rest, "," + b + rest;
    assert s == a + tail && s[..|a|] == a && s[|a| + 1..] == b + rest;
    RunEndsBefore(a, tail);
    RunEndsBefore(b, rest);
    assert (b + rest)[..|b|] == b && (b + rest)[|b|..] == rest;
    hide DigitRun;
  }

  lemma PairReads(start: nat, count: nat, rest: string)
    requires rest != "" && !IsDigit(rest[0])
    ensures ReadPair(Decimal(start) + "," + Decimal(count) + rest) == Pair(start, count, rest)
  {
    hide Decimal, Value, DigitRun, ReadPair;
    PairParts(Decimal(start), Decimal(count), rest);
    ValueOfDecimal(start);
    ValueOfDecimal(count);
  }

  /** All four numbers of a printed header are read back. */
  lemma HeaderIsRead(h: HunkText<string>)
    ensures ReadHeader(HeaderLine(h)) == [HunkText(h.oldStart, h.oldCount, h.newStart, h.newCount, [])]
  {
    hide Decimal, ReadPair;
    var right := Decimal(h.newStart) + "," + Decimal(h.newCount) + " @@";
    var left := Decimal(h.oldStart) + "," + Decimal(h.oldCount) + (" +" + right);
    assert HeaderLine(h) == "@@ -" + left && ("@@ -" + left)[4..] == left && (" +" + right)[2..] == right;
    assert ("@@ -" + left)[..4] == "@@ -" && (" +" + right)[..2] == " +";
    PairReads(h.oldStart, h.oldCount, " +" + right);
    PairReads(h.newStart, h.newCount, " @@");
  }

  lemma {:induction false} BodyIsRead(ops: seq<Op>, rest: seq<string>)
    ensures ReadBody(OpLines(ops) + rest, |OldLines(ops)|, |NewLines(ops)|) == Body(ops, rest)
  {
    if ops == [] {
      assert OpLines(ops) + rest == rest;
    } else {
      BodyIsRead(ops[1..], rest);
      assert ops == [ops[0]] + ops[1..];
      assert OpLines(ops) + rest == [OpLine(ops[0])] + (OpLines(ops[1..]) + rest);
      OneLineIsRead(ops[0], OpLines(ops[1..]) + rest, |OldLines(ops[1..])|, |NewLines(ops[1..])|);
      hide ReadBody, OpLines, WithOp;
    }
  }

  /** One printed line is read as its operation and taken off the counts. */
  lemma OneLineIsRead(op: Op, rest: seq<string>, oldLeft: nat, newLeft: nat)
    ensures ReadBody([OpLine(op)] + rest, oldLeft + (if op.Ins? then 0 else 1), newLeft + (if op.Del? then 0 else 1))
      == WithOp(op, ReadBody(rest, oldLeft, newLeft))
  {
    var lines := [OpLine(op)] + rest;
    assert lines[0] == OpLine(op) && lines[1..] == rest && lines[0][1..] == op.line;
  }

  /** The counts of the hunks are those of their lines. */
  predicate Counted(hunks: seq<HunkText<string>>) {
    forall h | h in hunks :: h.oldCount == |OldLines(h.body)| && h.newCount == |NewLines(h.body)|
  }

  lemma {:induction false} HunksAreRead(oldPath: string, newPath: string, hunks: seq<HunkText<string>>, marked: bool)
    requires Counted(hunks)
    ensures ReadHunks(oldPath, newPath, HunkLines(hunks) + if marked then [NO_NEWLINE] else [])
      == PatchText(oldPath, newPath, hunks, marked)
  {
    hide HeaderLine, ReadHeader, ReadBody, OpLines, OldLines, NewLines;
    var end := if marked then [NO_NEWLINE] else [];
    if hunks == [] {
      assert HunkLines(hunks) + end == end;
    } else {
      var h, behind := hunks[0], HunkLines(hunks[1..]) + end;
      var lines := HunkLines(hunks) + end;
      assert lines[0] == HeaderLine(h) && lines[1..] == OpLines(h.body) + behind;
      HeaderIsRead(h);
      HeaderIsNoRemark(h);
      BodyIsRead(h.body, behind);
      HunksAreRead(oldPath, newPath, hunks[1..], marked);
      assert hunks == [h] + hunks[1..];
    }
  }

  lemma HeaderIsNoRemark(h: HunkText<string>)
    ensures HeaderLine(h) != NO_NEWLINE
  {
    hide Decimal;
    assert HeaderLine(h)[0] == '@' && NO_NEWLINE[0] == '\\';
  }

  /** A printed diff reads back as its path, its hunks and its remark. */
  lemma PrintedIsRead(path: string, hunks: seq<HunkText<string>>, marked: bool)
    requires Counted(hunks) && forall line | line in Printed(path, hunks, marked) :: '\n' !in line
    ensures ReadPatch(Terminated(Printed(path, hunks, marked))) == PatchText(path, path, hunks, marked)
  {
    hide HunkLines, ReadHunks, Split, Terminated;
    var lines := Printed(path, hunks, marked);
    var end := if marked then [NO_NEWLINE] else [];
    SplitOfTerminated(lines);
    assert ("--- a/" + path)[..6] == "--- a/" && ("--- a/" + path)[6..] == path;
    assert ("+++ b/" + path)[..6] == "+++ b/" && ("+++ b/" + path)[6..] == path;
    assert lines[0] == "--- a/" + path && lines[1] == "+++ b/" + path;
    assert (lines + [""])[2..|lines|] == HunkLines(hunks) + end;
    HunksAreRead(path, path, hunks, marked);
  }

  /** Described hunks count their lines. */
  lemma DescribedIsCounted(ops: seq<Op>, hunks: seq<Hunk>)
    requires Separated(hunks, |ops|)
    ensures Counted(DescribeAll(ops, hunks))
  {
    var texts := DescribeAll(ops, hunks);
    forall h | h in texts ensures h.oldCount == |OldLines(h.body)| && h.newCount == |NewLines(h.body)| {
      var i :| 0 <= i < |texts| && texts[i] == h;
      assert h == Describe(ops, hunks[i]);
    }
  }

  /** Decimal numbers are what they look like. */
  lemma DecimalSample()
    ensures Decimal(0) == "0" && Decimal(9) == "9" && Decimal(10) == "10" && Decimal(2048) == "2048"
  {
    assert Decimal(1) == "1" && Decimal(2) == "2" && Decimal(20) == "20" && Decimal(204) == "204";
  }
}

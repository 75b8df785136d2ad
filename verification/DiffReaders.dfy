/**
 Reading a printed diff back: the change counter of `internal/edit/diff.go` and
 the document parser of `internal/observation/diff.go`.  Both take a removed
 line that starts with "-- ", or an added line that starts with "++ ", for a
 file header.
 */
module DiffReaders {
  import opened Text
  import opened DiffText

  // ------------------------------------------------------------------- counting

  predicate FileHeaderLine(line: string) { HasPrefix(line, "+++ ") || HasPrefix(line, "--- ") }

  predicate CountsAsChange(line: string) {
    line != "" && !FileHeaderLine(line) && !HasPrefix(line, "@@") && (HasPrefix(line, "+") || HasPrefix(line, "-"))
  }

  function CountLines(lines: seq<string>): nat {
    if lines == [] then 0 else (if CountsAsChange(lines[0]) then 1 else 0) + CountLines(lines[1..])
  }

  lemma {:induction false} CountLinesConcat(s: seq<string>, t: seq<string>)
    ensures CountLines(s + t) == CountLines(s) + CountLines(t)
  {
    if s == [] {
      assert s + t == t;
    } else {
      assert (s + t)[0] == s[0] && (s + t)[1..] == s[1..] + t;
      CountLinesConcat(s[1..], t);
    }
  }

  method CountChangedLines(diff: string) returns (changed: nat)
    ensures changed == CountLines(Split(diff, '\n'))
  {
    changed := 0;
    var lines := Split(diff, '\n');
    for i := 0 to |lines|
      invariant changed + CountLines(lines[i..]) == CountLines(lines)
    {
      var line := lines[i];
      assert lines[i..][1..] == lines[i + 1..];
      if line == "" { continue; }
      if HasPrefix(line, "+++ ") || HasPrefix(line, "--- ") { continue; }
      if HasPrefix(line, "@@") { continue; }
      if HasPrefix(line, "+") || HasPrefix(line, "-") {
        changed := changed + 1;
      }
    }
  }

  // -------------------------------------------------------------------- parsing

  datatype LineKind = Context | Added | Removed | FileHeader | HunkHeader | Metadata | NoNewline

  datatype DiffLine = DiffLine(kind: LineKind, text: string, oldLine: int, newLine: int, hasOld: bool, hasNew: bool)

  datatype Document = Document(lines: seq<DiffLine>, added: nat, removed: nat, hunks: nat)

  datatype Reader = Reader(oldLine: int, newLine: int, inHunk: bool)

  datatype Range = Range(oldStart: string, newStart: string) | NoRange

  function Plain(kind: LineKind, text: string): DiffLine { DiffLine(kind, text, 0, 0, false, false) }

  /** The optional ",count" of a range. */
  function AfterCount(s: string): string {
    if |s| > 1 && s[0] == ',' && DigitRun(s[1..]) > 0 then s[1 + DigitRun(s[1..])..] else s
  }

  /** The hunk header pattern: "@@ -l[,n] +l[,n] @@" at the start of a line. */
  function HeaderRange(line: string): (range: Range)
    ensures range.Range? ==> Digits(range.oldStart) && Digits(range.newStart)
  {
    if !HasPrefix(line, "@@ -") then NoRange
    else
      var left := line[4..];
      var n := DigitRun(left);
      var middle := AfterCount(left[n..]);
      if n == 0 || !HasPrefix(middle, " +") then NoRange
      else
        var right := middle[2..];
        var m := DigitRun(right);
        if m == 0 || !HasPrefix(AfterCount(right[m..]), " @@") then NoRange
        else Range(left[..n], right[..m])
  }

  /** Go's `int` increment. */
  function Next(n: int): int { if n == MAX_INT then -(MAX_INT as int) - 1 else n + 1 }

  /** One line of a diff, and the reader after it. */
  function ReadLine(r: Reader, line: string): (DiffLine, Reader) {
    var range := HeaderRange(line);
    if range.Range? then
      (Plain(HunkHeader, line), Reader(ParseNumber(range.oldStart), ParseNumber(range.newStart), true))
    else if HasPrefix(line, "@@") then (Plain(HunkHeader, line), Reader(1, 1, true))
    else if FileHeaderLine(line) || HasPrefix(line, "diff --git ") then (Plain(FileHeader, line), r)
    else if HasPrefix(line, NO_NEWLINE) then (Plain(NoNewline, line), r)
    else if !r.inHunk then (Plain(Metadata, line), r)
    else if HasPrefix(line, "+") then
      (DiffLine(Added, line, r.oldLine, r.newLine, false, r.newLine > 0), r.(newLine := Next(r.newLine)))
    else if HasPrefix(line, "-") then
      (DiffLine(Removed, line, r.oldLine, r.newLine, r.oldLine > 0, false), r.(oldLine := Next(r.oldLine)))
    else
      (DiffLine(Context, line, r.oldLine, r.newLine, r.oldLine > 0, r.newLine > 0),
       r.(oldLine := Next(r.oldLine), newLine := Next(r.newLine)))
  }

  function ReadLines(r: Reader, lines: seq<string>): (read: seq<DiffLine>)
    ensures |read| == |lines|
    decreases lines
  {
    if lines == [] then []
    else
      var (line, r') := ReadLine(r, lines[0]);
      [line] + ReadLines(r', lines[1..])
  }

  /** The reader after some lines. */
  function After(r: Reader, lines: seq<string>): Reader
    decreases lines
  {
    if lines == [] then r else After(ReadLine(r, lines[0]).1, lines[1..])
  }

  function CountKind(lines: seq<DiffLine>, kind: LineKind): nat {
    if lines == [] then 0 else (if lines[0].kind == kind then 1 else 0) + CountKind(lines[1..], kind)
  }

  lemma {:induction false} CountKindConcat(s: seq<DiffLine>, t: seq<DiffLine>, kind: LineKind)
    ensures CountKind(s + t, kind) == CountKind(s, kind) + CountKind(t, kind)
  {
    if s == [] {
      assert s + t == t;
    } else {
      assert (s + t)[0] == s[0] && (s + t)[1..] == s[1..] + t;
      CountKindConcat(s[1..], t, kind);
    }
  }

  lemma {:induction false} ReadLinesConcat(r: Reader, s: seq<string>, t: seq<string>)
    ensures ReadLines(r, s + t) == ReadLines(r, s) + ReadLines(After(r, s), t)
    ensures After(r, s + t) == After(After(r, s), t)
    decreases s
  {
    hide ReadLine;
    if s == [] {
      assert s + t == t;
    } else {
      assert (s + t)[0] == s[0] && (s + t)[1..] == s[1..] + t;
      ReadLinesConcat(ReadLine(r, s[0]).1, s[1..], t);
    }
  }

  function TrimNewline(s: string): string { if HasSuffix(s, "\n") then s[..|s| - 1] else s }

  const START := Reader(0, 0, false)

  /** The document of a diff: its lines in order, and how many of each kind there are. */
  ghost predicate Reads(diff: string, document: Document) {
    var value := TrimNewline(diff);
    && document.lines == (if value == "" then [] else ReadLines(START, Split(value, '\n')))
    && document.added == CountKind(document.lines, Added)
    && document.removed == CountKind(document.lines, Removed)
    && document.hunks == CountKind(document.lines, HunkHeader)
  }

  lemma AppendKind(lines: seq<DiffLine>, line: DiffLine, kind: LineKind)
    ensures CountKind(lines + [line], kind) == CountKind(lines, kind) + if line.kind == kind then 1 else 0
  {
    CountKindConcat(lines, [line], kind);
  }

  method ParseDiffDocument(diff: string) returns (document: Document)
    ensures Reads(diff, document)
  {
    hide HeaderRange, ReadLines, CountKind, Split;
    var value := TrimNewline(diff);
    document := Document([], 0, 0, 0);
    NothingRead();
    if value == "" {
      return;
    }
    var oldLine, newLine, inHunk := 0, 0, false;
    var lines := Split(value, '\n');
    for i := 0 to |lines|
      invariant document.lines + ReadLines(Reader(oldLine, newLine, inHunk), lines[i..]) == ReadLines(START, lines)
      invariant document.added == CountKind(document.lines, Added)
      invariant document.removed == CountKind(document.lines, Removed)
      invariant document.hunks == CountKind(document.lines, HunkHeader)
    {
      var line := lines[i];
      ghost var r := Reader(oldLine, newLine, inHunk);
      var parsed := Plain(Metadata, line);
      var added, removed, hunks := document.added, document.removed, document.hunks;
      var range := HeaderRange(line);
      if range.Range? {
        oldLine, newLine, inHunk := ParseNumber(range.oldStart), ParseNumber(range.newStart), true;
        hunks := hunks + 1;
        parsed := Plain(HunkHeader, line);
      } else if HasPrefix(line, "@@") {
        oldLine, newLine, inHunk := 1, 1, true;
        hunks := hunks + 1;
        parsed := Plain(HunkHeader, line);
      } else if HasPrefix(line, "--- ") || HasPrefix(line, "+++ ") || HasPrefix(line, "diff --git ") {
        parsed := Plain(FileHeader, line);
      } else if HasPrefix(line, NO_NEWLINE) {
        parsed := Plain(NoNewline, line);
      } else if inHunk {
        parsed := DiffLine(Context, line, oldLine, newLine, oldLine > 0, newLine > 0);
        if HasPrefix(line, "+") {
          parsed := parsed.(kind := Added, hasOld := false);
          added := added + 1;
          newLine := Next(newLine);
        } else if HasPrefix(line, "-") {
          parsed := parsed.(kind := Removed, hasNew := false);
          removed := removed + 1;
          oldLine := Next(oldLine);
        } else {
          oldLine, newLine := Next(oldLine), Next(newLine);
        }
      }
      ReadHead(r, lines, i);
      assert (parsed, Reader(oldLine, newLine, inHunk)) == ReadLine(r, line);
      AppendKind(document.lines, parsed, Added);
      AppendKind(document.lines, parsed, Removed);
      AppendKind(document.lines, parsed, HunkHeader);
      document := Document(document.lines + [parsed], added, removed, hunks);
    }
  }

  lemma NothingRead()
    ensures forall kind :: CountKind([], kind) == 0
    ensures forall r :: ReadLines(r, []) == []
  {
  }

  lemma ReadHead(r: Reader, lines: seq<string>, i: nat)
    requires i < |lines|
    ensures ReadLines(r, lines[i..]) == [ReadLine(r, lines[i]).0] + ReadLines(ReadLine(r, lines[i]).1, lines[i + 1..])
  {
    hide ReadLine;
    assert lines[i..][1..] == lines[i + 1..];
  }
}

/**
 The printed form of a diff (`internal/edit/diff.go`).
 */
module DiffText {
  import opened Text
  import opened EditScript
  import opened Hunks

  type Op = DiffOp<string>

  // ------------------------------------------------------------ decimal numbers

  /** Largest value of a 64-bit Go `int`. */
  const MAX_INT: nat := 0x7FFF_FFFF_FFFF_FFFF

  predicate IsDigit(c: char) { '0' <= c <= '9' }

  predicate AllDigits(s: string) { forall i | 0 <= i < |s| :: IsDigit(s[i]) }

  predicate Digits(s: string) { s != "" && AllDigits(s) }

  function Decimal(n: nat): (s: string)
    ensures Digits(s)
  {
    var last := [('0' as int + n % 10) as char];
    if n < 10 then last else Decimal(n / 10) + last
  }

  function Value(s: string): nat
    requires AllDigits(s)
  {
    if s == "" then 0 else 10 * Value(s[..|s| - 1]) + (s[|s| - 1] as int - '0' as int)
  }

  lemma {:induction false} ValueOfDecimal(n: nat)
    ensures Value(Decimal(n)) == n
  {
    var last := [('0' as int + n % 10) as char];
    if n < 10 {
      assert last[..0] == "";
    } else {
      ValueOfDecimal(n / 10);
      assert (Decimal(n / 10) + last)[..|Decimal(n / 10)|] == Decimal(n / 10);
    }
  }

  /** Numbers too large for an `int` fall back to zero. */
  function ParseNumber(s: string): nat
    requires Digits(s)
  {
    if Value(s) > MAX_INT then 0 else Value(s)
  }

  /** The longest run of digits a text starts with. */
  function DigitRun(s: string): (n: nat)
    ensures n <= |s| && (forall i | 0 <= i < n :: IsDigit(s[i])) && (n < |s| ==> !IsDigit(s[n]))
  {
    if s != "" && IsDigit(s[0]) then 1 + DigitRun(s[1..]) else 0
  }

  lemma {:induction false} RunEndsBefore(digits: string, rest: string)
    requires AllDigits(digits) && rest != "" && !IsDigit(rest[0])
    ensures DigitRun(digits + rest) == |digits|
  {
    if digits == "" {
      assert digits + rest == rest;
    } else {
      assert (digits + rest)[1..] == digits[1..] + rest;
      RunEndsBefore(digits[1..], rest);
    }
  }

  // ------------------------------------------------------------------ printing

  function Kind(op: Op): char { if op.Keep? then ' ' else if op.Del? then '-' else '+' }

  function OpLine(op: Op): string { [Kind(op)] + op.line }

  function OpLines(ops: seq<Op>): (lines: seq<string>)
    ensures |lines| == |ops|
  {
    if ops == [] then [] else [OpLine(ops[0])] + OpLines(ops[1..])
  }

  function HeaderLine(h: HunkText<string>): string {
    "@@ -" + Decimal(h.oldStart) + "," + Decimal(h.oldCount)
    + " +" + Decimal(h.newStart) + "," + Decimal(h.newCount) + " @@"
  }

  function HunkLines(hunks: seq<HunkText<string>>): seq<string> {
    if hunks == [] then [] else [HeaderLine(hunks[0])] + OpLines(hunks[0].body) + HunkLines(hunks[1..])
  }

  function FileHeaders(path: string): seq<string> { ["--- a/" + path, "+++ b/" + path] }

  const NO_NEWLINE := "\\ No newline at end of file"

  /** The lines of a printed diff. */
  function Printed(path: string, hunks: seq<HunkText<string>>, marked: bool): seq<string> {
    FileHeaders(path) + HunkLines(hunks) + if marked then [NO_NEWLINE] else []
  }

  /** The body loop of the printer. */
  method PrintOps(before: string, body: seq<Op>) returns (out: string)
    ensures out == before + Terminated(OpLines(body))
  {
    out := before;
    for i := 0 to |body|
      invariant out + Terminated(OpLines(body[i..])) == before + Terminated(OpLines(body))
    {
      assert body[i..][1..] == body[i + 1..];
      assert out + Terminated(OpLines(body[i..]))
          == out + [Kind(body[i])] + body[i].line + "\n" + Terminated(OpLines(body[i + 1..]));
      out := out + [Kind(body[i])];
      out := out + body[i].line;
      out := out + "\n";
    }
  }

  lemma PrintedHunk(hunks: seq<HunkText<string>>, i: nat)
    requires i < |hunks|
    ensures Terminated(HunkLines(hunks[i..]))
         == HeaderLine(hunks[i]) + "\n" + Terminated(OpLines(hunks[i].body)) + Terminated(HunkLines(hunks[i + 1..]))
  {
    hide HeaderLine, OpLines;
    assert hunks[i..][1..] == hunks[i + 1..];
    var header := [HeaderLine(hunks[i])];
    TerminatedConcat(header + OpLines(hunks[i].body), HunkLines(hunks[i + 1..]));
    TerminatedConcat(header, OpLines(hunks[i].body));
    assert Terminated(header) == HeaderLine(hunks[i]) + "\n";
  }

  predicate NumberedBy(ops: seq<Op>, oldBefore: seq<nat>, newBefore: seq<nat>) {
    && |oldBefore| == |newBefore| == |ops|
    && forall i | 0 <= i < |ops| ::
        oldBefore[i] == |OldLines(ops[..i])| + 1 && newBefore[i] == |NewLines(ops[..i])| + 1
  }

  /** The loop that prints one hunk after the other. */
  method PrintHunks(before: string, ops: seq<Op>, groups: seq<Hunk>, oldBefore: array<nat>, newBefore: array<nat>)
    returns (out: string)
    requires Separated(groups, |ops|) && NumberedBy(ops, oldBefore[..], newBefore[..])
    ensures out == before + Terminated(HunkLines(DescribeAll(ops, groups)))
  {
    hide Describe, HeaderLine, HunkLines, OpLines;
    ghost var described := DescribeAll(ops, groups);
    out := before;
    for i := 0 to |groups|
      invariant out + Terminated(HunkLines(described[i..])) == before + Terminated(HunkLines(described))
    {
      assert oldBefore[..][groups[i].start] == oldBefore[groups[i].start];
      assert newBefore[..][groups[i].start] == newBefore[groups[i].start];
      var text := DescribeHunk(ops, groups[i], oldBefore[groups[i].start], newBefore[groups[i].start]);
      PrintedHunk(described, i);
      out := out + HeaderLine(text) + "\n";
      out := PrintOps(out, text.body);
    }
    PrintedNothing();
    assert described[|groups|..] == [];
  }

  /** Print a script: nothing when nothing changed, otherwise its hunks. */
  method RenderDiff(path: string, ops: seq<Op>) returns (diff: string, changed: nat, ghost hunks: seq<Hunk>)
    ensures changed == Changes(ops) && Groups(ops, CONTEXT, |ops|, hunks) && Groups(ops, 3, |ops|, hunks)
    ensures diff == if changed == 0 then "" else Terminated(Printed(path, DescribeAll(ops, hunks), false))
  {
    hide Groups, Describe, HunkLines;
    changed := CountChanges(ops);
    var groups := ContextualHunks(ops, CONTEXT);
    hunks := groups;
    if changed == 0 {
      return "", 0, hunks;
    }
    var oldBefore, newBefore := LineNumbers(ops);
    GroupsAreSeparated(ops, hunks);
    HeadersAreTwoLines(path);
    diff := "--- a/" + path + "\n+++ b/" + path + "\n";
    diff := PrintHunks(diff, ops, groups, oldBefore, newBefore);
    TerminatedConcat(FileHeaders(path), HunkLines(DescribeAll(ops, hunks)));
    assert Printed(path, DescribeAll(ops, hunks), false) == FileHeaders(path) + HunkLines(DescribeAll(ops, hunks));
  }

  lemma HeadersAreTwoLines(path: string)
    ensures Terminated(FileHeaders(path)) == "--- a/" + path + "\n+++ b/" + path + "\n"
  {
    var headers := FileHeaders(path);
    assert headers[1..][1..] == [];
    assert Terminated(headers[1..]) == "+++ b/" + path + "\n";
  }

  lemma PrintedNothing()
    ensures Terminated(HunkLines([])) == ""
  {
  }

  lemma GroupsAreSeparated(ops: seq<Op>, hunks: seq<Hunk>)
    requires Groups(ops, CONTEXT, |ops|, hunks)
    ensures Separated(hunks, |ops|)
  {
  }
}

/**
 The unified diff of two texts: which scripts it prints, and that it prints
 nothing exactly when the texts agree up to their line endings.
 */
module UnifiedDiff {
  import opened Text
  import opened EditScript
  import opened Hunks
  import opened DiffText
  import Myers

  /** The lines of a text; a final newline ends the last line instead of opening another. */
  function Lines(s: string): seq<string> {
    if s == "" then []
    else
      var parts := Split(Normalize(s), '\n');
      if parts[|parts| - 1] == "" then parts[..|parts| - 1] else parts
  }

  predicate FinalNewline(s: string) { HasSuffix(s, "\n") }

  lemma {:induction false} LastPartIsEmptyAfterNewline(s: string)
    ensures var parts := Split(s, '\n'); parts[|parts| - 1] == "" <==> s == "" || FinalNewline(s)
  {
    if |s| > 1 {
      LastPartIsEmptyAfterNewline(s[1..]);
      assert FinalNewline(s) <==> FinalNewline(s[1..]) by {
        assert s[|s| - 1..] == s[1..][|s| - 2..];
      }
    } else if |s| == 1 {
      assert s[1..] == "" && s[0..] == s;
      assert s[0] != '\n' ==> s != "\n";
    }
  }

  /** A normalized text is its lines and whether it ends in a newline. */
  lemma TextIsItsLines(s: string, t: string)
    requires '\r' !in s && '\r' !in t
    ensures s == t <==> Lines(s) == Lines(t) && FinalNewline(s) == FinalNewline(t)
  {
    NormalizeIsLogical(s);
    NormalizeIsLogical(t);
    LogicalIsStable(s);
    LogicalIsStable(t);
    LastPartIsEmptyAfterNewline(s);
    LastPartIsEmptyAfterNewline(t);
    PartsFromLines(s);
    PartsFromLines(t);
    JoinUndoesSplit(s, '\n');
    JoinUndoesSplit(t, '\n');
  }

  lemma PartsFromLines(s: string)
    requires Normalize(s) == s
    ensures Split(s, '\n') == Lines(s) + if s == "" || FinalNewline(s) then [""] else []
    ensures Lines(s) == [] <==> s == ""
    ensures forall line | line in Lines(s) :: '\n' !in line && '\r' !in line
  {
    hide Normalize, Split, FinalNewline;
    var parts := Split(s, '\n');
    LastPartIsEmptyAfterNewline(s);
    JoinUndoesSplit(s, '\n');
    NormalizeIsLogical(s);
    PartsKeepOut(s, '\n', '\r');
    assert parts[|parts| - 1] == "" ==> parts == parts[..|parts| - 1] + [""];
    SplitOfEmpty();
    assert parts == [""] ==> Join(parts, ['\n']) == "";
  }

  lemma SplitOfEmpty()
    ensures Split("", '\n') == [""]
  {
  }

  /** The script for texts with the same lines of which only one ends in a newline. */
  method LastLineReplaced(lines: seq<string>) returns (ops: seq<Op>)
    requires lines != []
    ensures Transforms(ops, lines, lines) && Changes(ops) == 2
  {
    hide OldLines, NewLines, Changes;
    NothingDone();
    ops := [];
    for index := 0 to |lines| - 1
      invariant Transforms(ops, lines[..index], lines[..index]) && Changes(ops) == 0
    {
      Appended(ops, Keep(lines[index]));
      assert lines[..index + 1] == lines[..index] + [lines[index]];
      ops := ops + [Keep(lines[index])];
    }
    var last := lines[|lines| - 1];
    assert lines == lines[..|lines| - 1] + [last];
    Appended(ops, Del(last));
    ops := ops + [Del(last)];
    Appended(ops, Ins(last));
    ops := ops + [Ins(last)];
  }

  lemma NothingDone()
    ensures OldLines<string>([]) == [] && NewLines<string>([]) == [] && Changes<string>([]) == 0
  {
  }

  /** What a unified diff says: a printed script from the old lines to the new ones. */
  ghost predicate Describes(path: string, oldText: string, newText: string, diff: string, changed: nat,
                            ops: seq<Op>, hunks: seq<Hunk>) {
    && Transforms(ops, Lines(oldText), Lines(newText))
    && changed == Changes(ops) > 0
    && Groups(ops, CONTEXT, |ops|, hunks)
    && diff == Terminated(Printed(path, DescribeAll(ops, hunks), FinalNewline(oldText) != FinalNewline(newText)))
  }

  /** The number of changed lines: none, one line replaced for its newline, or the shortest script. */
  ghost function ChangeCount(oldText: string, newText: string): nat {
    var a, b := Lines(oldText), Lines(newText);
    if oldText == newText then 0 else if a == b then 2 else Distance(a, b, |a|, |b|)
  }

  lemma MarkedTail(path: string, hunks: seq<HunkText<string>>)
    ensures Terminated(Printed(path, hunks, true)) == Terminated(Printed(path, hunks, false)) + NO_NEWLINE + "\n"
  {
    hide HunkLines, FileHeaders;
    var body := Printed(path, hunks, false);
    assert body + [NO_NEWLINE] == Printed(path, hunks, true);
    TerminatedConcat(body, [NO_NEWLINE]);
    assert Terminated([NO_NEWLINE]) == NO_NEWLINE + "\n";
  }

  /** A script between different line sequences changes something. */
  lemma {:induction false} NoChangesMeansSame(ops: seq<Op>)
    ensures Changes(ops) == 0 ==> OldLines(ops) == NewLines(ops)
  {
    if ops != [] {
      NoChangesMeansSame(ops[1..]);
    }
  }

  method EqualLines(a: seq<string>, b: seq<string>) returns (equal: bool)
    ensures equal == (a == b)
  {
    if |a| != |b| {
      return false;
    }
    for i := 0 to |a|
      invariant a[..i] == b[..i]
    {
      if a[i] != b[i] {
        return false;
      }
    }
    return true;
  }

  /** Normalized texts are equal exactly when their lines and final newlines are. */
  lemma TextsAsLines(text: string, edited: string)
    ensures Normalize(text) == Logical(text) && Normalize(edited) == Logical(edited)
    ensures var (s, t) := (Logical(text), Logical(edited));
      && (s == t <==> Lines(s) == Lines(t) && FinalNewline(s) == FinalNewline(t))
      && (Lines(s) == [] <==> s == "") && (Lines(t) == [] <==> t == "")
  {
    hide Lines, FinalNewline;
    NormalizeIsLogical(text);
    NormalizeIsLogical(edited);
    TextIsItsLines(Logical(text), Logical(edited));
    NormalizeIsLogical(Logical(text));
    NormalizeIsLogical(Logical(edited));
    LogicalIsStable(Logical(text));
    LogicalIsStable(Logical(edited));
    PartsFromLines(Logical(text));
    PartsFromLines(Logical(edited));
  }

  method RenderWithFinalNewline(path: string, script: seq<Op>, oldFinal: bool, newFinal: bool)
    returns (diff: string, changed: nat, ghost hunks: seq<Hunk>)
    requires Changes(script) > 0
    ensures changed == Changes(script) && Groups(script, CONTEXT, |script|, hunks)
    ensures diff == Terminated(Printed(path, DescribeAll(script, hunks), oldFinal != newFinal)) && diff != ""
  {
    hide Groups, Changes, Printed;
    diff, changed, hunks := RenderDiff(path, script);
    GroupsAreSeparated(script, hunks);
    if oldFinal != newFinal {
      MarkedTail(path, DescribeAll(script, hunks));
      diff := diff + NO_NEWLINE + "\n";
    }
    PrintedIsNotEmpty(path, DescribeAll(script, hunks), oldFinal != newFinal);
  }

  lemma PrintedIsNotEmpty(path: string, hunks: seq<HunkText<string>>, marked: bool)
    ensures Terminated(Printed(path, hunks, marked)) != ""
  {
    assert Printed(path, hunks, marked)[0] == FileHeaders(path)[0];
  }

  method UnifiedDiff(path: string, text: string, edited: string)
    returns (diff: string, changed: nat, ghost ops: seq<Op>, ghost hunks: seq<Hunk>)
    ensures (diff == "") == (changed == 0) == (Logical(text) == Logical(edited))
    ensures changed > 0 ==> Describes(path, Logical(text), Logical(edited), diff, changed, ops, hunks)
    ensures Lines(Logical(text)) != Lines(Logical(edited)) ==> Shortest(ops)
    ensures changed == ChangeCount(Logical(text), Logical(edited))
  {
    hide Groups, Printed, Lines, FinalNewline, Logical, Normalize, Changes, OldLines, NewLines, Distance;
    TextsAsLines(text, edited);
    var oldText, newText := Normalize(text), Normalize(edited);
    var oldFinal, newFinal := FinalNewline(oldText), FinalNewline(newText);
    var oldLines, newLines := Lines(oldText), Lines(newText);
    var equal := EqualLines(oldLines, newLines);
    if equal && oldFinal == newFinal {
      return "", 0, [], [];
    }
    var script;
    if equal {
      assert oldLines != [] by { EmptyHasNoNewline(); }
      script := LastLineReplaced(oldLines);
    } else {
      script := Myers.LineDiff(oldLines, newLines);
      NoChangesMeansSame(script);
    }
    ops := script;
    diff, changed, hunks := RenderWithFinalNewline(path, script, oldFinal, newFinal);
  }

  lemma EmptyHasNoNewline()
    ensures !FinalNewline("")
  {
  }

  /** A printed diff is a patch: applied to the old lines it gives the new ones. */
  lemma DiffIsAPatch(path: string, oldText: string, newText: string, diff: string, changed: nat,
                     ops: seq<Op>, hunks: seq<Hunk>)
    requires Describes(path, oldText, newText, diff, changed, ops, hunks)
    ensures Patch(Lines(oldText), DescribeAll(ops, hunks), 0, 0) == Patched(Lines(newText))
  {
    hide Patch;
    PatchGivesNewText(ops, CONTEXT, hunks);
  }
}

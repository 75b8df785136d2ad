/**
 Unified diffs from end to end: what the readers make of the diff of two texts.
 */
module DiffGuarantees {
  import opened Text
  import opened EditScript
  import opened Hunks
  import opened DiffText
  import opened DiffReaders
  import opened DiffRoundTrip
  import opened DiffLocations
  import opened UnifiedDiff
  import PatchFile

  /** Every line of a script is a line of one of its texts, and every removed or added line of the right one. */
  lemma {:induction false} ScriptLines(ops: seq<Op>)
    ensures forall op | op in ops :: (op.line in OldLines(ops) || op.Ins?) && (op.line in NewLines(ops) || op.Del?)
  {
    if ops != [] {
      ScriptLines(ops[1..]);
      assert forall op :: op in ops <==> op == ops[0] || op in ops[1..];
    }
  }

  lemma LinesAreSingle(s: string)
    ensures AllOneLine(Lines(s))
  {
    JoinUndoesSplit(Normalize(s), '\n');
  }

  lemma DescribedLinesAreSingle(path: string, oldText: string, newText: string, ops: seq<Op>)
    requires Transforms(ops, Lines(oldText), Lines(newText)) && OneLine(path)
    ensures SingleLines(path, ops)
  {
    hide Lines;
    LinesAreSingle(oldText);
    LinesAreSingle(newText);
    ScriptLines(ops);
  }

  /**
   The text of a diff is a patch: read by its own headers, it names the file, remarks
   on a changed final newline, and turns the old lines into the new ones.
   */
  lemma DiffTextIsAPatch(path: string, oldText: string, newText: string, diff: string, changed: nat,
                         ops: seq<Op>, hunks: seq<Hunk>)
    requires Describes(path, oldText, newText, diff, changed, ops, hunks) && OneLine(path)
    ensures var patch := PatchFile.ReadPatch(diff);
      && patch.PatchText? && patch.oldPath == patch.newPath == path
      && patch.marked == (FinalNewline(oldText) != FinalNewline(newText))
      && Patch(Lines(oldText), patch.hunks, 0, 0) == Patched(Lines(newText))
  {
    hide Lines, FinalNewline, Printed, Terminated, PatchFile.ReadPatch, Patch, Changes;
    GroupsAreSeparated(ops, hunks);
    DescribedLinesAreSingle(path, oldText, newText, ops);
    var marked := FinalNewline(oldText) != FinalNewline(newText);
    PrintedIsOneLineEach(path, ops, hunks, marked);
    PatchFile.DescribedIsCounted(ops, hunks);
    forall line | line in Printed(path, DescribeAll(ops, hunks), marked) ensures '\n' !in line { assert OneLine(line); }
    PatchFile.PrintedIsRead(path, DescribeAll(ops, hunks), marked);
    DiffIsAPatch(path, oldText, newText, diff, changed, ops, hunks);
  }

  /** No old line starts with the rest of an old file header, no new line with the rest of a new one. */
  predicate NoHeaderLines(oldText: string, newText: string) {
    && (forall line | line in Lines(oldText) :: !HasPrefix(line, "-- "))
    && (forall line | line in Lines(newText) :: !HasPrefix(line, "++ "))
  }

  /**
   What the readers count in the diff of two texts is what the printer reported,
   exactly when no change looks like a file header; texts without such lines are safe.
   */
  lemma ReportedCountsAreParsed(path: string, oldText: string, newText: string, diff: string, changed: nat,
                                ops: seq<Op>, hunks: seq<Hunk>, document: Document)
    requires Describes(path, oldText, newText, diff, changed, ops, hunks)
    requires OneLine(path) && Reads(diff, document)
    ensures CountLines(Split(diff, '\n')) == changed <==> NoneHeaderLike(ops)
    ensures document.added + document.removed == changed <==> NoneHeaderLike(ops)
    ensures NoHeaderLines(oldText, newText) ==> NoneHeaderLike(ops)
  {
    hide Groups, CountLines, CountOps, Reads, Printed, Split, Lines, Changes;
    DescribedLinesAreSingle(path, oldText, newText, ops);
    var marked := FinalNewline(oldText) != FinalNewline(newText);
    CountsReadBack(path, ops, hunks, marked, diff, document);
    VisibleUnlessHeaderLike(ops);
    ScriptLines(ops);
  }

  /** Without header-like changes, every numbered line of the document stands in the old or the new text. */
  lemma ParsedLinesAreThere(path: string, oldText: string, newText: string, diff: string, changed: nat,
                            ops: seq<Op>, hunks: seq<Hunk>, document: Document, i: nat)
    requires Describes(path, oldText, newText, diff, changed, ops, hunks)
    requires OneLine(path) && Reads(diff, document) && Fits(ops) && NoneHeaderLike(ops)
    requires i < |document.lines| && document.lines[i].kind in {Context, Added, Removed}
    ensures var line := document.lines[i];
      && line.hasOld == (line.kind != Added) && line.hasNew == (line.kind != Removed) && line.text != ""
      && (line.hasOld ==> 1 <= line.oldLine <= |Lines(oldText)| && Lines(oldText)[line.oldLine - 1] == line.text[1..])
      && (line.hasNew ==> 1 <= line.newLine <= |Lines(newText)| && Lines(newText)[line.newLine - 1] == line.text[1..])
  {
    hide Groups, Reads, Printed, Lines, Changes, Positions, NoneHeaderLike, SingleLines, Terminated;
    DescribedLinesAreSingle(path, oldText, newText, ops);
    var marked := FinalNewline(oldText) != FinalNewline(newText);
    NumbersIndexTheirLines(path, ops, hunks, marked, diff, document);
    var n := |Positions(hunks)|;
    assert 2 <= i < 2 + n;
    var j := Positions(hunks)[i - 2];
    assert document.lines[2..2 + n][i - 2] == document.lines[i];
    assert Locates(ops, j, document.lines[i]);
    LocatedLineIsThere(ops, j, document.lines[i]);
  }

  lemma SampleTexts()
    ensures Lines("-- x\n") == ["-- x"] && Lines("y\n") == ["y"]
    ensures FinalNewline("-- x\n") && FinalNewline("y\n")
  {
    SampleText("-- x");
    SampleText("y");
    assert "-- x" + "\n" == "-- x\n" && "y" + "\n" == "y\n";
  }

  lemma SampleText(line: string)
    requires '\n' !in line && '\r' !in line
    ensures Lines(line + "\n") == [line] && FinalNewline(line + "\n")
  {
    hide Normalize, Logical;
    SplitOfTerminated([line]);
    assert Terminated([line]) == line + "\n";
    LogicalIsStable(line + "\n");
    NormalizeIsLogical(line + "\n");
  }

  /** The diff has a document. */
  lemma DocumentExists(diff: string) returns (document: Document)
    ensures Reads(diff, document)
  {
    var value := TrimNewline(diff);
    var lines := if value == "" then [] else ReadLines(START, Split(value, '\n'));
    document := Document(lines, CountKind(lines, Added), CountKind(lines, Removed), CountKind(lines, HunkHeader));
  }

  const SAMPLE: seq<Op> := [Del("-- x"), Ins("y")]

  lemma SampleScript()
    ensures Transforms(SAMPLE, ["-- x"], ["y"]) && Changes(SAMPLE) == 2 && Groups(SAMPLE, CONTEXT, 2, [Hunk(0, 1)])
    ensures CountOps(SAMPLE, VisibleChange) == CountOps(SAMPLE, VisibleAddition) == 1 && CountOps(SAMPLE, VisibleRemoval) == 0
  {
    assert SAMPLE[1..] == [Ins("y")] && SAMPLE[1..][1..] == [];
    assert Changed(SAMPLE, 0) && Near(0, 0, CONTEXT) && Near(0, 1, CONTEXT);
    assert Inside([Hunk(0, 1)], 0, 0) && Inside([Hunk(0, 1)], 0, 1);
    assert CountOps(SAMPLE[1..], VisibleChange) == CountOps(SAMPLE[1..], VisibleAddition) == 1;
    assert CountOps(SAMPLE[1..], VisibleRemoval) == 0;
  }

  /** A removed line that starts with two dashes and a blank: the printer reports two changes, both readers see one. */
  lemma HeaderLikeLineIsLost(path: string) returns (diff: string, document: Document)
    requires OneLine(path)
    ensures Describes(path, "-- x\n", "y\n", diff, 2, SAMPLE, [Hunk(0, 1)]) && Reads(diff, document)
    ensures CountLines(Split(diff, '\n')) == 1 && document.added == 1 && document.removed == 0
  {
    SampleTexts();
    SampleScript();
    diff := Terminated(Printed(path, DescribeAll(SAMPLE, [Hunk(0, 1)]), false));
    document := DocumentExists(diff);
    hide Lines, FinalNewline, CountLines, Printed, Split, Reads, Terminated, CountOps, Groups, Changes;
    CountsReadBack(path, SAMPLE, [Hunk(0, 1)], false, diff, document);
  }
}

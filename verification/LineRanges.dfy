/**
 Replacing a range of whole lines (`internal/edit/apply.go`), stated on the
 lines of the text instead of on byte offsets.
 */
module LineRanges {
  import opened Text
  import opened Windows
  import Replacements

  datatype Outcome = Edited(text: string) | InvalidRange | OutOfBounds(lines: nat)

  /** The number of lines; an empty text has one. */
  function LineTotal(s: string): nat { if s == "" then 1 else |Pieces(s)| }

  /** The source's count: newlines, and one more unless the text ends in one. */
  function CountedLines(s: string): nat {
    Replacements.Count(s, "\n") + if !HasSuffix(s, "\n") || s == "" then 1 else 0
  }

  lemma SuffixIsLast(s: string)
    requires s != ""
    ensures HasSuffix(s, "\n") <==> s[|s| - 1] == '\n'
  {
    assert s[|s| - 1..] == [s[|s| - 1]];
  }

  lemma CountHead(s: string)
    requires s != ""
    ensures Replacements.Count(s, "\n") == (if s[0] == '\n' then 1 else 0) + Replacements.Count(s[1..], "\n")
  {
    assert HasPrefix(s, "\n") <==> s[0] == '\n';
  }

  lemma CutBeforeLast(s: string, n: nat)
    requires 1 <= n <= |s|
    ensures s == s[..n - 1] + s[n - 1..] && s[n - 1..][1..] == s[n..]
  {
  }

  lemma CountFirst(s: string)
    requires s != ""
    ensures var n := FirstLength(s);
      && Replacements.Count(s, "\n") == (if s[n - 1] == '\n' then 1 else 0) + Replacements.Count(s[n..], "\n")
      && (s[n..] != "" ==> s[n - 1] == '\n' && HasSuffix(s, "\n") == HasSuffix(s[n..], "\n"))
      && (s[n..] == "" ==> HasSuffix(s, "\n") == (s[n - 1] == '\n'))
  {
    var n := FirstLength(s);
    assert n < |s| ==> s[n - 1] == '\n';
    hide *;
    CutBeforeLast(s, n);
    CountPlain(s[..n - 1], s[n - 1..]);
    CountHead(s[n - 1..]);
    SuffixIsLast(s);
    if s[n..] != "" { SuffixIsLast(s[n..]); }
  }

  lemma {:induction false} NewlineCount(s: string)
    ensures s != "" ==> CountedLines(s) == |Pieces(s)|
    ensures CountedLines("") == 1
  {
    hide HasSuffix, FirstLength;
    if s != "" {
      hide Replacements.Count;
      CountFirst(s);
      NewlineCount(s[FirstLength(s)..]);
      NothingCounted();
    }
  }

  lemma NothingCounted()
    ensures Replacements.Count("", "\n") == 0 && Pieces("") == []
  {
  }

  lemma {:induction false} CountPlain(plain: string, rest: string)
    requires '\n' !in plain
    ensures Replacements.Count(plain + rest, "\n") == Replacements.Count(rest, "\n")
  {
    if plain == "" {
      assert plain + rest == rest;
    } else {
      var s := plain + rest;
      assert s[0] == plain[0] && s[1..] == plain[1..] + rest;
      assert !HasPrefix(s, "\n");
      CountPlain(plain[1..], rest);
    }
  }

  /** `strings.IndexByte` for a newline. */
  function IndexNewline(s: string): (i: int)
    ensures -1 <= i < |s| && (i >= 0 ==> s[i] == '\n')
    ensures forall k | 0 <= k < (if i < 0 then |s| else i) :: s[k] != '\n'
  {
    if s == "" then -1
    else if s[0] == '\n' then 0
    else
      var i := IndexNewline(s[1..]);
      assert forall k | 0 < k < |s| :: s[k] == s[1..][k - 1];
      if i < 0 then -1 else i + 1
  }

  /** The new lines, closed by a newline when the replaced lines were and something is left of them. */
  function Closed(replacement: string, hadNewline: bool): string {
    var r := StripMark(Normalize(replacement));
    if hadNewline && r != "" && !HasSuffix(r, "\n") then r + "\n" else r
  }

  /** Lines before the range, the new lines, lines behind it. */
  function Replaced(s: string, first: nat, last: nat, replacement: string): string
    requires 1 <= first <= last <= LineTotal(s)
  {
    var pieces := Pieces(s);
    if s == "" then Closed(replacement, false)
    else Flatten(pieces[..first - 1]) + Closed(replacement, Ended(pieces[last - 1])) + Flatten(pieces[last..])
  }

  /** The text up to line `i` is the first `i` lines. */
  ghost predicate AtLine(s: string, i: nat, offset: nat) {
    && offset <= |s| && i <= |Pieces(s)|
    && s[..offset] == Flatten(Pieces(s)[..i]) && s[offset..] == Flatten(Pieces(s)[i..])
    && Pieces(s[offset..]) == Pieces(s)[i..]
  }

  /** Where a line ends: behind its newline, or at the end of the text. */
  function EndOfLine(s: string, offset: nat): nat
    requires offset <= |s|
  {
    var i := IndexNewline(s[offset..]);
    if i < 0 then |s| else offset + i + 1
  }

  /** Where the first line ends, as the source finds it. */
  lemma LineEndFound(rest: string)
    requires rest != ""
    ensures var i := IndexNewline(rest);
      FirstLength(rest) == (if i < 0 then |rest| else i + 1) && (Ended(rest[..FirstLength(rest)]) <==> i >= 0)
  {
    var n, i := FirstLength(rest), IndexNewline(rest);
    assert forall k | 0 <= k < n - 1 :: rest[k] == rest[..n - 1][k];
  }

  lemma EndOfLineIs(s: string, offset: nat)
    requires offset < |s|
    ensures EndOfLine(s, offset) == offset + FirstLength(s[offset..]) <= |s|
  {
    LineEndFound(s[offset..]);
  }

  /** One line further on. */
  lemma NextLine(s: string, i: nat, offset: nat)
    requires AtLine(s, i, offset) && i < |Pieces(s)|
    ensures offset < |s| && AtLine(s, i + 1, EndOfLine(s, offset))
    ensures s[offset..][..FirstLength(s[offset..])] == Pieces(s)[i]
  {
    hide FirstLength, Flatten, EndOfLine, IndexNewline;
    var rest, pieces := s[offset..], Pieces(s);
    if rest == "" { NothingCounted(); }
    var n := FirstLength(rest);
    EndOfLineIs(s, offset);
    CutAgain(s, offset, n);
    FirstPiece(rest);
    assert pieces[i..][0] == pieces[i] && pieces[i..][1..] == pieces[i + 1..];
    assert pieces[..i + 1] == pieces[..i] + [pieces[i]];
    FlattenConcat(pieces[..i], [pieces[i]]);
    FlattenOne(pieces[i]);
    PiecesMakeTheText(rest[n..]);
  }

  lemma FirstPiece(s: string)
    requires s != ""
    ensures Pieces(s) == [s[..FirstLength(s)]] + Pieces(s[FirstLength(s)..])
  {
  }

  lemma CutAgain(s: string, offset: nat, n: nat)
    requires offset + n <= |s|
    ensures s[offset..][..n] == s[offset..offset + n] && s[offset..][n..] == s[offset + n..]
    ensures s[..offset + n] == s[..offset] + s[offset..offset + n]
  {
  }

  lemma FlattenOne(piece: string)
    ensures Flatten([piece]) == piece
  {
    assert [piece][1..] == [] && piece + [] == piece;
  }

  lemma AtFirstLine(s: string)
    ensures AtLine(s, 0, 0)
  {
    PiecesMakeTheText(s);
    assert s[0..] == s && Pieces(s)[0..] == Pieces(s);
    assert s[..0] == "" && Pieces(s)[..0] == [] && Flatten<char>([]) == [];
  }

  lemma NewlineFound(s: string, line: nat, offset: nat)
    requires 1 <= line <= |Pieces(s)| && offset <= |s| && AtLine(s, line - 1, offset)
    ensures Ended(Pieces(s)[line - 1]) == (IndexNewline(s[offset..]) >= 0)
  {
    hide *;
    NextLine(s, line - 1, offset);
    LineEndFound(s[offset..]);
  }

  lemma LineScanned(s: string, line: nat, offset: nat)
    requires 1 <= line <= LineTotal(s) && AtLine(s, line - 1, offset)
    ensures offset <= |s| && offset <= EndOfLine(s, offset) <= |s|
    ensures s == "" ==> offset == 0 && IndexNewline(s[offset..]) < 0
    ensures s != "" ==> AtLine(s, line, EndOfLine(s, offset))
    ensures s != "" ==> Ended(Pieces(s)[line - 1]) == (IndexNewline(s[offset..]) >= 0)
    ensures line < LineTotal(s) ==> IndexNewline(s[offset..]) >= 0
  {
    AtLineBounds(s, line - 1, offset);
    hide AtLine, Pieces, Ended, IndexNewline, EndOfLine;
    if s == "" {
      NothingScanned(s, offset);
    } else {
      NextLine(s, line - 1, offset);
      NewlineFound(s, line, offset);
      EndOfLineIs(s, offset);
    }
    if line < LineTotal(s) { MoreLinesFollow(s, line, offset); }
  }

  lemma AtLineBounds(s: string, i: nat, offset: nat)
    requires AtLine(s, i, offset)
    ensures offset <= |s|
  {
  }

  lemma NothingScanned(s: string, offset: nat)
    requires s == "" && offset <= |s|
    ensures IndexNewline(s[offset..]) == -1 && EndOfLine(s, offset) == 0
  {
    assert s[offset..] == "";
  }

  /** The scan for the offsets of the first and the last line of the range. */
  method FindRange(logical: string, first: nat, last: nat) returns (startOffset: nat, endOffset: nat, endHadNewline: bool)
    requires 1 <= first <= last <= LineTotal(logical)
    ensures startOffset <= endOffset <= |logical|
    ensures logical == "" ==> startOffset == endOffset == 0 && !endHadNewline
    ensures logical != "" ==>
      && AtLine(logical, first - 1, startOffset) && AtLine(logical, last, endOffset)
      && endHadNewline == Ended(Pieces(logical)[last - 1])
  {
    hide AtLine, FirstLength, IndexNewline, Ended, Pieces;
    startOffset, endOffset, endHadNewline := 0, |logical|, false;
    var lineStart := 0;
    AtFirstLine(logical);
    var line := 1;
    while line <= last
      invariant 1 <= line <= last && lineStart <= |logical| && startOffset <= lineStart
      invariant AtLine(logical, line - 1, lineStart)
      invariant line > first ==> AtLine(logical, first - 1, startOffset)
      decreases last - line
    {
      LineScanned(logical, line, lineStart);
      var relativeEnd := IndexNewline(logical[lineStart..]);
      var lineEnd := |logical|;
      var hasNewline := relativeEnd >= 0;
      if hasNewline {
        lineEnd := lineStart + relativeEnd;
      }
      if line == first {
        startOffset := lineStart;
      }
      if line == last {
        endOffset := lineEnd;
        endHadNewline := hasNewline;
        if hasNewline {
          endOffset := endOffset + 1;
        }
        return;
      }
      lineStart := lineEnd + 1;
      line := line + 1;
    }
  }

  /** A line with another line behind it ends in a newline. */
  lemma MoreLinesFollow(s: string, line: nat, offset: nat)
    requires 1 <= line < LineTotal(s) && AtLine(s, line - 1, offset)
    ensures IndexNewline(s[offset..]) >= 0
  {
    hide FirstLength, IndexNewline;
    NextLine(s, line - 1, offset);
    var rest := s[offset..];
    LineEndFound(rest);
    FirstPiece(rest);
    NothingCounted();
  }

  method ApplyLineRange(logical: string, startLine: int, endLine: int, replacement: string) returns (outcome: Outcome)
    ensures outcome.InvalidRange? <==> startLine < 1 || endLine < startLine
    ensures outcome.OutOfBounds? <==> 1 <= startLine <= endLine && endLine > LineTotal(logical)
    ensures outcome.Edited? ==> outcome.text == Replaced(logical, startLine, endLine, replacement)
    ensures outcome.Edited? ==> RangeEdited(logical, startLine, endLine, replacement, outcome.text)
  {
    hide Pieces, Flatten, Normalize, RangeEdited;
    if startLine < 1 || endLine < startLine {
      return InvalidRange;
    }
    NewlineCount(logical);
    var lineCount := Replacements.Count(logical, "\n");
    if !HasSuffix(logical, "\n") || logical == "" {
      lineCount := lineCount + 1;
    }
    if endLine > lineCount {
      return OutOfBounds(lineCount);
    }
    var startOffset, endOffset, endHadNewline := FindRange(logical, startLine, endLine);
    var replaced := StripMark(Normalize(replacement));
    if endHadNewline && replaced != "" && !HasSuffix(replaced, "\n") {
      replaced := replaced + "\n";
    }
    outcome := Edited(logical[..startOffset] + replaced + logical[endOffset..]);
    ReplacedIsRangeEdited(logical, startLine, endLine, replacement);
  }

  // --------------------------------------------------------- the lines afterwards

  lemma NoLines()
    ensures Pieces("") == [] && Flatten<char>([]) == ""
  {
  }

  /** Behind a text that is empty or ends in a newline a new line starts. */
  lemma {:induction false} PiecesConcat(a: string, b: string)
    requires a == "" || Ended(a)
    ensures Pieces(a + b) == Pieces(a) + Pieces(b)
    decreases |a|
  {
    hide Pieces, FirstLength;
    if a == "" {
      NoLines();
      assert a + b == b && [] + Pieces(b) == Pieces(b);
    } else {
      var n := FirstLength(a);
      FirstStays(a, b);
      FirstPiece(a);
      FirstPiece(a + b);
      assert (a + b)[..n] == a[..n] && (a + b)[n..] == a[n..] + b;
      PiecesConcat(a[n..], b);
    }
  }

  lemma {:induction false} FirstStays(a: string, b: string)
    requires a != "" && Ended(a)
    ensures FirstLength(a + b) == FirstLength(a) && (a[FirstLength(a)..] == "" || Ended(a[FirstLength(a)..]))
  {
    if a[0] != '\n' {
      FirstStays(a[1..], b);
      assert (a + b)[1..] == a[1..] + b;
      assert a[FirstLength(a)..] == a[1..][FirstLength(a[1..])..];
    }
  }

  lemma FlattenFirst(first: string, pieces: seq<string>)
    ensures Flatten([first] + pieces) == first + Flatten(pieces)
  {
    assert ([first] + pieces)[1..] == pieces;
  }

  /** The first line by itself is one line, ended when another follows. */
  lemma OneLinePieces(s: string)
    requires s != ""
    ensures Pieces(s[..FirstLength(s)]) == [s[..FirstLength(s)]]
    ensures FirstLength(s) < |s| ==> Ended(s[..FirstLength(s)])
  {
    hide Pieces, FirstLength;
    var first := s[..FirstLength(s)];
    NoLines();
    FirstPiece(first);
    forall k | 0 <= k < |first| - 1 ensures first[k] != '\n' { assert first[k] == s[..FirstLength(s) - 1][k]; }
    assert first[..|first|] == first && first[|first|..] == "";
  }

  /** The first `i` lines of a text, and those behind them, are texts of just these lines. */
  lemma {:induction false} LinesCutAt(s: string, i: nat)
    requires i <= |Pieces(s)|
    ensures var (before, behind) := (Flatten(Pieces(s)[..i]), Flatten(Pieces(s)[i..]));
      && Pieces(before) == Pieces(s)[..i] && Pieces(behind) == Pieces(s)[i..]
      && (i < |Pieces(s)| ==> before == "" || Ended(before))
    decreases i
  {
    hide Pieces, FirstLength, Flatten;
    NoLines();
    if i == 0 {
      PiecesMakeTheText(s);
      assert Pieces(s)[0..] == Pieces(s) && Pieces(s)[..0] == [];
    } else {
      FirstPiece(s);
      var n := FirstLength(s);
      var first, rest := s[..n], s[n..];
      LinesCutAt(rest, i - 1);
      assert Pieces(s)[..i] == [first] + Pieces(rest)[..i - 1] && Pieces(s)[i..] == Pieces(rest)[i - 1..];
      var before := Flatten(Pieces(rest)[..i - 1]);
      FlattenFirst(first, Pieces(rest)[..i - 1]);
      OneLinePieces(s);
      if rest != "" {
        PiecesConcat(first, before);
        assert before != "" ==> (first + before)[|first + before| - 1] == before[|before| - 1];
        assert before == "" ==> first + before == first;
      } else {
        assert Pieces(rest)[..i - 1] == [] && first + before == first;
      }
    }
  }

  /** The lines of the text behind line `last`; an empty text has none. */
  function LinesBehind(s: string, last: nat): seq<string> { if last <= |Pieces(s)| then Pieces(s)[last..] else [] }

  /**
   Afterwards the text has its lines before the range, the lines of the replacement
   in place of the range, and its lines behind the range: no line is merged with
   another, dropped or added, whether the replacement is empty, unended or ended.
   */
  lemma OtherLinesStay(s: string, first: nat, last: nat, replacement: string)
    requires 1 <= first <= last <= LineTotal(s)
    ensures var edited := Replaced(s, first, last, replacement);
      first - 1 <= |Pieces(s)| && Pieces(edited) == Pieces(s)[..first - 1]
        + Pieces(Closed(replacement, s != "" && Ended(Pieces(s)[last - 1]))) + LinesBehind(s, last)
  {
    hide Closed, Pieces, Flatten;
    NoLines();
    if s != "" {
      var closed := Closed(replacement, Ended(Pieces(s)[last - 1]));
      var before, behind := Flatten(Pieces(s)[..first - 1]), Flatten(Pieces(s)[last..]);
      LinesCutAt(s, first - 1);
      LinesCutAt(s, last);
      PiecesConcat(before, closed + behind);
      assert before + (closed + behind) == before + closed + behind;
      if last < |Pieces(s)| {
        EndedBeforeOthers(s, last);
        ClosedIsEnded(replacement);
        PiecesConcat(closed, behind);
      } else {
        assert Pieces(s)[last..] == [] && behind == "" && closed + behind == closed;
      }
    }
  }

  /** A line with another behind it ends in a newline. */
  lemma {:induction false} EndedBeforeOthers(s: string, i: nat)
    requires 0 < i < |Pieces(s)|
    ensures Ended(Pieces(s)[i - 1])
    decreases i
  {
    FirstPiece(s);
    if i > 1 { EndedBeforeOthers(s[FirstLength(s)..], i - 1); }
  }

  lemma ClosedIsEnded(replacement: string)
    ensures Closed(replacement, true) == "" || Ended(Closed(replacement, true))
  {
    hide Normalize, StripMark;
    var r := StripMark(Normalize(replacement));
    if r != "" { SuffixIsLast(r); }
  }

  // ------------------------------------------------------------ what the range says

  /** Lines without the newlines that end them. */
  function Bares(pieces: seq<string>): (lines: seq<string>)
    ensures |lines| == |pieces|
  {
    seq(|pieces|, i requires 0 <= i < |pieces| =>
      if Ended(pieces[i]) then pieces[i][..|pieces[i]| - 1] else pieces[i])
  }

  lemma BaresConcat(a: seq<string>, b: seq<string>)
    ensures Bares(a + b) == Bares(a) + Bares(b)
  {
  }

  /**
   Line for line: the lines before the range, the normalized replacement's lines
   without a leading mark, and the lines behind the range.  The text ends in a newline
   as before, or when the last line, replaced by anything at all, did.
   */
  predicate RangeEdited(s: string, first: nat, last: nat, replacement: string, t: string)
    requires 1 <= first <= last <= LineTotal(s)
  {
    var r := StripMark(Logical(replacement));
    && first - 1 <= |Pieces(s)|
    && Bares(Pieces(t)) == Bares(Pieces(s)[..first - 1]) + Bares(Pieces(r)) + Bares(LinesBehind(s, last))
    && (LinesBehind(s, last) == [] && r != "" && s != "" && Ended(Pieces(s)[last - 1]) ==> Ended(t))
    && (LinesBehind(s, last) != [] ==> Ended(t) == Ended(s))
  }

  /** Closing a text adds no line and changes none. */
  lemma ClosedKeepsLines(replacement: string, hadNewline: bool)
    ensures var r := StripMark(Logical(replacement));
      && Bares(Pieces(Closed(replacement, hadNewline))) == Bares(Pieces(r))
      && (Closed(replacement, hadNewline) == "" <==> r == "")
      && (hadNewline && r != "" ==> Ended(Closed(replacement, hadNewline)))
  {
    hide StripMark, Logical, Normalize, Pieces, Bares;
    NormalizeIsLogical(replacement);
    var r := StripMark(Logical(replacement));
    if r != "" {
      SuffixIsLast(r);
      if !HasSuffix(r, "\n") { NewlineKeepsLines(r); }
    }
  }

  lemma {:induction false} NewlineKeepsLines(r: string)
    requires r != "" && !Ended(r)
    ensures Bares(Pieces(r + "\n")) == Bares(Pieces(r))
    decreases |r|
  {
    hide Pieces, FirstLength;
    var n := FirstLength(r);
    NoLines();
    FirstPiece(r);
    if n < |r| {
      OneLinePieces(r);
      PiecesConcat(r[..n], r[n..]);
      PiecesConcat(r[..n], r[n..] + "\n");
      assert r + "\n" == r[..n] + (r[n..] + "\n");
      NewlineKeepsLines(r[n..]);
      BaresConcat(Pieces(r[..n]), Pieces(r[n..]));
      BaresConcat(Pieces(r[..n]), Pieces(r[n..] + "\n"));
      assert r == r[..n] + r[n..];
    } else {
      assert r[..n] == r && r[n..] == "" && '\n' !in r[..n - 1];
      LastLineEnds(r);
      assert (r + "\n")[..|r|] == r;
    }
  }

  /** One unended line, ended. */
  lemma LastLineEnds(r: string)
    requires r != "" && '\n' !in r
    ensures Pieces(r + "\n") == [r + "\n"]
  {
    hide Pieces, FirstLength;
    var t := r + "\n";
    var n := FirstLength(t);
    forall k | 0 <= k < |t| - 1 ensures t[k] != '\n' { assert t[k] == r[k]; }
    NoLines();
    FirstPiece(t);
    assert t[..|t|] == t && t[|t|..] == "";
  }

  /** What a range edit does, said line for line. */
  lemma ReplacedIsRangeEdited(s: string, first: nat, last: nat, replacement: string)
    requires 1 <= first <= last <= LineTotal(s)
    ensures RangeEdited(s, first, last, replacement, Replaced(s, first, last, replacement))
  {
    hide Closed, Pieces, Flatten, StripMark, Logical, Bares;
    var had := s != "" && Ended(Pieces(s)[last - 1]);
    var before, closed, behind := Pieces(s)[..first - 1], Pieces(Closed(replacement, had)), LinesBehind(s, last);
    OtherLinesStay(s, first, last, replacement);
    ClosedKeepsLines(replacement, had);
    BaresConcat(before + closed, behind);
    BaresConcat(before, closed);
    EndOfReplaced(s, first, last, replacement);
  }

  lemma EndOfReplaced(s: string, first: nat, last: nat, replacement: string)
    requires 1 <= first <= last <= LineTotal(s)
    ensures var (r, t) := (StripMark(Logical(replacement)), Replaced(s, first, last, replacement));
      && (LinesBehind(s, last) == [] && r != "" && s != "" && Ended(Pieces(s)[last - 1]) ==> Ended(t))
      && (LinesBehind(s, last) != [] ==> Ended(t) == Ended(s))
  {
    hide Closed, Pieces, Flatten, StripMark, Logical;
    NoLines();
    if s != "" {
      var closed := Closed(replacement, Ended(Pieces(s)[last - 1]));
      var before, behind := Flatten(Pieces(s)[..first - 1]), Flatten(Pieces(s)[last..]);
      ClosedKeepsLines(replacement, Ended(Pieces(s)[last - 1]));
      if last < |Pieces(s)| {
        LinesCutAt(s, last);
        assert behind != "";
        EndOfConcat(before + closed, behind);
        PiecesMakeTheText(s);
        FlattenConcat(Pieces(s)[..last], Pieces(s)[last..]);
        assert Pieces(s) == Pieces(s)[..last] + Pieces(s)[last..];
        EndOfConcat(Flatten(Pieces(s)[..last]), behind);
      } else {
        assert Pieces(s)[last..] == [] && before + closed + behind == before + closed;
        if closed != "" { EndOfConcat(before, closed); }
      }
    }
  }

  lemma EndOfConcat(a: string, b: string)
    requires b != ""
    ensures Ended(a + b) == Ended(b)
  {
  }
}

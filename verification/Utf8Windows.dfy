/**
 The bytes that the UTF-8 reader returns are the window of the decoded text.
 */
module Utf8Windows {
  import opened Text
  import opened Unicode
  import opened LineEndings
  import opened TextFormat
  import opened Windows
  import opened WindowReader
  import opened Utf8Reader

  // ---------------------------------------------------------------- validity by lines

  /** A newline is never part of a longer sequence. */
  lemma HeadStopsAtNewline(line: seq<Byte>, rest: seq<Byte>)
    requires line != []
    ensures HeadLength(line + [10] + rest) == HeadLength(line)
  {
    var s := line + [10] + rest;
    assert forall i | 0 <= i < |line| :: s[i] == line[i];
    assert s[|line|] == 10;
  }

  lemma {:induction false} ValidAroundNewline(line: seq<Byte>, rest: seq<Byte>)
    ensures ValidUtf8(line + [10] + rest) <==> ValidUtf8(line) && ValidUtf8(rest)
  {
    hide HeadLength;
    var s := line + [10] + rest;
    if line == [] {
      NewlineIsValid(rest);
      assert s == [10] + rest;
    } else {
      HeadStopsAtNewline(line, rest);
      var n := HeadLength(line);
      if n > 0 {
        assert s[n..] == line[n..] + [10] + rest;
        ValidAroundNewline(line[n..], rest);
      }
    }
  }

  lemma NewlineIsValid(rest: seq<Byte>)
    ensures ValidUtf8([10] + rest) <==> ValidUtf8(rest)
  {
    assert ([10] + rest)[1..] == rest;
  }

  lemma {:induction false} ValidByLines(b: seq<Byte>)
    ensures AllValid(BareLines(RawPieces(b))) <==> ValidUtf8(b)
  {
    hide ValidUtf8, RawLength;
    if b == [] {
      assert ValidUtf8([]) by { EmptyIsValid(); }
    } else {
      var n := RawLength(b);
      var raw, rest := b[..n], b[n..];
      ValidByLines(rest);
      assert RawPieces(b) == [raw] + RawPieces(rest);
      var lines := BareLines(RawPieces(b));
      assert lines == [WithoutNewline(raw)] + BareLines(RawPieces(rest));
      assert forall line :: line in lines <==> line == lines[0] || line in lines[1..];
      if raw[n - 1] == 10 {
        ValidAroundNewline(raw[..n - 1], rest);
        assert b == raw[..n - 1] + [10] + rest;
      } else {
        assert rest == [] && b == raw;
        EmptyIsValid();
      }
    }
  }

  lemma EmptyIsValid()
    ensures ValidUtf8([])
  {
  }

  // ------------------------------------------------------------------ lines of a text

  function EncodeAll(pieces: seq<string>): (raws: seq<seq<Byte>>)
    ensures |raws| == |pieces|
  {
    if pieces == [] then [] else [EncodeUtf8(pieces[0])] + EncodeAll(pieces[1..])
  }

  lemma {:induction false} EncodeAllAt(pieces: seq<string>, i: nat)
    requires i < |pieces|
    ensures EncodeAll(pieces)[i] == EncodeUtf8(pieces[i])
  {
    if i > 0 { EncodeAllAt(pieces[1..], i - 1); }
  }

  lemma RunePlain(c: char)
    requires c != '\n'
    ensures forall i | 0 <= i < |RuneBytes(c)| :: RuneBytes(c)[i] != 10
  {
  }

  lemma {:induction false} RawSkips(plain: seq<Byte>, rest: seq<Byte>)
    requires rest != [] && forall i | 0 <= i < |plain| :: plain[i] != 10
    ensures RawLength(plain + rest) == |plain| + RawLength(rest)
  {
    if plain == [] {
      assert plain + rest == rest;
    } else {
      assert (plain + rest)[1..] == plain[1..] + rest;
      RawSkips(plain[1..], rest);
    }
  }

  lemma {:induction false} RawOfPlain(plain: seq<Byte>)
    requires plain != [] && forall i | 0 <= i < |plain| :: plain[i] != 10
    ensures RawLength(plain) == |plain|
  {
    if |plain| > 1 { RawOfPlain(plain[1..]); }
  }

  lemma EncodeFirst(t: string)
    requires t != ""
    ensures EncodeUtf8(t) == RuneBytes(t[0]) + EncodeUtf8(t[1..]) && EncodeUtf8(t) != []
    ensures t[1..] != "" ==> EncodeUtf8(t[1..]) != []
    ensures t[1..] == "" ==> EncodeUtf8(t[1..]) == []
    ensures t[0] == '\n' ==> RuneBytes(t[0]) == [10]
  {
  }

  /** The first raw line of an encoded text is its first line encoded. */
  lemma {:induction false} FirstRaw(t: string)
    requires t != ""
    ensures EncodeUtf8(t) != [] && EncodeUtf8(t)[..RawLength(EncodeUtf8(t))] == EncodeUtf8(t[..FirstLength(t)])
    ensures EncodeUtf8(t)[RawLength(EncodeUtf8(t))..] == EncodeUtf8(t[FirstLength(t)..])
  {
    hide EncodeUtf8, RuneBytes;
    var n := FirstLength(t);
    EncodeFirst(t);
    assert t == t[..n] + t[n..];
    EncodeUtf8Concat(t[..n], t[n..]);
    RawLengthIs(t);
  }

  lemma {:induction false} RawLengthIs(t: string)
    requires t != ""
    ensures EncodeUtf8(t) != [] && RawLength(EncodeUtf8(t)) == |EncodeUtf8(t[..FirstLength(t)])|
  {
    hide EncodeUtf8, RuneBytes;
    var n := FirstLength(t);
    EncodeFirst(t);
    if t[0] == '\n' {
      assert t[..1] == ['\n'];
      SingleRune('\n');
    } else {
      RunePlain(t[0]);
      if |t| == 1 {
        RawOfPlain(RuneBytes(t[0]));
        assert t[..1] == t && EncodeUtf8(t) == RuneBytes(t[0]) + [];
      } else {
        RawLengthIs(t[1..]);
        RawSkips(RuneBytes(t[0]), EncodeUtf8(t[1..]));
        assert t[..n] == [t[0]] + t[1..][..n - 1];
        EncodeUtf8Concat([t[0]], t[1..][..n - 1]);
        SingleRune(t[0]);
      }
    }
  }

  lemma {:induction false} RawPiecesOfEncoded(t: string)
    ensures RawPieces(EncodeUtf8(t)) == EncodeAll(Pieces(t))
  {
    hide RuneBytes, RawLength, FirstLength;
    if t != "" {
      hide EncodeUtf8;
      FirstRaw(t);
      RawPiecesOfEncoded(t[FirstLength(t)..]);
    }
  }

  /** Dropping the newline before or after encoding. */
  lemma BareOfEncoded(piece: string)
    ensures WithoutNewline(EncodeUtf8(piece)) == EncodeUtf8(Line(piece))
    ensures EncodeUtf8(piece) == EncodeUtf8(Line(piece)) + if HasSuffix(piece, "\n") then [10] else []
  {
    hide EncodeUtf8, RuneBytes;
    assert HasSuffix(piece, "\n") <==> piece != "" && piece[|piece| - 1] == '\n' by {
      if piece != "" { assert piece[|piece| - 1..] == [piece[|piece| - 1]]; }
    }
    if piece == "" {
      EncodeNothing();
    } else {
      var init, last := piece[..|piece| - 1], piece[|piece| - 1];
      assert piece == init + [last];
      EncodeUtf8Concat(init, [last]);
      SingleRune(last);
      RuneEnds(last);
      EncodeFirst([last]);
      if last == '\n' {
        assert WithoutNewline(EncodeUtf8(piece)) == EncodeUtf8(init);
      }
    }
  }

  lemma EncodeNothing()
    ensures EncodeUtf8("") == []
  {
  }

  // --------------------------------------------------------------------- boundaries

  lemma {:induction false} RuneStarts(c: char)
    ensures RuneStart(RuneBytes(c)[0]) && forall i | 0 < i < |RuneBytes(c)| :: !RuneStart(RuneBytes(c)[i])
  {
  }

  /** A cut on the start of a code point is a cut between two characters. */
  lemma {:induction false} BoundaryIsRuneStart(s: string, k: nat)
    requires k <= |EncodeUtf8(s)|
    ensures OnBoundary(s, k) <==> k == |EncodeUtf8(s)| || RuneStart(EncodeUtf8(s)[k])
  {
    hide RuneBytes, OnBoundary;
    if s == "" {
      BoundaryOfEmpty(k);
    } else {
      RuneStarts(s[0]);
      BoundaryStep(s, k);
      var n := |RuneBytes(s[0])|;
      if k >= n {
        BoundaryIsRuneStart(s[1..], k - n);
        assert k < |EncodeUtf8(s)| ==> EncodeUtf8(s)[k] == EncodeUtf8(s[1..])[k - n];
      } else {
        assert EncodeUtf8(s)[k] == RuneBytes(s[0])[k];
        if k == 0 { OffsetZeroIsBoundary(s); }
      }
    }
  }

  lemma BoundaryWithin(s: string, k: nat)
    ensures OnBoundary(s, k) ==> k <= |EncodeUtf8(s)|
  {
    if OnBoundary(s, k) {
      var j :| 0 <= j <= |s| && Utf8Length(s[..j]) == k;
      LengthConcat(s[..j], s[j..]);
      assert s == s[..j] + s[j..];
      LengthIsBytes(s);
    }
  }

  /** Cutting bytes back to a code point start is cutting the text to the budget. */
  lemma {:induction false} BudgetedIsFit(s: string, budget: nat)
    ensures Budgeted(EncodeUtf8(s), budget) == EncodeUtf8(Fit(s, budget))
  {
    hide EncodeUtf8;
    LengthIsBytes(s);
    if Utf8Length(s) > budget {
      TruncatedIsFit(s, budget);
    } else {
      hide Fit;
      FitOrNot(s, budget);
    }
  }

  lemma {:induction false} TruncatedIsFit(s: string, k: nat)
    requires k < |EncodeUtf8(s)|
    ensures Truncated(EncodeUtf8(s), k) == EncodeUtf8(Fit(s, k))
    decreases k
  {
    hide EncodeUtf8, OnBoundary, Fit, RuneStart;
    var b := EncodeUtf8(s);
    BoundaryIsRuneStart(s, k);
    if OnBoundary(s, k) {
      CutAtBoundary(s, k);
    } else {
      OffsetZeroIsBoundary(s);
      TruncatedIsFit(s, k - 1);
      FitSkipsNonBoundary(s, k);
    }
  }

  lemma CutAtBoundary(s: string, k: nat)
    requires OnBoundary(s, k) && k < |EncodeUtf8(s)|
    ensures EncodeUtf8(s)[..k] == EncodeUtf8(Fit(s, k))
  {
    hide EncodeUtf8, Fit;
    var j :| 0 <= j <= |s| && Utf8Length(s[..j]) == k;
    assert s == s[..j] + s[j..];
    EncodeUtf8Concat(s[..j], s[j..]);
    LengthIsBytes(s[..j]);
    FitIsLongest(s, k);
    var r := Fit(s, k);
    LongestIs(s, r, s[..j], k);
  }

  /** A prefix of exactly the budget is the longest one within it. */
  lemma LongestIs(s: string, r: string, p: string, k: nat)
    requires LongestPrefix(r, s, k) && p <= s && Utf8Length(p) == k
    ensures r == p
  {
    if |r| < |p| {
      assert s[..|r| + 1] <= p;
      PrefixLength(s[..|r| + 1], p);
    } else if |r| > |p| {
      assert r == p + r[|p|..];
      LengthConcat(p, r[|p|..]);
    }
  }

  lemma PrefixLength(p: string, s: string)
    requires p <= s
    ensures Utf8Length(p) <= Utf8Length(s)
  {
    assert s == p + s[|p|..];
    LengthConcat(p, s[|p|..]);
  }

  lemma FitSkipsNonBoundary(s: string, k: nat)
    requires !OnBoundary(s, k) && k > 0
    ensures Fit(s, k) == Fit(s, k - 1)
  {
    hide Fit;
    FitIsLongest(s, k);
    FitIsLongest(s, k - 1);
    var r, q := Fit(s, k), Fit(s, k - 1);
    assert r == s[..|r|] && Utf8Length(r) != k;
    if |r| < |q| {
      assert s[..|r| + 1] <= q;
      PrefixLength(s[..|r| + 1], q);
    } else if |q| < |r| {
      assert s[..|q| + 1] <= r;
      PrefixLength(s[..|q| + 1], r);
    }
  }

  // ---------------------------------------------------------------------- the theorem

  predicate IsMarked(content: seq<Byte>) { HasPrefix(content, UTF8_MARK) }

  /** The file without its byte order mark. */
  function BodyOf(content: seq<Byte>): seq<Byte> { if IsMarked(content) then content[3..] else content }

  /** The lines of some pieces, in bytes and without newlines. */
  function ByteLines(pieces: seq<string>): (lines: seq<seq<Byte>>)
    ensures |lines| == |pieces|
  {
    BareLines(EncodeAll(pieces))
  }

  /** The mark disappears from the first line, and from nothing else. */
  lemma LinesAreTheBody(content: seq<Byte>)
    ensures LinesOf(content) ==
      if IsMarked(content) && BodyOf(content) == [] then [[]] else BareLines(RawPieces(BodyOf(content)))
  {
    hide RawPieces;
    if IsMarked(content) {
      var body := content[3..];
      MarkedPieces(content);
      if body != [] {
        var raws := RawPieces(body);
        BodyPieces(body);
        assert RawPieces(content)[1..] == raws[1..];
        MarkedLine(raws[0]);
      }
    }
  }

  lemma BodyPieces(body: seq<Byte>)
    requires body != []
    ensures RawPieces(body) != [] && RawPieces(body)[0] != []
  {
  }

  lemma MarkedLine(raw: seq<Byte>)
    requires raw != []
    ensures TrimMark(WithoutNewline(UTF8_MARK + raw)) == WithoutNewline(raw)
  {
    var line := WithoutNewline(raw);
    assert WithoutNewline(UTF8_MARK + raw) == UTF8_MARK + line;
    TrimsMark(line);
  }

  lemma MarkedPieces(content: seq<Byte>)
    requires IsMarked(content)
    ensures var body := content[3..];
      && (body == [] ==> RawPieces(content) == [UTF8_MARK] && BareLines([UTF8_MARK]) == [UTF8_MARK] && TrimMark(UTF8_MARK) == [])
      && (body != [] ==> RawPieces(body) != [] && RawPieces(content) == [UTF8_MARK + RawPieces(body)[0]] + RawPieces(body)[1..])
  {
    hide RawLength;
    var body := content[3..];
    assert content == UTF8_MARK + body;
    if body == [] {
      RawOfPlain(UTF8_MARK);
      assert content == UTF8_MARK && content[3..] == [];
      TrimsMark([]);
    } else {
      RawSkips(UTF8_MARK, body);
      var n := RawLength(body);
      assert content[..3 + n] == UTF8_MARK + body[..n] && content[3 + n..] == body[n..];
      assert RawPieces(body)[1..] == RawPieces(body[n..]);
    }
  }

  lemma TrimsMark(line: seq<Byte>)
    ensures TrimMark(UTF8_MARK + line) == line
  {
  }

  lemma ValidWhenLinesAre(content: seq<Byte>)
    ensures AllValid(LinesOf(content)) <==> ValidUtf8(BodyOf(content))
  {
    hide LinesOf;
    LinesAreTheBody(content);
    ValidByLines(BodyOf(content));
  }

  lemma {:induction false} ByteLineAt(pieces: seq<string>, i: nat)
    requires i < |pieces|
    ensures ByteLines(pieces)[i] == EncodeUtf8(Line(pieces[i]))
  {
    hide EncodeUtf8, WithoutNewline;
    if i == 0 {
      BareOfEncoded(pieces[0]);
    } else {
      ByteLineAt(pieces[1..], i - 1);
    }
  }

  lemma SliceOfByteLines(pieces: seq<string>, from: nat, limit: nat)
    ensures Slice(ByteLines(pieces), from, limit) == ByteLines(Slice(pieces, from, limit))
  {
    hide ByteLines;
    var slice := Slice(pieces, from, limit);
    forall i | 0 <= i < |slice| ensures ByteLines(slice)[i] == ByteLines(pieces)[from + i] {
      ByteLineAt(slice, i);
      ByteLineAt(pieces, from + i);
    }
  }

  /** Every line but the last ends in a newline. */
  predicate Proper(pieces: seq<string>) { forall i | 0 <= i < |pieces| - 1 :: HasSuffix(pieces[i], "\n") }

  lemma {:induction false} JoiningFlattens(pieces: seq<string>)
    requires pieces != [] && Proper(pieces)
    ensures JoinLines(ByteLines(pieces)) + (if HasSuffix(pieces[|pieces| - 1], "\n") then [10] else [])
         == EncodeUtf8(Flatten(pieces))
  {
    hide EncodeUtf8, WithoutNewline, Line, HasSuffix;
    var lines := ByteLines(pieces);
    BareOfEncoded(pieces[0]);
    assert lines[0] == EncodeUtf8(Line(pieces[0]));
    if |pieces| == 1 {
      assert pieces[0] + [] == pieces[0] && Flatten(pieces) == pieces[0];
      assert JoinLines(lines) == lines[0];
    } else {
      var rest := pieces[1..];
      assert Proper(rest) by {
        forall i | 0 <= i < |rest| - 1 ensures HasSuffix(rest[i], "\n") { assert HasSuffix(pieces[i + 1], "\n"); }
      }
      JoiningFlattens(rest);
      EncodeUtf8Concat(pieces[0], Flatten(rest));
      assert lines[1..] == ByteLines(rest);
      assert JoinLines(lines) == lines[0] + [10] + JoinLines(ByteLines(rest));
      assert HasSuffix(pieces[0], "\n");
    }
  }

  lemma {:induction false} PiecesAreProper(t: string)
    ensures Proper(Pieces(t))
    ensures t != "" ==> Pieces(t) != [] && (HasSuffix(Pieces(t)[|Pieces(t)| - 1], "\n") <==> Ended(t))
  {
    hide FirstLength, HasSuffix;
    if t != "" {
      var n := FirstLength(t);
      var rest := Pieces(t[n..]);
      PiecesAreProper(t[n..]);
      SuffixIsLast(t[..n]);
      assert Pieces(t) == [t[..n]] + rest;
      if t[n..] == "" {
        assert t[..n] == t && rest == [];
      } else {
        FirstIsEnded(t);
        ProperCons(t[..n], rest);
        assert Ended(t) == Ended(t[n..]);
        assert Pieces(t)[|Pieces(t)| - 1] == rest[|rest| - 1];
      }
    }
  }

  lemma ProperCons(piece: string, rest: seq<string>)
    requires HasSuffix(piece, "\n") && Proper(rest)
    ensures Proper([piece] + rest)
  {
    hide HasSuffix;
    var all := [piece] + rest;
    forall i | 0 <= i < |all| - 1 ensures HasSuffix(all[i], "\n") {
      if i > 0 { assert all[i] == rest[i - 1]; }
    }
  }

  lemma SuffixIsLast(s: string)
    ensures HasSuffix(s, "\n") <==> Ended(s)
  {
    if s != "" { assert s[|s| - 1..] == [s[|s| - 1]]; }
  }

  lemma FirstIsEnded(t: string)
    requires t != "" && t[FirstLength(t)..] != ""
    ensures Ended(t[..FirstLength(t)])
  {
  }

  /** The window takes the last line of the text. */
  predicate TakesLast(t: string, w: Window) { w.start < |Pieces(t)| <= w.start + w.limit }

  /** The text of a UTF-8 window: after a final lone CR the reader adds a newline. */
  function WindowText(t: string, w: Window): string {
    Shown(ORIGIN, t, w) + if TakesLast(t, w) && EndsInCR(t) then "\n" else ""
  }

  lemma FinalEndingIs(content: seq<Byte>, t: string)
    requires BodyOf(content) == EncodeUtf8(t)
    ensures FinalEnding(content) <==> Ended(t) || EndsInCR(t)
  {
    hide EncodeUtf8;
    LastByte(t);
    if t == "" { EncodeNothing(); } else { EncodeFirst(t); }
    if IsMarked(content) { assert content == UTF8_MARK + BodyOf(content); }
  }

  lemma SliceEnds(pieces: seq<string>, from: nat, limit: nat)
    requires Proper(pieces) && limit > 0 && from < |pieces|
    ensures var slice := Slice(pieces, from, limit);
      && slice != [] && Proper(slice) && slice[|slice| - 1] == pieces[from + |slice| - 1]
      && |slice| == (if from + limit < |pieces| then limit else |pieces| - from)
      && slice[0] == pieces[from]
      && (from + limit < |pieces| ==> HasSuffix(slice[|slice| - 1], "\n"))
  {
  }

  /** Without an offset and a budget the chunk is the window, encoded. */
  lemma ChunkIsWindow(content: seq<Byte>, t: string, w: Window)
    requires BodyOf(content) == EncodeUtf8(t) && t != "" && w.limit > 0 && w.offset == 0
    ensures var selected := ByteLines(Slice(Pieces(t), w.start, w.limit));
      ChunkOf(selected, 0, FinalEnding(content) || w.start + |selected| < |Pieces(t)|) == EncodeUtf8(WindowText(t, w))
  {
    hide EncodeUtf8, ByteLines, FinalEnding, Shown, Slice, Proper, JoinLines, HasSuffix, Ended;
    var slice := Slice(Pieces(t), w.start, w.limit);
    WindowIsLines(t, w);
    PiecesAreProper(t);
    FinalEndingIs(content, t);
    EndsOnce(t);
    if w.start < |Pieces(t)| {
      SliceEnds(Pieces(t), w.start, w.limit);
      JoiningFlattens(slice);
      var lines, shown := JoinLines(ByteLines(slice)), Shown(ORIGIN, t, w);
      AddedNewline(shown);
      assert shown + "" == shown && lines + [] == lines;
      assert ByteLines(slice) != [];
    } else {
      EncodeNothing();
      SliceBeyond(Pieces(t), w.start, w.limit);
    }
  }

  lemma AddedNewline(s: string)
    ensures EncodeUtf8(s + "\n") == EncodeUtf8(s) + [10]
  {
    EncodeUtf8Concat(s, "\n");
    EncodeFirst("\n");
  }

  lemma EndsOnce(t: string)
    ensures !(Ended(t) && EndsInCR(t))
  {
  }

  lemma SliceBeyond(pieces: seq<string>, from: nat, limit: nat)
    requires from >= |pieces|
    ensures Slice(pieces, from, limit) == [] && JoinLines([]) == [] && Flatten(Slice(pieces, from, limit)) == ""
  {
  }

  /** The offset checks on bytes are the offset check on characters. */
  lemma StatusIsOffsetFits(t: string, w: Window)
    requires t != "" && w.limit > 0
    ensures OffsetStatus(ByteLines(Slice(Pieces(t), w.start, w.limit)), w.offset).Fine? <==> OffsetFits(t, w.start, w.offset)
  {
    hide EncodeUtf8, ByteLines, OnBoundary, Slice, Line, RuneStart;
    var pieces := Pieces(t);
    PiecesAreProper(t);
    if w.start < |pieces| {
      SliceEnds(pieces, w.start, w.limit);
      var slice := Slice(pieces, w.start, w.limit);
      ByteLineAt(slice, 0);
      var line := Line(pieces[w.start]);
      BoundaryWithin(line, w.offset);
      if w.offset <= |EncodeUtf8(line)| { BoundaryIsRuneStart(line, w.offset); }
    } else {
      SliceBeyond(pieces, w.start, w.limit);
    }
  }

  lemma JoinFromOffset(selected: seq<seq<Byte>>, offset: nat)
    requires selected != [] && offset <= |selected[0]|
    ensures offset <= |JoinLines(selected)|
    ensures JoinLines([selected[0][offset..]] + selected[1..]) == JoinLines(selected)[offset..]
  {
    var cut := [selected[0][offset..]] + selected[1..];
    assert cut[1..] == selected[1..];
    if |selected| > 1 {
      var rest := [10] + Join(selected[1..], [10]);
      assert JoinLines(selected) == selected[0] + rest && JoinLines(cut) == selected[0][offset..] + rest;
    }
  }

  /** Starting inside the first line drops bytes from the front of the chunk. */
  lemma ChunkFromOffset(selected: seq<seq<Byte>>, offset: nat, closed: bool)
    requires OffsetStatus(selected, offset).Fine?
    ensures offset <= |ChunkOf(selected, 0, closed)|
    ensures ChunkOf(selected, offset, closed) == ChunkOf(selected, 0, closed)[offset..]
  {
    hide JoinLines;
    if offset > 0 {
      JoinFromOffset(selected, offset);
      var whole := JoinLines(selected);
      var end: seq<Byte> := if closed then [10] else [];
      assert (whole + end)[offset..] == whole[offset..] + end;
    }
  }

  /** What the offset removes from the window text. */
  lemma TextFromOffset(t: string, w: Window)
    requires OffsetFits(t, w.start, w.offset) && w.limit > 0
    ensures w.offset <= |EncodeUtf8(WindowText(t, w.(offset := 0)))|
    ensures EncodeUtf8(WindowText(t, w)) == EncodeUtf8(WindowText(t, w.(offset := 0)))[w.offset..]
  {
    hide Shown, OffsetFits, EncodeUtf8, TakesLast, EndsInCR;
    var w0 := w.(offset := 0);
    var head := OffsetDropsItsBytes(t, w);
    var end := if TakesLast(t, w) && EndsInCR(t) then "\n" else "";
    assert TakesLast(t, w0) == TakesLast(t, w) by { SameLast(t, w); }
    LengthIsBytes(head);
    Regroup(head, Shown(ORIGIN, t, w), end);
    EncodeUtf8Concat(head, WindowText(t, w));
  }

  lemma SameLast(t: string, w: Window)
    ensures TakesLast(t, w.(offset := 0)) == TakesLast(t, w)
  {
  }

  /** Everything a read of the UTF-8 bytes of `t` returns but its line count and format. */
  lemma ChunkOfText(content: seq<Byte>, t: string, w: Window)
    requires BodyOf(content) == EncodeUtf8(t) && t != "" && w.limit > 0 && OffsetFits(t, w.start, w.offset)
    ensures var selected := ByteLines(Slice(Pieces(t), w.start, w.limit));
      && OffsetStatus(selected, w.offset).Fine?
      && ChunkOf(selected, w.offset, FinalEnding(content) || w.start + |selected| < |Pieces(t)|) == EncodeUtf8(WindowText(t, w))
  {
    hide EncodeUtf8, ByteLines, FinalEnding, WindowText, OffsetStatus, OffsetFits, ChunkOf, Slice;
    var selected := ByteLines(Slice(Pieces(t), w.start, w.limit));
    StatusIsOffsetFits(t, w);
    ChunkIsWindow(content, t, w.(offset := 0));
    ChunkFromOffset(selected, w.offset, FinalEnding(content) || w.start + |selected| < |Pieces(t)|);
    TextFromOffset(t, w);
  }

  /** The window can be read: valid bytes, a fitting offset, and a budget for at least one character. */
  ghost predicate CanRead(content: seq<Byte>, w: Window) {
    var b := BodyOf(content);
    && ValidUtf8(b) && OffsetFits(DecodeUtf8(b), w.start, w.offset)
    && BudgetFits(WindowText(DecodeUtf8(b), w), w.budget)
  }

  /** The number of lines reported; a file with only a mark has one, an empty file none. */
  function TotalLines(content: seq<Byte>): nat
    requires ValidUtf8(BodyOf(content))
  {
    if content != [] && BodyOf(content) == [] then 1 else |Pieces(DecodeUtf8(BodyOf(content)))|
  }

  /** A read returns the longest part of the decoded window that its budget allows. */
  ghost predicate ReadsWindow(result: ByteResult, content: seq<Byte>, w: Window)
    requires ValidUtf8(BodyOf(content))
  {
    var text := WindowText(DecodeUtf8(BodyOf(content)), w);
    var total := TotalLines(content);
    && result.ByteDone?
    && result.content == EncodeUtf8(Fit(text, w.budget))
    && result.totalLines == total && result.offset == (if w.start < total then w.start else total)
    && result.truncated == (w.start + w.limit < total || Utf8Length(text) > w.budget)
  }

  lemma CutText(text: string, budget: nat)
    ensures Budgeted(EncodeUtf8(text), budget) == EncodeUtf8(Fit(text, budget))
    ensures |EncodeUtf8(text)| == Utf8Length(text)
    ensures BudgetFits(text, budget) <==>
      !(Budgeted(EncodeUtf8(text), budget) == [] && EncodeUtf8(text) != [])
  {
    hide EncodeUtf8, Fit, Budgeted;
    BudgetedIsFit(text, budget);
    LengthIsBytes(text);
    EncodeNothing();
    if text != "" { EncodeFirst(text); }
    if Fit(text, budget) != "" { EncodeFirst(Fit(text, budget)); }
  }

  /** Nothing to show: one empty line, or none. */
  lemma EmptyChunk(lines: seq<seq<Byte>>, w: Window)
    requires w.budget > 0 && w.limit > 0 && (lines == [] || lines == [[]])
    ensures AllValid(lines)
    ensures OffsetStatus(Slice(lines, w.start, w.limit), w.offset).Fine? <==> w.offset == 0
    ensures w.offset == 0 ==> ChunkOf(Slice(lines, w.start, w.limit), 0, false) == []
    ensures Budgeted([], w.budget) == []
  {
    assert JoinLines([[]]) == [] && JoinLines([]) == [];
  }

  lemma EmptyWindow(w: Window)
    requires w.budget > 0
    ensures WindowText("", w) == "" == Fit("", w.budget) && BudgetFits("", w.budget)
    ensures OffsetFits("", w.start, w.offset) <==> w.offset == 0
    ensures ValidUtf8([]) && DecodeUtf8([]) == "" && EncodeUtf8("") == [] && Utf8Length("") == 0 && Pieces("") == []
  {
  }

  /** A file that is empty, or only a mark. */
  lemma EmptyReads(content: seq<Byte>, w: Window)
    requires w.limit > 0 && w.budget > 0 && BodyOf(content) == []
    ensures ReadResultOf(content, w).ByteDone? <==> CanRead(content, w)
    ensures ReadResultOf(content, w).ByteDone? ==> ReadsWindow(ReadResultOf(content, w), content, w)
  {
    hide LinesOf, FinalEnding, Fit, EncodeUtf8, DecodeUtf8, ValidUtf8, ChunkOf, OffsetStatus, OffsetFits, Budgeted, AllValid,
      WindowText, Pieces, BudgetFits, Slice, ReadFormat;
    LinesAreTheBody(content);
    var lines := LinesOf(content);
    EmptyChunk(lines, w);
    EmptyWindow(w);
    SliceCount(lines, w.start, w.limit);
    if content == [] { NoEnding(); } else { MarkIsNoEnding(content); }
  }

  lemma NoEnding()
    ensures !FinalEnding([])
  {
  }

  lemma MarkIsNoEnding(content: seq<Byte>)
    requires IsMarked(content) && BodyOf(content) == []
    ensures !FinalEnding(content)
  {
    assert content == UTF8_MARK + content[3..];
  }

  lemma TextReads(content: seq<Byte>, w: Window)
    requires w.limit > 0 && w.budget > 0 && BodyOf(content) != [] && ValidUtf8(BodyOf(content))
    ensures ReadResultOf(content, w).ByteDone? <==> CanRead(content, w)
    ensures ReadResultOf(content, w).ByteDone? ==> ReadsWindow(ReadResultOf(content, w), content, w)
  {
    hide LinesOf, FinalEnding, Fit, EncodeUtf8, DecodeUtf8, ValidUtf8, ChunkOf, OffsetStatus, OffsetFits, Budgeted, AllValid,
      BodyOf, ReadFormat, WindowText, Pieces, ByteLines, BudgetFits;
    var t := DecodeUtf8(BodyOf(content));
    Utf8IsCanonical(BodyOf(content));
    EncodeNothing();
    LinesAreTheBody(content);
    RawPiecesOfEncoded(t);
    ValidWhenLinesAre(content);
    ByteLinesAre(Pieces(t));
    SliceOfByteLines(Pieces(t), w.start, w.limit);
    StatusIsOffsetFits(t, w);
    SliceCount(Pieces(t), w.start, w.limit);
    if OffsetFits(t, w.start, w.offset) {
      ChunkOfText(content, t, w);
      CutText(WindowText(t, w), w.budget);
    }
  }

  lemma ByteLinesAre(pieces: seq<string>)
    ensures ByteLines(pieces) == BareLines(EncodeAll(pieces))
  {
  }

  lemma SliceCount<T>(pieces: seq<T>, from: nat, limit: nat)
    ensures var start := if from > |pieces| then |pieces| else from; var n := |Slice(pieces, from, limit)|;
      && (start + n < |pieces| <==> from + limit < |pieces|)
      && (from <= |pieces| ==> start == from)
      && (from > |pieces| ==> n == 0)
  {
  }

  /** Reading UTF-8 bytes is taking a window of the decoded text. */
  lemma Utf8ReadIsAWindow(content: seq<Byte>, w: Window)
    requires w.limit > 0 && w.budget > 0
    ensures ReadResultOf(content, w).ByteDone? <==> CanRead(content, w)
    ensures ReadResultOf(content, w).ByteDone? ==> ReadsWindow(ReadResultOf(content, w), content, w)
  {
    hide *;
    ValidWhenLinesAre(content);
    if BodyOf(content) == [] {
      EmptyReads(content, w);
    } else if ValidUtf8(BodyOf(content)) {
      TextReads(content, w);
    } else {
      InvalidFails(content, w);
    }
  }

  lemma InvalidFails(content: seq<Byte>, w: Window)
    requires w.budget > 0 && !AllValid(LinesOf(content)) && !ValidUtf8(BodyOf(content))
    ensures ReadResultOf(content, w).ByteFailed? && !CanRead(content, w)
  {
  }

  /** The texts of consecutive windows, until the lines run out. */
  function ReadPages(t: string, start: nat, limit: nat): string
    requires limit > 0
    decreases |Pieces(t)| - start
  {
    if start >= |Pieces(t)| then "" else WindowText(t, Window(start, limit, 0, 0)) + ReadPages(t, start + limit, limit)
  }

  /** Consecutive windows put together are the text, plus one newline after a final lone CR. */
  lemma {:induction false} ReadPagesMakeTheText(t: string, start: nat, limit: nat)
    requires limit > 0 && start < |Pieces(t)|
    ensures ReadPages(t, start, limit) == Pages(t, start, limit) + if EndsInCR(t) then "\n" else ""
    decreases |Pieces(t)| - start
  {
    hide Shown, Pieces, EndsInCR;
    var w := Window(start, limit, 0, 0);
    var shown := Shown(ORIGIN, t, w);
    if start + limit < |Pieces(t)| {
      ReadPagesMakeTheText(t, start + limit, limit);
      assert shown + "" == shown;
    } else {
      assert Pages(t, start + limit, limit) == "" && ReadPages(t, start + limit, limit) == "";
      assert Pages(t, start, limit) == shown;
    }
  }

  /** A file that ends in a lone CR is read with an LF it does not hold. */
  lemma LoneCRGainsANewline()
    ensures ReadPages("a\r", 0, 1) == "a\r\n"
  {
    var t := "a\r";
    assert t[1..] == "\r" && |Pieces(t)| > 0;
    ReadPagesMakeTheText(t, 0, 1);
    PagesMakeTheText(t, 1);
  }
}

/**
 What a bounded window of a normalized text is: whole lines from a starting
 line on, less a byte offset into the first, cut to a byte budget.
 */
module Windows {
  import opened Text
  import opened Unicode

  /** A window of `limit` lines from line `start`, `offset` bytes into it, of at most `budget` bytes. */
  datatype Window = Window(start: nat, limit: nat, offset: nat, budget: nat)

  /** A place in a text: the line, and the bytes of it already passed. */
  datatype Cursor = Cursor(line: nat, bytes: nat)

  const ORIGIN := Cursor(0, 0)

  function RuneLen(c: char): nat { |RuneBytes(c)| }

  function Utf8Length(s: string): nat { if s == "" then 0 else RuneLen(s[0]) + Utf8Length(s[1..]) }

  function Step(p: Cursor, c: char): Cursor {
    if c == '\n' then Cursor(p.line + 1, 0) else p.(bytes := p.bytes + RuneLen(c))
  }

  function Walk(p: Cursor, s: string): Cursor
    decreases s
  {
    if s == "" then p else Walk(Step(p, s[0]), s[1..])
  }

  /** A character belongs to the window if its line does and it lies at or behind the offset. */
  predicate Picks(p: Cursor, c: char, w: Window) {
    w.start <= p.line < w.start + w.limit && (c == '\n' || p.line > w.start || p.bytes >= w.offset)
  }

  /** The characters of the window, before the budget. */
  function Shown(p: Cursor, s: string, w: Window): string
    decreases s
  {
    if s == "" then "" else (if Picks(p, s[0], w) then [s[0]] else "") + Shown(Step(p, s[0]), s[1..], w)
  }

  /** The offset falls inside this character, or beyond the line that ends here. */
  predicate Bad(p: Cursor, c: char, w: Window) {
    p.line == w.start && if c == '\n' then w.offset > p.bytes else p.bytes < w.offset < p.bytes + RuneLen(c)
  }

  predicate Clean(p: Cursor, s: string, w: Window)
    decreases s
  {
    s == "" || (!Bad(p, s[0], w) && Clean(Step(p, s[0]), s[1..], w))
  }

  /** The longest prefix within the budget. */
  function Fit(s: string, budget: nat): string {
    if s == "" || Utf8Length(s) <= budget then s else Fit(s[..|s| - 1], budget)
  }

  // ------------------------------------------------------------- concatenation

  lemma {:induction false} LengthConcat(s: string, t: string)
    ensures Utf8Length(s + t) == Utf8Length(s) + Utf8Length(t)
  {
    if s == "" {
      assert s + t == t;
    } else {
      assert (s + t)[0] == s[0] && (s + t)[1..] == s[1..] + t;
      LengthConcat(s[1..], t);
    }
  }

  lemma {:induction false} LengthIsBytes(s: string)
    ensures Utf8Length(s) == |EncodeUtf8(s)|
  {
    hide RuneBytes;
    if s != "" {
      LengthIsBytes(s[1..]);
    }
  }

  lemma {:induction false} WalkConcat(p: Cursor, s: string, t: string, w: Window)
    ensures Walk(p, s + t) == Walk(Walk(p, s), t)
    ensures Shown(p, s + t, w) == Shown(p, s, w) + Shown(Walk(p, s), t, w)
    ensures Clean(p, s + t, w) <==> Clean(p, s, w) && Clean(Walk(p, s), t, w)
    decreases s
  {
    hide RuneLen;
    if s == "" {
      assert s + t == t;
    } else {
      assert (s + t)[0] == s[0] && (s + t)[1..] == s[1..] + t;
      WalkConcat(Step(p, s[0]), s[1..], t, w);
    }
  }

  /** One more character. */
  lemma WalkStep(p: Cursor, s: string, c: char, w: Window)
    ensures Walk(p, s + [c]) == Step(Walk(p, s), c)
    ensures Shown(p, s + [c], w) == Shown(p, s, w) + if Picks(Walk(p, s), c, w) then [c] else ""
    ensures Clean(p, s + [c], w) <==> Clean(p, s, w) && !Bad(Walk(p, s), c, w)
  {
    WalkConcat(p, s, [c], w);
    assert [c][1..] == "";
  }

  /** Greedy growth keeps the longest prefix within the budget. */
  lemma FitStep(s: string, c: char, budget: nat)
    ensures Utf8Length(s + [c]) == Utf8Length(s) + RuneLen(c)
    ensures Fit(s + [c], budget) == if Utf8Length(s) + RuneLen(c) <= budget then s + [c] else Fit(s, budget)
  {
    LengthConcat(s, [c]);
    assert [c][1..] == "";
    assert (s + [c])[..|s|] == s;
  }

  /** A prefix of the text within the budget that no longer prefix is. */
  predicate LongestPrefix(r: string, s: string, budget: nat) {
    && r <= s && Utf8Length(r) <= budget
    && (r < s ==> Utf8Length(s[..|r| + 1]) > budget)
  }

  lemma {:induction false} FitIsLongest(s: string, budget: nat)
    ensures LongestPrefix(Fit(s, budget), s, budget)
  {
    if s != "" && Utf8Length(s) > budget {
      var init := s[..|s| - 1];
      FitIsLongest(init, budget);
      var r := Fit(init, budget);
      assert r < init ==> s[..|r| + 1] == init[..|r| + 1];
      assert r == init ==> s[..|r| + 1] == s;
    }
  }

  /** The window is empty of characters for want of budget exactly when its first character does not fit. */
  lemma FitIsEmptyExactlyWhen(s: string, budget: nat)
    requires s != ""
    ensures Fit(s, budget) == "" <==> RuneLen(s[0]) > budget
  {
    FitIsLongest(s, budget);
    var r := Fit(s, budget);
    assert s[..1] == [s[0]] && Utf8Length([s[0]]) == RuneLen(s[0]) by { assert [s[0]][1..] == ""; }
    if r != "" {
      LengthConcat([s[0]], r[1..]);
      assert r == [s[0]] + r[1..];
    }
  }

  lemma {:induction false} FirstShownIsKept(s: string, t: string, budget: nat)
    requires s != ""
    ensures Fit(s + t, budget) == "" <==> Fit(s, budget) == ""
  {
    FitIsEmptyExactlyWhen(s, budget);
    FitIsEmptyExactlyWhen(s + t, budget);
  }

  // ---------------------------------------------------------------------- lines

  /** Length of the first line, its newline included. */
  function FirstLength(s: string): (n: nat)
    requires s != ""
    ensures 1 <= n <= |s| && '\n' !in s[..n - 1] && (n < |s| ==> s[n - 1] == '\n')
  {
    if s[0] == '\n' || |s| == 1 then 1
    else
      var n := 1 + FirstLength(s[1..]);
      assert s[..n - 1] == [s[0]] + s[1..][..n - 2];
      n
  }

  /** The lines of a text, each with the newline that ends it. */
  function Pieces(s: string): seq<string> {
    if s == "" then [] else [s[..FirstLength(s)]] + Pieces(s[FirstLength(s)..])
  }

  function Flatten<T>(pieces: seq<seq<T>>): seq<T> {
    if pieces == [] then [] else pieces[0] + Flatten(pieces[1..])
  }

  lemma {:induction false} PiecesMakeTheText(s: string)
    ensures Flatten(Pieces(s)) == s
  {
    if s != "" {
      PiecesMakeTheText(s[FirstLength(s)..]);
      assert s == s[..FirstLength(s)] + s[FirstLength(s)..];
    }
  }

  /** Pieces `from` to `from + limit`, as far as they exist. */
  function Slice<T>(pieces: seq<T>, from: nat, limit: nat): seq<T> {
    if from >= |pieces| then [] else if from + limit >= |pieces| then pieces[from..] else pieces[from..from + limit]
  }

  /** A piece's text, without the newline. */
  function Line(piece: string): string { if HasSuffix(piece, "\n") then piece[..|piece| - 1] else piece }

  /** The offset is the length of some prefix of the line. */
  ghost predicate OnBoundary(line: string, offset: nat) {
    exists j | 0 <= j <= |line| :: Utf8Length(line[..j]) == offset
  }

  predicate OneLine(s: string) { forall i | 0 <= i < |s| - 1 :: s[i] != '\n' }

  /** Walking over one line. */
  lemma {:induction false} WalkLine(p: Cursor, s: string)
    requires s != "" && OneLine(s)
    ensures Walk(p, s) == if s[|s| - 1] == '\n' then Cursor(p.line + 1, 0) else Cursor(p.line, p.bytes + Utf8Length(s))
    decreases s
  {
    if |s| > 1 {
      WalkLine(Step(p, s[0]), s[1..]);
    } else {
      assert s[1..] == "";
    }
  }

  /** Characters behind `k` bytes of a line, the newline always among them. */
  function Behind(s: string, k: int): string {
    if s == "" || k <= 0 || s[0] == '\n' then s else Behind(s[1..], k - RuneLen(s[0]))
  }

  lemma BehindPassed(s: string, k: int)
    ensures k <= 0 ==> Behind(s, k) == s
  {
  }

  /** What the window takes of one line. */
  function Share(p: Cursor, s: string, w: Window): string {
    if !(w.start <= p.line < w.start + w.limit) then ""
    else if p.line > w.start then s
    else Behind(s, w.offset - p.bytes)
  }

  lemma {:induction false} ShownLine(p: Cursor, s: string, w: Window)
    requires OneLine(s)
    ensures Shown(p, s, w) == Share(p, s, w)
    decreases s
  {
    if s != "" {
      assert s == [s[0]] + s[1..];
      if |s| > 1 {
        ShownLine(Step(p, s[0]), s[1..], w);
        BehindPassed(s[1..], w.offset - p.bytes - RuneLen(s[0]));
      } else {
        assert s[1..] == "" && Shown(Step(p, s[0]), s[1..], w) == "";
        assert Behind(s[1..], w.offset - p.bytes - RuneLen(s[0])) == "";
      }
    }
  }

  /** The first line's share of a window, and the rest from the next line on. */
  lemma ShownFirst(line: nat, s: string, w: Window)
    requires s != ""
    ensures Shown(Cursor(line, 0), s, w)
         == Share(Cursor(line, 0), s[..FirstLength(s)], w) + Shown(Cursor(line + 1, 0), s[FirstLength(s)..], w)
  {
    hide Step, Picks, FirstLength, Shown, Walk, Share;
    var n := FirstLength(s);
    var piece, rest := s[..n], s[n..];
    assert s == piece + rest;
    FirstIsOneLine(s);
    WalkConcat(Cursor(line, 0), piece, rest, w);
    WalkLine(Cursor(line, 0), piece);
    ShownLine(Cursor(line, 0), piece, w);
    if rest == "" { ShownOfNothing(w); } else { assert piece[n - 1] == '\n'; }
  }

  lemma ShownOfNothing(w: Window)
    ensures forall p :: Shown(p, "", w) == ""
  {
  }

  /** How many of the lines from `line` on come before the window, and how many may be taken. */
  function Ahead(line: nat, w: Window): nat { if w.start >= line then w.start - line else 0 }

  function Room(line: nat, w: Window): nat {
    if w.start >= line then w.limit else if w.start + w.limit >= line then w.start + w.limit - line else 0
  }

  /** Lines of a window without an offset, or behind its first line. */
  lemma {:induction false} ShownPieces(line: nat, s: string, w: Window)
    requires w.offset == 0 || line > w.start
    ensures Shown(Cursor(line, 0), s, w) == Flatten(Slice(Pieces(s), Ahead(line, w), Room(line, w)))
    decreases s
  {
    hide Shown, Slice, FirstLength;
    if s == "" {
      NothingShown(line, w);
    } else {
      var piece, rest := s[..FirstLength(s)], s[FirstLength(s)..];
      ShownFirst(line, s, w);
      assert Behind(piece, 0) == piece;
      ShownPieces(line + 1, rest, w);
      SliceStep(piece, Pieces(rest), Ahead(line, w), Room(line, w));
      if Room(line + 1, w) == 0 { SliceOfNone(Pieces(rest), Ahead(line + 1, w)); }
      if Room(line, w) == 0 { SliceOfNone(Pieces(s), Ahead(line, w)); }
    }
  }

  lemma NothingShown(line: nat, w: Window)
    ensures Shown(Cursor(line, 0), "", w) == "" == Flatten(Slice(Pieces(""), Ahead(line, w), Room(line, w)))
  {
  }

  lemma SliceOfNone(pieces: seq<string>, from: nat)
    ensures Flatten(Slice(pieces, from, 0)) == ""
  {
  }

  lemma FirstIsOneLine(s: string)
    requires s != ""
    ensures OneLine(s[..FirstLength(s)])
  {
    var n := FirstLength(s);
    forall i | 0 <= i < n - 1 ensures s[i] != '\n' { assert s[..n - 1][i] == s[i]; }
  }

  lemma SliceStep(piece: string, rest: seq<string>, from: nat, limit: int)
    requires limit >= 0
    ensures Flatten(Slice([piece] + rest, from, limit)) ==
      if from > 0 then Flatten(Slice(rest, from - 1, limit))
      else if limit == 0 then "" else piece + Flatten(Slice(rest, 0, limit - 1))
  {
    var all := [piece] + rest;
    if from > 0 {
      assert Slice(all, from, limit) == Slice(rest, from - 1, limit);
    } else if limit > 0 {
      assert Slice(all, 0, limit) == [piece] + Slice(rest, 0, limit - 1);
    }
  }

  /** Without an offset the window is the selected lines of the text. */
  lemma WindowIsLines(s: string, w: Window)
    requires w.offset == 0
    ensures Shown(ORIGIN, s, w) == Flatten(Slice(Pieces(s), w.start, w.limit))
  {
    ShownPieces(0, s, w);
  }

  /** Reading on from the end of each window until the lines run out. */
  function Pages(s: string, start: nat, limit: nat): string
    requires limit > 0
    decreases |Pieces(s)| - start
  {
    if start >= |Pieces(s)| then ""
    else Shown(ORIGIN, s, Window(start, limit, 0, 0)) + Pages(s, start + limit, limit)
  }

  lemma {:induction false} FlattenConcat<T>(a: seq<seq<T>>, b: seq<seq<T>>)
    ensures Flatten(a + b) == Flatten(a) + Flatten(b)
  {
    if a == [] {
      assert a + b == b;
    } else {
      assert (a + b)[1..] == a[1..] + b;
      FlattenConcat(a[1..], b);
    }
  }

  lemma {:induction false} PagesAreTheRest(s: string, start: nat, limit: nat)
    requires limit > 0 && start <= |Pieces(s)|
    ensures Pages(s, start, limit) == Flatten(Pieces(s)[start..])
    decreases |Pieces(s)| - start
  {
    hide Shown;
    var pieces := Pieces(s);
    if start < |pieces| {
      var w := Window(start, limit, 0, 0);
      WindowIsLines(s, w);
      var next := start + limit;
      if next >= |pieces| {
        assert Pages(s, next, limit) == "";
      } else {
        PagesAreTheRest(s, next, limit);
        assert pieces[start..] == pieces[start..next] + pieces[next..];
        FlattenConcat(pieces[start..next], pieces[next..]);
      }
    }
  }

  /** Consecutive windows put together are the whole text. */
  lemma PagesMakeTheText(s: string, limit: nat)
    requires limit > 0
    ensures Pages(s, 0, limit) == s
  {
    PagesAreTheRest(s, 0, limit);
    PiecesMakeTheText(s);
    assert Pieces(s)[0..] == Pieces(s);
  }

  // -------------------------------------------------------------- byte offsets

  predicate Ended(s: string) { s != "" && s[|s| - 1] == '\n' }

  /** The checks left for the end of the text: the last line, and whether the first line was met. */
  predicate EndFits(p: Cursor, ended: bool, w: Window) {
    && (!ended && p.line == w.start ==> w.offset <= p.bytes)
    && (w.offset > 0 ==> w.start < p.line + if ended then 0 else 1)
  }

  /** The offset lies within its line, on a code point boundary. */
  ghost predicate OffsetFits(s: string, start: nat, offset: nat) {
    offset == 0 || (start < |Pieces(s)| && OnBoundary(Line(Pieces(s)[start]), offset))
  }

  lemma BoundaryStep(line: string, offset: int)
    requires line != ""
    ensures OnBoundary(line, if offset < 0 then 0 else offset) || offset < 0
       <==> offset <= 0 || (offset >= RuneLen(line[0]) && OnBoundary(line[1..], offset - RuneLen(line[0])))
  {
    if offset > 0 {
      if OnBoundary(line, offset) {
        var j :| 0 <= j <= |line| && Utf8Length(line[..j]) == offset;
        assert j > 0 && line[..j][1..] == line[1..][..j - 1];
        assert Utf8Length(line[1..][..j - 1]) == offset - RuneLen(line[0]);
      }
      if offset >= RuneLen(line[0]) && OnBoundary(line[1..], offset - RuneLen(line[0])) {
        var j :| 0 <= j <= |line| - 1 && Utf8Length(line[1..][..j]) == offset - RuneLen(line[0]);
        assert line[..j + 1][1..] == line[1..][..j];
        assert Utf8Length(line[..j + 1]) == offset;
      }
    } else {
      assert line[..0] == "";
    }
  }

  lemma BoundaryOfEmpty(offset: nat)
    ensures OnBoundary("", offset) <==> offset == 0
  {
    assert ""[..0] == "";
  }

  lemma LineStep(s: string)
    requires |s| > 1
    ensures Line(s) == [s[0]] + Line(s[1..])
  {
    assert HasSuffix(s, "\n") <==> s[|s| - 1] == '\n' by { assert s[|s| - 1..] == [s[|s| - 1]]; }
    assert HasSuffix(s[1..], "\n") <==> s[|s| - 1] == '\n' by { assert s[1..][|s| - 2..] == [s[|s| - 1]]; }
  }

  /** Walking the rest of the window's first line meets no error. */
  predicate CleanToEnd(p: Cursor, s: string, w: Window) {
    Clean(p, s, w) && (Ended(s) || w.offset <= p.bytes + Utf8Length(s))
  }

  /** The offset is passed, or lies on a boundary of the rest of the line. */
  ghost predicate Reaches(bytes: nat, line: string, offset: nat) {
    offset <= bytes || OnBoundary(line, offset - bytes)
  }

  lemma CleanCharacter(p: Cursor, s: string, w: Window)
    requires |s| > 1 && s[0] != '\n' && p.line == w.start
    ensures CleanToEnd(p, s, w) <==>
      !(p.bytes < w.offset < p.bytes + RuneLen(s[0])) && CleanToEnd(Step(p, s[0]), s[1..], w)
  {
  }

  lemma ReachesCharacter(bytes: nat, line: string, offset: nat)
    requires line != ""
    ensures Reaches(bytes, line, offset) <==>
      !(bytes < offset < bytes + RuneLen(line[0])) && Reaches(bytes + RuneLen(line[0]), line[1..], offset)
  {
    hide OnBoundary, RuneLen;
    BoundaryStep(line, offset - bytes);
    OffsetZeroIsBoundary(line[1..]);
  }

  lemma CleanLastCharacter(p: Cursor, s: string, w: Window)
    requires |s| == 1 && p.line == w.start
    ensures CleanToEnd(p, s, w) <==> Reaches(p.bytes, Line(s), w.offset)
  {
    hide OnBoundary, RuneLen;
    assert s[1..] == "" && s == [s[0]] && s[0..] == s;
    assert Utf8Length(s) == RuneLen(s[0]) && Clean(Step(p, s[0]), s[1..], w);
    if s[0] == '\n' {
      assert HasSuffix(s, "\n") && Line(s) == "";
      if w.offset > p.bytes { BoundaryOfEmpty(w.offset - p.bytes); }
    } else {
      ReachesCharacter(p.bytes, s, w.offset);
      var bytes := p.bytes + RuneLen(s[0]);
      if w.offset > bytes { BoundaryOfEmpty(w.offset - bytes); }
    }
  }

  /** Walking the first line of a window cleanly is finding its offset on a boundary. */
  lemma {:induction false} CleanLine(p: Cursor, s: string, w: Window)
    requires s != "" && OneLine(s) && p.line == w.start
    ensures CleanToEnd(p, s, w) <==> Reaches(p.bytes, Line(s), w.offset)
    decreases s
  {
    hide CleanToEnd, Reaches, RuneLen, Line;
    if |s| > 1 {
      CleanCharacter(p, s, w);
      CleanLine(Step(p, s[0]), s[1..], w);
      LineStep(s);
      ReachesCharacter(p.bytes, Line(s), w.offset);
      assert Line(s)[1..] == Line(s[1..]);
    } else {
      CleanLastCharacter(p, s, w);
    }
  }

  /** Before the window's first line nothing is checked. */
  lemma {:induction false} CleanBefore(p: Cursor, s: string, w: Window)
    requires OneLine(s) && p.line != w.start
    ensures Clean(p, s, w)
    decreases s
  {
    if |s| > 1 { CleanBefore(Step(p, s[0]), s[1..], w); } else if |s| == 1 { assert s[1..] == ""; }
  }

  lemma {:induction false} CleanBehind(p: Cursor, s: string, w: Window)
    requires p.line > w.start
    ensures Clean(p, s, w) && Walk(p, s).line >= p.line
    decreases s
  {
    if s != "" { CleanBehind(Step(p, s[0]), s[1..], w); }
  }

  /** The first line, then the rest. */
  lemma CleanSplit(line: nat, s: string, w: Window)
    requires s != ""
    ensures var n := FirstLength(s); var p := Cursor(line, 0); var p' := Walk(p, s[..n]);
      && OneLine(s[..n]) && s[..n] != ""
      && (Clean(p, s, w) <==> Clean(p, s[..n], w) && Clean(p', s[n..], w))
      && Walk(p, s) == Walk(p', s[n..])
      && (s[n..] != "" ==> p' == Cursor(line + 1, 0) && Ended(s[..n]) && Ended(s) == Ended(s[n..]))
      && (s[n..] == "" ==> s[..n] == s)
      && p' == if Ended(s[..n]) then Cursor(line + 1, 0) else Cursor(line, Utf8Length(s[..n]))
  {
    hide Step, Picks, Shown, Walk, Clean, Bad;
    var n := FirstLength(s);
    assert s == s[..n] + s[n..];
    FirstIsOneLine(s);
    WalkConcat(Cursor(line, 0), s[..n], s[n..], w);
    WalkLine(Cursor(line, 0), s[..n]);
    if s[n..] == "" { WalkOfNothing(); }
  }

  lemma WalkOfNothing()
    ensures forall p :: Walk(p, "") == p
  {
  }

  /** The window's own first line. */
  lemma CleanAtStart(s: string, w: Window)
    requires s != ""
    ensures Clean(Cursor(w.start, 0), s, w) && EndFits(Walk(Cursor(w.start, 0), s), Ended(s), w)
       <==> OffsetFits(s, 0, w.offset)
  {
    hide Step, Picks, Shown, Walk, Clean, Bad, OnBoundary;
    var n := FirstLength(s);
    var piece, rest := s[..n], s[n..];
    var p := Cursor(w.start, 0);
    CleanSplit(w.start, s, w);
    CleanLine(p, piece, w);
    OffsetZeroIsBoundary(Line(piece));
    assert Pieces(s)[0] == piece;
    if rest != "" {
      CleanBehind(Walk(p, piece), rest, w);
    } else {
      WalkOfNothing();
      NothingIsClean(w);
    }
  }

  lemma OffsetZeroIsBoundary(line: string)
    ensures OnBoundary(line, 0)
  {
    assert Utf8Length(line[..0]) == 0;
  }

  lemma NothingIsClean(w: Window)
    ensures forall p :: Clean(p, "", w)
  {
  }

  /** A nonempty text passes all the checks exactly when the offset fits its line. */
  lemma {:induction false} CleanFrom(line: nat, s: string, w: Window)
    requires s != "" && line <= w.start
    ensures Clean(Cursor(line, 0), s, w) && EndFits(Walk(Cursor(line, 0), s), Ended(s), w)
       <==> OffsetFits(s, w.start - line, w.offset)
    decreases s
  {
    hide Step, Picks, Shown, Walk, Clean, Bad, OnBoundary, FirstLength;
    if line == w.start {
      CleanAtStart(s, w);
    } else {
      var n := FirstLength(s);
      CleanSplit(line, s, w);
      CleanBefore(Cursor(line, 0), s[..n], w);
      assert Pieces(s) == [s[..n]] + Pieces(s[n..]);
      if s[n..] != "" {
        CleanFrom(line + 1, s[n..], w);
        assert w.start - line < |Pieces(s)| ==> Pieces(s)[w.start - line] == Pieces(s[n..])[w.start - line - 1];
      } else {
        WalkOfNothing();
        NothingIsClean(w);
        assert Pieces(s[n..]) == [];
      }
    }
  }

  /** Any text, the empty one included. */
  lemma OffsetFitsExactlyWhen(s: string, w: Window)
    ensures Clean(ORIGIN, s, w) && EndFits(Walk(ORIGIN, s), Ended(s), w) <==> OffsetFits(s, w.start, w.offset)
  {
    hide OnBoundary, FirstLength, Bad, Step;
    if s != "" {
      hide Clean, Walk, Pieces;
      CleanFrom(0, s, w);
    }
  }

  /** A fitting offset removes exactly that many bytes from the front of the window. */
  lemma OffsetDropsItsBytes(s: string, w: Window) returns (head: string)
    requires OffsetFits(s, w.start, w.offset) && w.limit > 0
    ensures Utf8Length(head) == w.offset
    ensures Shown(ORIGIN, s, w.(offset := 0)) == head + Shown(ORIGIN, s, w)
  {
    hide Shown, OnBoundary;
    if w.offset == 0 {
      head := "";
      assert w.(offset := 0) == w;
    } else {
      head := OffsetDropsFrom(0, s, w);
    }
  }

  lemma {:induction false} BehindBoundary(line: string, end: string, k: nat) returns (head: string)
    requires OnBoundary(line, k) && '\n' !in line && (end == "" || end == "\n")
    ensures line + end == head + Behind(line + end, k) && Utf8Length(head) == k
  {
    hide OnBoundary, RuneLen;
    var s := line + end;
    if k == 0 {
      head := "";
    } else {
      assert line != "" by { if line == "" { BoundaryOfEmpty(k); } }
      BoundaryStep(line, k);
      assert s[0] == line[0] && s[1..] == line[1..] + end && s == [line[0]] + s[1..];
      var inner := BehindBoundary(line[1..], end, k - RuneLen(line[0]));
      var tail := Behind(s[1..], k - RuneLen(line[0]));
      assert Behind(s, k) == tail;
      head := [line[0]] + inner;
      Regroup([line[0]], inner, tail);
      assert head[1..] == inner;
    }
  }

  lemma OffsetDropsAtStart(s: string, w: Window) returns (head: string)
    requires w.offset > 0 && OffsetFits(s, 0, w.offset) && w.limit > 0
    ensures Utf8Length(head) == w.offset
    ensures Shown(Cursor(w.start, 0), s, w.(offset := 0)) == head + Shown(Cursor(w.start, 0), s, w)
  {
    hide Shown, OnBoundary, Behind, FirstLength, Utf8Length, Line, Share;
    var piece, rest := s[..FirstLength(s)], s[FirstLength(s)..];
    var p, w0 := Cursor(w.start, 0), w.(offset := 0);
    ShownFirst(w.start, s, w);
    ShownFirst(w.start, s, w0);
    assert Pieces(s)[0] == piece;
    LineAndEnd(s);
    head := BehindBoundary(Line(piece), piece[|Line(piece)|..], w.offset);
    ShownAnyOffset(w.start + 1, rest, w);
    ShareAtStart(p, piece, w);
    ShareAtStart(p, piece, w0);
    NoneBehind(piece);
    Regroup(head, Behind(piece, w.offset), Shown(Cursor(w.start + 1, 0), rest, w));
  }

  lemma ShareAtStart(p: Cursor, s: string, w: Window)
    requires p == Cursor(w.start, 0) && w.limit > 0
    ensures Share(p, s, w) == Behind(s, w.offset)
  {
  }

  lemma Regroup(a: string, b: string, c: string)
    ensures a + (b + c) == (a + b) + c
  {
  }

  lemma {:induction false} OffsetDropsFrom(line: nat, s: string, w: Window) returns (head: string)
    requires line <= w.start && w.offset > 0 && OffsetFits(s, w.start - line, w.offset) && w.limit > 0
    ensures Utf8Length(head) == w.offset
    ensures Shown(Cursor(line, 0), s, w.(offset := 0)) == head + Shown(Cursor(line, 0), s, w)
    decreases s
  {
    hide Shown, OnBoundary, Behind, FirstLength, Utf8Length, Line;
    if line == w.start {
      head := OffsetDropsAtStart(s, w);
    } else {
      var rest := s[FirstLength(s)..];
      ShownFirst(line, s, w);
      ShownFirst(line, s, w.(offset := 0));
      assert Pieces(s)[w.start - line] == Pieces(rest)[w.start - line - 1];
      head := OffsetDropsFrom(line + 1, rest, w);
    }
  }

  lemma NoneBehind(s: string)
    ensures Behind(s, 0) == s
  {
  }

  lemma LineAndEnd(s: string)
    requires s != ""
    ensures var piece := s[..FirstLength(s)]; var line := Line(piece);
      && |line| <= |piece| && piece == line + piece[|line|..] && '\n' !in line
      && (piece[|line|..] == "" || piece[|line|..] == "\n")
  {
    var n := FirstLength(s);
    var piece := s[..n];
    if HasSuffix(piece, "\n") {
      assert Line(piece) == s[..n - 1];
    } else {
      assert piece[n - 1..] == [piece[n - 1]];
      assert piece == s[..n - 1] + [piece[n - 1]];
    }
  }

  /** Behind its first line a window does not depend on the offset. */
  lemma ShownAnyOffset(line: nat, s: string, w: Window)
    requires line > w.start
    ensures Shown(Cursor(line, 0), s, w) == Shown(Cursor(line, 0), s, w.(offset := 0))
  {
    ShownPieces(line, s, w);
    ShownPieces(line, s, w.(offset := 0));
  }
}

/**
 The one-pass UTF-16 window reader of `internal/file/read.go`: surrogates, a
 pending CR, a line window and a byte budget, one code unit at a time.
 */
module WindowReader {
  import opened Text
  import opened Unicode
  import opened LineEndings
  import opened TextFormat
  import opened Windows

  datatype ReadError =
    | InvalidUtf16 | NotUtf8
    | OffsetBeyondLine | OffsetNotOnBoundary | OffsetWithoutLine
    | BudgetTooSmall

  datatype Status = Fine | Failed(error: ReadError)

  datatype ReadOptions = ReadOptions(offset: int, lineByteOffset: int, limit: int, maxBytes: int)

  /** The window that a read asks for, with the defaults filled in. */
  function WindowOf(opts: ReadOptions): (w: Window)
    ensures w.limit > 0 && w.budget > 0
  {
    Window(if opts.offset < 0 then 0 else opts.offset,
           if opts.limit <= 0 then 500 else opts.limit,
           if opts.lineByteOffset < 0 then 0 else opts.lineByteOffset,
           if opts.maxBytes <= 0 then 0x10_0000 else opts.maxBytes)
  }

  /** The first character of the window, if there is one, fits the budget. */
  predicate BudgetFits(shown: string, budget: nat) { shown == "" || Fit(shown, budget) != "" }

  /** Some prefix of the text already rules the window out. */
  predicate RulesOut(seen: string, w: Window) {
    !Clean(ORIGIN, seen, w) || !BudgetFits(Shown(ORIGIN, seen, w), w.budget)
  }

  /** How many of the first `lines` lines the window covers. */
  function Covered(lines: nat, w: Window): nat {
    if lines <= w.start then 0 else if lines <= w.start + w.limit then lines - w.start else w.limit
  }

  /** The chunk is as much of the shown characters as the budget allows, and that is not nothing. */
  predicate ChunkHolds(chunk: string, truncated: bool, shown: string, budget: nat) {
    && chunk == Fit(shown, budget) && BudgetFits(shown, budget)
    && truncated == (Utf8Length(shown) > budget)
  }

  class Utf16Window {
    const w: Window
    var chunk: string
    var lineNumber: nat
    var selectedLines: nat
    var lineUtf8Bytes: nat
    var lineHasContent: bool
    var lineEnded: bool
    var pendingCR: bool
    var byteTruncated: bool
    var sawStartLine: bool
    var counts: Counts
    var finalNewline: bool
    ghost var seen: string
    ghost var endings: seq<Ending>

    constructor (window: Window)
      requires window.limit > 0 && window.budget > 0
      ensures Valid() && w == window && seen == "" && endings == [] && !pendingCR
    {
      w := window;
      chunk, lineNumber, selectedLines, lineUtf8Bytes := "", 0, 0, 0;
      lineHasContent, lineEnded, pendingCR, byteTruncated := false, false, false, false;
      sawStartLine, counts, finalNewline := false, Counts(0, 0, 0), false;
      seen, endings := "", [];
    }

    /** The fields are what the characters seen so far say they are. */
    ghost predicate Valid()
      reads this
    {
      && w.limit > 0 && w.budget > 0
      && Walk(ORIGIN, seen) == Cursor(lineNumber, lineUtf8Bytes) && Clean(ORIGIN, seen, w)
      && lineHasContent == (lineUtf8Bytes > 0)
      && lineEnded == finalNewline == Ended(seen)
      && selectedLines == Covered(lineNumber, w)
      && sawStartLine == (lineNumber > w.start)
      && ChunkHolds(chunk, byteTruncated, Shown(ORIGIN, seen, w), w.budget)
      && |endings| == lineNumber && counts == CountsOf(endings)
    }

    method AppendChunkRune(r: char, ghost shown: string) returns (status: Status)
      requires ChunkHolds(chunk, byteTruncated, shown, w.budget)
      modifies this`chunk, this`byteTruncated
      ensures status == if BudgetFits(shown + [r], w.budget) then Fine else Failed(BudgetTooSmall)
      ensures status.Fine? ==> ChunkHolds(chunk, byteTruncated, shown + [r], w.budget)
    {
      hide Fit, RuneLen;
      FitStep(shown, r, w.budget);
      FitOrNot(shown, w.budget);
      if byteTruncated {
        return Fine;
      }
      if Utf8Length(chunk) + RuneLen(r) > w.budget {
        if Utf8Length(chunk) == 0 {
          EmptyLength(chunk);
          return Failed(BudgetTooSmall);
        }
        byteTruncated := true;
        return Fine;
      }
      chunk := chunk + [r];
      return Fine;
    }

    method AppendChunkNewline(ghost shown: string)
      requires ChunkHolds(chunk, byteTruncated, shown, w.budget) && w.budget > 0
      modifies this`chunk, this`byteTruncated
      ensures ChunkHolds(chunk, byteTruncated, shown + ['\n'], w.budget)
    {
      hide Fit;
      FitStep(shown, '\n', w.budget);
      FitOrNot(shown, w.budget);
      if byteTruncated {
        return;
      }
      if Utf8Length(chunk) + 1 > w.budget {
        EmptyLength(chunk);
        byteTruncated := true;
        return;
      }
      chunk := chunk + ['\n'];
    }

    /** At the end of a line: the offset must lie within the window's first line. */
    method ValidateLineByteOffset() returns (status: Status)
      modifies this`sawStartLine
      ensures sawStartLine == (old(sawStartLine) || lineNumber == w.start)
      ensures status == if lineNumber == w.start && w.offset > lineUtf8Bytes then Failed(OffsetBeyondLine) else Fine
    {
      if lineNumber != w.start {
        return Fine;
      }
      sawStartLine := true;
      if w.offset > lineUtf8Bytes {
        return Failed(OffsetBeyondLine);
      }
      return Fine;
    }

    /** Move to the next line and count the ending. */
    method NextLine(ending: Ending)
      modifies this`lineUtf8Bytes, this`lineHasContent, this`lineNumber, this`lineEnded, this`finalNewline,
        this`counts, this`seen, this`endings
      ensures lineUtf8Bytes == 0 && !lineHasContent && lineNumber == old(lineNumber) + 1 && lineEnded && finalNewline
      ensures counts == Counted(old(counts), ending)
      ensures seen == old(seen) + ['\n'] && endings == old(endings) + [ending]
    {
      lineUtf8Bytes := 0;
      lineHasContent := false;
      lineNumber := lineNumber + 1;
      lineEnded := true;
      finalNewline := true;
      match ending {
        case CrLf => counts := counts.(crlf := counts.crlf + 1);
        case Cr => counts := counts.(cr := counts.cr + 1);
        case Lf => counts := counts.(lf := counts.lf + 1);
      }
      seen, endings := seen + ['\n'], endings + [ending];
    }

    /** A line ending. */
    method Emit(ending: Ending) returns (status: Status)
      requires Valid()
      modifies this
      ensures pendingCR == old(pendingCR)
      ensures status.Fine? ==> Valid() && seen == old(seen) + ['\n'] && endings == old(endings) + [ending]
      ensures status.Failed? ==> RulesOut(old(seen) + ['\n'], w)
    {
      hide Fit, Walk, Shown, Clean, Utf8Length, CountsOf, Counted, BudgetFits, Covered, Ended, ChunkHolds;
      NewlineStep(seen, w);
      EndingTallied(endings, ending);
      ghost var shown := Shown(ORIGIN, seen, w);
      status := ValidateLineByteOffset();
      if status.Failed? {
        return;
      }
      if lineNumber >= w.start && lineNumber < w.start + w.limit {
        selectedLines := selectedLines + 1;
        AppendChunkNewline(shown);
      }
      NextLine(ending);
    }

    /** A character that ends no line. */
    method AppendRune(r: char) returns (status: Status)
      requires Valid() && r != '\n'
      modifies this
      ensures pendingCR == old(pendingCR)
      ensures status.Fine? ==> Valid() && seen == old(seen) + [r] && endings == old(endings)
      ensures status.Failed? ==> RulesOut(old(seen) + [r], w)
    {
      hide Fit, Walk, Shown, Clean, Utf8Length, CountsOf, BudgetFits, Covered, Ended, RuneLen;
      VisibleStep(seen, r, w);
      ghost var shown := Shown(ORIGIN, seen, w);
      lineEnded := false;
      finalNewline := false;
      lineHasContent := true;
      var before := lineUtf8Bytes;
      lineUtf8Bytes := lineUtf8Bytes + RuneLen(r);
      seen := seen + [r];
      if lineNumber < w.start || lineNumber >= w.start + w.limit {
        return Fine;
      }
      if lineNumber == w.start && w.offset > before {
        if w.offset < lineUtf8Bytes {
          return Failed(OffsetNotOnBoundary);
        }
        return Fine;
      }
      status := AppendChunkRune(r, shown);
    }

    /** What has been read, a pending CR taken for a line ending. */
    ghost function Said(): string
      reads this
    {
      if pendingCR then seen + "\n" else seen
    }

    ghost function SaidEndings(): seq<Ending>
      reads this
    {
      if pendingCR then endings + [Cr] else endings
    }

    lemma SaysNothing()
      requires seen == "" && endings == [] && !pendingCR
      ensures Said() == "" && SaidEndings() == []
    {
    }

    /** One decoded character; on failure, a prefix of what has then been read rules the window out. */
    method Feed(r: char) returns (status: Status, ghost bad: string)
      requires Valid()
      modifies this
      ensures status.Fine? ==> Valid() && pendingCR == (r == '\r')
      ensures status.Fine? ==> Said() == LogicalWith(old(Said()), old(pendingCR), r)
      ensures status.Fine? ==> SaidEndings() == EndingsWith(old(SaidEndings()), old(pendingCR), r)
      ensures status.Failed? ==> bad <= LogicalWith(old(Said()), old(pendingCR), r) && RulesOut(bad, w)
    {
      hide RulesOut;
      ghost var said := Said();
      bad := "";
      if pendingCR {
        if r == '\n' {
          assert (endings + [Cr])[..|endings|] == endings;
          status := Emit(CrLf);
          bad := said;
          pendingCR := false;
          return;
        }
        status := Emit(Cr);
        if status.Failed? {
          bad := said;
          return;
        }
        pendingCR := false;
      }
      if r == '\r' {
        pendingCR := true;
        status := Fine;
      } else if r == '\n' {
        status := Emit(Lf);
        bad := said + ['\n'];
      } else {
        status := AppendRune(r);
        bad := said + [r];
      }
    }

    /** The last line of a text that does not end in a newline. */
    method FinishLine() returns (status: Status)
      requires Valid() && !lineEnded
      modifies this`sawStartLine, this`selectedLines, this`lineNumber
      ensures status.Fine? <==> !(old(lineNumber) == w.start && w.offset > lineUtf8Bytes)
      ensures status.Fine? ==> lineNumber == old(lineNumber) + 1 && selectedLines == Covered(lineNumber, w)
      ensures status.Fine? ==> sawStartLine == (lineNumber > w.start)
    {
      hide Fit, Shown, Clean, BudgetFits, ChunkHolds, CountsOf, Walk;
      LineInProgress(seen);
      if lineHasContent || lineNumber == 0 {
        status := ValidateLineByteOffset();
        if status.Failed? {
          return;
        }
        if lineNumber >= w.start && lineNumber < w.start + w.limit {
          selectedLines := selectedLines + 1;
        }
        lineNumber := lineNumber + 1;
      }
    }

    /** The end of the file. */
    method Finish() returns (status: Status, truncated: bool)
      requires Valid()
      modifies this
      ensures status.Fine? <==>
        (!RulesOut(old(Said()), w) && EndFits(Walk(ORIGIN, old(Said())), Ended(old(Said())), w))
      ensures status.Fine? ==>
        && lineNumber == LineCount(old(Said())) && counts == CountsOf(old(SaidEndings()))
        && finalNewline == Ended(old(Said()))
        && ChunkHolds(chunk, byteTruncated, Shown(ORIGIN, old(Said()), w), w.budget)
        && truncated == (w.start + Covered(lineNumber, w) < lineNumber || byteTruncated)
    {
      hide Fit, Shown, Clean, BudgetFits, ChunkHolds, CountsOf, Walk, Covered, RulesOut;
      ghost var said := Said();
      truncated := false;
      if pendingCR {
        status := Emit(Cr);
        if status.Failed? {
          return;
        }
      } else if !lineEnded {
        RulesOutOrValid(said, chunk, byteTruncated, w);
        status := FinishLine();
        if status.Failed? {
          return;
        }
      }
      RulesOutOrValid(said, chunk, byteTruncated, w);
      if w.offset > 0 && !sawStartLine {
        status := Failed(OffsetWithoutLine);
        return;
      }
      truncated := w.start + selectedLines < lineNumber || byteTruncated;
      status := Fine;
    }
  }

  /** Lines of a logical text; the empty text has one. */
  function LineCount(s: string): nat { Walk(ORIGIN, s).line + if Ended(s) then 0 else 1 }

  lemma RulesOutOrValid(seen: string, chunk: string, truncated: bool, w: Window)
    requires Clean(ORIGIN, seen, w) && ChunkHolds(chunk, truncated, Shown(ORIGIN, seen, w), w.budget)
    ensures !RulesOut(seen, w)
  {
  }

  /** A line without its newline either has characters or is the first line of an empty text. */
  lemma LineInProgress(seen: string)
    requires !Ended(seen)
    ensures var p := Walk(ORIGIN, seen); p.bytes > 0 || p.line == 0
  {
    if seen != "" {
      var init, c := seen[..|seen| - 1], seen[|seen| - 1];
      assert seen == init + [c];
      WalkStep(ORIGIN, init, c, Window(0, 0, 0, 0));
    }
  }

  /** What a newline does to the window. */
  lemma NewlineStep(seen: string, w: Window)
    ensures var p := Walk(ORIGIN, seen); var next := seen + ['\n']; var shown := Shown(ORIGIN, seen, w);
      && Walk(ORIGIN, next) == Cursor(p.line + 1, 0) && Ended(next)
      && Shown(ORIGIN, next, w) == (if w.start <= p.line < w.start + w.limit then shown + ['\n'] else shown)
      && (Clean(ORIGIN, next, w) <==> Clean(ORIGIN, seen, w) && !(p.line == w.start && w.offset > p.bytes))
      && Covered(p.line + 1, w) == Covered(p.line, w) + if w.start <= p.line < w.start + w.limit then 1 else 0
  {
    hide Walk, Shown, Clean;
    WalkStep(ORIGIN, seen, '\n', w);
    assert Shown(ORIGIN, seen, w) + "" == Shown(ORIGIN, seen, w);
  }

  /** What any other character does to the window. */
  lemma VisibleStep(seen: string, c: char, w: Window)
    requires c != '\n'
    ensures var p := Walk(ORIGIN, seen); var next := seen + [c]; var shown := Shown(ORIGIN, seen, w);
      && RuneLen(c) > 0 && Walk(ORIGIN, next) == Cursor(p.line, p.bytes + RuneLen(c)) && !Ended(next)
      && Shown(ORIGIN, next, w) ==
          (if w.start <= p.line < w.start + w.limit && !(p.line == w.start && w.offset > p.bytes) then shown + [c] else shown)
      && (Clean(ORIGIN, next, w) <==>
          Clean(ORIGIN, seen, w) && !(p.line == w.start && p.bytes < w.offset < p.bytes + RuneLen(c)))
  {
    hide Walk, Shown, Clean;
    WalkStep(ORIGIN, seen, c, w);
    assert Shown(ORIGIN, seen, w) + "" == Shown(ORIGIN, seen, w);
  }

  lemma FitOrNot(shown: string, budget: nat)
    ensures Utf8Length(shown) <= budget ==> Fit(shown, budget) == shown
    ensures Utf8Length("") == 0 && RuneLen('\n') == 1 && Fit("", budget) == ""
  {
  }

  lemma EmptyLength(s: string)
    ensures Utf8Length(s) == 0 <==> s == ""
  {
  }

  // ------------------------------------------------------- the text character by character

  predicate EndsInCR(t: string) { t != "" && t[|t| - 1] == '\r' }

  /** How one more character changes the logical text. */
  function LogicalWith(logical: string, endsInCR: bool, c: char): string {
    if endsInCR && c == '\n' then logical else logical + [if c == '\r' then '\n' else c]
  }

  /** How one more character changes the endings: an LF completes a CR. */
  function EndingsWith(es: seq<Ending>, endsInCR: bool, c: char): seq<Ending> {
    if endsInCR && c == '\n' then (if es == [] then [] else es[..|es| - 1]) + [CrLf]
    else es + (if c == '\r' then [Cr] else if c == '\n' then [Lf] else [])
  }

  /** Where the first character or ending of a text stops. */
  function Cut(s: string): (n: nat)
    requires s != ""
    ensures 1 <= n <= |s|
  {
    if s[0] == '\r' && |s| > 1 && s[1] == '\n' then 2 else 1
  }

  lemma CutOnce(s: string)
    requires s != ""
    ensures Logical(s) == [if s[0] == '\r' then '\n' else s[0]] + Logical(s[Cut(s)..])
    ensures TextEndings(s) == (if s[0] == '\r' then [if Cut(s) == 2 then CrLf else Cr] else if s[0] == '\n' then [Lf] else [])
                              + TextEndings(s[Cut(s)..])
  {
  }

  lemma CutGrown(t: string, c: char)
    requires t != "" && !(t == "\r" && c == '\n')
    ensures Cut(t + [c]) == Cut(t) && (t + [c])[Cut(t)..] == t[Cut(t)..] + [c]
    ensures t[Cut(t)..] != "" ==> EndsInCR(t) == EndsInCR(t[Cut(t)..])
    ensures t[Cut(t)..] == "" ==> t == "\r\n" || t == [t[0]]
  {
  }

  lemma OneMoreAfterCR(c: char)
    requires c == '\n'
    ensures Logical("\r" + [c]) == LogicalWith(Logical("\r"), true, c)
    ensures TextEndings("\r" + [c]) == EndingsWith(TextEndings("\r"), true, c) && TextEndings("\r") == [Cr]
  {
    CutOnce("\r" + [c]);
    CutOnce("\r");
    assert ("\r" + [c])[2..] == "" && "\r"[1..] == "";
    assert [Cr][..0] == [];
  }

  lemma OneMoreAfterNothing(c: char)
    ensures Logical([c]) == LogicalWith("", false, c)
    ensures TextEndings([c]) == EndingsWith([], false, c)
  {
    CutOnce([c]);
    assert [c][1..] == "";
  }

  lemma WithPrepended(x: char, logical: string, h: seq<Ending>, es: seq<Ending>, endsInCR: bool, c: char)
    requires endsInCR && c == '\n' ==> es != []
    ensures [x] + LogicalWith(logical, endsInCR, c) == LogicalWith([x] + logical, endsInCR, c)
    ensures h + EndingsWith(es, endsInCR, c) == EndingsWith(h + es, endsInCR, c)
  {
    if endsInCR && c == '\n' {
      assert (h + es)[..|h + es| - 1] == h + es[..|es| - 1];
    }
  }

  lemma WithoutMerge(logical: string, es: seq<Ending>, endsInCR: bool, c: char)
    requires !(endsInCR && c == '\n')
    ensures LogicalWith(logical, endsInCR, c) == LogicalWith(logical, false, c)
    ensures EndingsWith(es, endsInCR, c) == EndingsWith(es, false, c)
  {
  }

  lemma {:induction false} OneMore(t: string, c: char)
    ensures Logical(t + [c]) == LogicalWith(Logical(t), EndsInCR(t), c)
    ensures TextEndings(t + [c]) == EndingsWith(TextEndings(t), EndsInCR(t), c)
    ensures EndsInCR(t) ==> TextEndings(t) != [] && TextEndings(t)[|TextEndings(t)| - 1] == Cr
  {
    hide Logical, Endings, Cut, LogicalWith, EndingsWith;
    NothingSaid();
    if t == "" {
      OneMoreAfterNothing(c);
      assert t + [c] == [c];
    } else if t == "\r" && c == '\n' {
      OneMoreAfterCR(c);
    } else {
      var rest := t[Cut(t)..];
      CutGrown(t, c);
      CutOnce(t);
      CutOnce(t + [c]);
      OneMore(rest, c);
      var x := if t[0] == '\r' then '\n' else t[0];
      var h := if t[0] == '\r' then [if Cut(t) == 2 then CrLf else Cr] else if t[0] == '\n' then [Lf] else [];
      WithPrepended(x, Logical(rest), h, TextEndings(rest), EndsInCR(rest), c);
      if rest == "" {
        WithoutMerge(Logical(t), TextEndings(t), EndsInCR(t), c);
        WithoutMerge([x] + Logical(rest), h + TextEndings(rest), EndsInCR(rest), c);
      }
    }
  }

  lemma NothingSaid()
    ensures Logical("") == "" && TextEndings("") == []
  {
  }

  /** The logical text of a prefix is a prefix of the logical text. */
  lemma {:induction false} LogicalPrefix(t: string, u: string)
    ensures Logical(t) <= Logical(t + u)
    decreases u
  {
    hide Logical, Endings;
    if u == "" {
      assert t + u == t;
    } else {
      OneMore(t, u[0]);
      LogicalPrefix(t + [u[0]], u[1..]);
      assert t + u == (t + [u[0]]) + u[1..];
    }
  }

  lemma {:induction false} TallyAppends(es: seq<Ending>, ending: Ending, e: Ending)
    ensures Tally(es + [ending], e) == Tally(es, e) + if ending == e then 1 else 0
  {
    if es == [] {
      assert es + [ending] == [ending];
    } else {
      assert (es + [ending])[0] == es[0] && (es + [ending])[1..] == es[1..] + [ending];
      TallyAppends(es[1..], ending, e);
    }
  }

  /** One more ending of its kind. */
  function Counted(counts: Counts, ending: Ending): Counts {
    match ending
    case CrLf => counts.(crlf := counts.crlf + 1)
    case Cr => counts.(cr := counts.cr + 1)
    case Lf => counts.(lf := counts.lf + 1)
  }

  lemma EndingTallied(es: seq<Ending>, ending: Ending)
    ensures CountsOf(es + [ending]) == Counted(CountsOf(es), ending)
  {
    TallyAppends(es, ending, Lf);
    TallyAppends(es, ending, CrLf);
    TallyAppends(es, ending, Cr);
  }

  // ------------------------------------------------------------------ the whole file

  datatype ReadResult =
    | ReadDone(content: string, totalLines: nat, offset: nat, truncated: bool, format: Format)
    | ReadFailed(error: ReadError)

  /** The window exists: its offset lies on a boundary of an existing line, and something fits the budget. */
  ghost predicate Readable(logical: string, w: Window) {
    OffsetFits(logical, w.start, w.offset) && BudgetFits(Shown(ORIGIN, logical, w), w.budget)
  }

  /** The window of a logical text: the longest part of it within the budget. */
  function WindowResult(logical: string, format: Format, w: Window): ReadResult {
    var shown := Shown(ORIGIN, logical, w);
    var total := LineCount(logical);
    ReadDone(Fit(shown, w.budget), total, if w.start < total then w.start else total,
             w.start + Covered(total, w) < total || Utf8Length(shown) > w.budget, format)
  }

  /** What has been said after reading `text`, with `units` of all the units still to come. */
  ghost predicate Stands(said: string, es: seq<Ending>, pendingCR: bool, text: string, units: seq<Unit>, all: seq<Unit>) {
    && said == Logical(text) && es == TextEndings(text) && pendingCR == EndsInCR(text)
    && text + DecodeUnits(units) == DecodeUnits(all)
    && (Paired(all) <==> Paired(units))
  }

  lemma StandsNext(said: string, es: seq<Ending>, pendingCR: bool, text: string, units: seq<Unit>, all: seq<Unit>)
    requires Stands(said, es, pendingCR, text, units, all) && units != []
    ensures var next := NextRune(units);
      if next.Broken? then !Paired(all)
      else
        && next.used <= |units|
        && Stands(LogicalWith(said, pendingCR, next.r), EndingsWith(es, pendingCR, next.r), next.r == '\r',
                  text + [next.r], units[next.used..], all)
  {
    hide Logical, Endings, DecodeUnits, Paired, NextRune, LogicalWith, EndingsWith;
    NextRuneDecodes(units);
    var next := NextRune(units);
    if next.Rune? {
      OneMore(text, next.r);
      var rest := DecodeUnits(units[next.used..]);
      assert text + ([next.r] + rest) == (text + [next.r]) + rest;
    }
  }

  lemma StandsAtEnd(said: string, es: seq<Ending>, pendingCR: bool, text: string, units: seq<Unit>, all: seq<Unit>)
    requires Stands(said, es, pendingCR, text, units, all) && units == []
    ensures Paired(all) && said == Logical(DecodeUnits(all)) && es == TextEndings(DecodeUnits(all))
  {
    hide Logical, Endings;
    assert text + "" == text;
  }

  lemma StandsAtStart(units: seq<Unit>)
    ensures Stands("", [], false, "", units, units)
  {
  }

  /** A prefix that rules the window out makes the whole text unreadable. */
  lemma RuledOutIsUnreadable(bad: string, text: string, rest: string, w: Window)
    requires bad <= Logical(text) && RulesOut(bad, w)
    ensures !Readable(Logical(text + rest), w)
  {
    hide Clean, Walk, Shown, OffsetFits, Fit;
    var n := Logical(text + rest);
    LogicalPrefix(text, rest);
    assert n == bad + n[|bad|..];
    WalkConcat(ORIGIN, bad, n[|bad|..], w);
    OffsetFitsExactlyWhen(n, w);
    if !BudgetFits(Shown(ORIGIN, bad, w), w.budget) {
      FirstShownIsKept(Shown(ORIGIN, bad, w), Shown(Walk(ORIGIN, bad), n[|bad|..], w), w.budget);
    }
  }

  lemma ReadableAtEnd(n: string, w: Window)
    ensures Readable(n, w) <==> !RulesOut(n, w) && EndFits(Walk(ORIGIN, n), Ended(n), w)
  {
    hide Clean, Walk, Shown, OffsetFits;
    OffsetFitsExactlyWhen(n, w);
  }

  /** The next character of the file, if its surrogates are in order. */
  datatype Next = Rune(r: char, used: nat) | Broken

  function NextRune(units: seq<Unit>): Next
    requires units != []
  {
    if High(units[0]) then if |units| > 1 && Low(units[1]) then Rune(Pair(units[0], units[1]), 2) else Broken
    else if Low(units[0]) then Broken
    else Rune(units[0] as char, 1)
  }

  lemma NextRuneDecodes(units: seq<Unit>)
    requires units != []
    ensures var next := NextRune(units);
      if next.Broken? then !Paired(units)
      else
        && next.used <= |units| && (Paired(units) <==> Paired(units[next.used..]))
        && DecodeUnits(units) == [next.r] + DecodeUnits(units[next.used..])
  {
  }

  /** Reading the units of the next character from the file. */
  method ReadRune(content: seq<Byte>, order: Order, pos: nat) returns (next: Next, pos': nat)
    requires pos + 1 < |content|
    ensures next == NextRune(UnitsOf(order, content[pos..]))
    ensures next.Rune? ==> pos < pos' <= |content|
    ensures next.Rune? ==> UnitsOf(order, content[pos'..]) == UnitsOf(order, content[pos..])[next.used..]
    ensures next.Rune? ==> (|content| - pos') % 2 == (|content| - pos) % 2
  {
    assert content[pos..][2..] == content[pos + 2..];
    assert pos + 3 < |content| ==> content[pos + 2..][2..] == content[pos + 4..];
    var unit := UnitAt(order, content[pos], content[pos + 1]);
    pos' := pos + 2;
    if High(unit) {
      if pos' + 1 >= |content| {
        return Broken, pos';
      }
      var nextUnit := UnitAt(order, content[pos'], content[pos' + 1]);
      pos' := pos' + 2;
      if nextUnit < 0xDC00 || nextUnit > 0xDFFF {
        return Broken, pos';
      }
      next := Rune(Pair(unit, nextUnit), 2);
    } else if Low(unit) {
      next := Broken;
    } else {
      next := Rune(unit as char, 1);
    }
  }

  predicate HasOrderMark(content: seq<Byte>) {
    HasPrefix(content, OrderMark(LittleEndian)) || HasPrefix(content, OrderMark(BigEndian))
  }

  function OrderOf(content: seq<Byte>): Order
    requires |content| >= 2
  {
    if content[0] == 0xFE && content[1] == 0xFF then BigEndian else LittleEndian
  }

  lemma EndedIsFinal(text: string)
    ensures Ended(Logical(text)) <==> text != "" && (text[|text| - 1] == '\n' || text[|text| - 1] == '\r')
  {
    hide Logical, Endings;
    NothingSaid();
    if text != "" {
      var init, c := text[..|text| - 1], text[|text| - 1];
      assert text == init + [c];
      OneMore(init, c);
      if EndsInCR(init) { EndedIsFinalOfPrefix(init); }
    }
  }

  lemma EndedIsFinalOfPrefix(init: string)
    requires EndsInCR(init)
    ensures Ended(Logical(init))
  {
    hide Logical, Endings;
    var before := init[..|init| - 1];
    assert init == before + ['\r'];
    OneMore(before, '\r');
  }

  /** The format a reader reports for some text in UTF-16. */
  function Utf16Format(order: Order, text: string): Format {
    var counts := CountsOf(TextEndings(text));
    Format(Utf16(order), Utf16Bom(order), MixOf(counts), counts, Set(Ended(Logical(text))))
  }

  /** Decoding a file with a UTF-16 mark. */
  lemma Utf16Decodes(content: seq<Byte>)
    requires HasOrderMark(content)
    ensures |content| >= 2
    ensures var order := OrderOf(content); var units := UnitsOf(order, content[2..]); var d := Decoding(content);
      && (d.Decoded? <==> |content| % 2 == 0 && Paired(units))
      && (d.Decoded? ==> d.text == DecodeUnits(units) && d.format == Utf16Format(order, d.text))
  {
    hide ValidUtf8, DecodeUtf8, EncodeUtf8, Endings, DecodeUnits, Paired, UnitsOf, Logical, CountsOf, MixOf;
    assert HasPrefix(content, OrderMark(LittleEndian)) ==> content[..2][0] == 0xFF && content[..2][1] == 0xFE;
    assert HasPrefix(content, OrderMark(BigEndian)) ==> content[..2][0] == 0xFE && content[..2][1] == 0xFF;
    var d := Decoding(content);
    if d.Decoded? {
      FormatNamesTheEndings(RawFormat(content), d.text);
      EndedIsFinal(d.text);
    }
  }

  method ReadUtf16Window(content: seq<Byte>, w: Window) returns (result: ReadResult)
    requires HasOrderMark(content) && w.limit > 0 && w.budget > 0
    ensures result.ReadDone? <==> Decoding(content).Decoded? && Readable(Logical(Decoding(content).text), w)
    ensures result.ReadDone? ==>
      result == WindowResult(Logical(Decoding(content).text), Decoding(content).format, w)
  {
    hide *;
    Utf16Decodes(content);
    var order := OrderOf(content);
    ghost var units := UnitsOf(order, content[2..]);
    if |content| < 2 || |content| % 2 != 0 {
      return ReadFailed(InvalidUtf16);
    }
    var reader := new Utf16Window(w);
    var pos := 2;
    ghost var text := "";
    StandsAtStart(units);
    assert reader.Said() == "" && reader.SaidEndings() == [] by { reader.SaysNothing(); }
    while pos < |content|
      invariant fresh(reader) && reader.w == w && reader.Valid()
      invariant 2 <= pos <= |content| && (|content| - pos) % 2 == 0
      invariant Stands(reader.Said(), reader.SaidEndings(), reader.pendingCR, text, UnitsOf(order, content[pos..]), units)
      decreases |content| - pos
    {
      ghost var left := UnitsOf(order, content[pos..]);
      assert left != [];
      var next, after := ReadRune(content, order, pos);
      StandsNext(reader.Said(), reader.SaidEndings(), reader.pendingCR, text, left, units);
      if next.Broken? {
        return ReadFailed(InvalidUtf16);
      }
      pos := after;
      text := text + [next.r];
      ghost var rest := UnitsOf(order, content[pos..]);
      Remaining(LogicalWith(reader.Said(), reader.pendingCR, next.r), EndingsWith(reader.SaidEndings(), reader.pendingCR, next.r),
                next.r == '\r', text, rest, units);
      var status, bad := reader.Feed(next.r);
      if status.Failed? {
        RuledOutIsUnreadable(bad, text, DecodeUnits(rest), w);
        return ReadFailed(status.error);
      }
    }
    StandsAtEnd(reader.Said(), reader.SaidEndings(), reader.pendingCR, text, UnitsOf(order, content[pos..]), units);
    ghost var said := reader.Said();
    var status, truncated := reader.Finish();
    ReadableAtEnd(said, w);
    if status.Failed? {
      return ReadFailed(status.error);
    }
    var total := reader.lineNumber;
    var format := Format(Utf16(order), Utf16Bom(order), MixOf(reader.counts), reader.counts, Set(reader.finalNewline));
    result := ReadDone(reader.chunk, total, if w.start < total then w.start else total, truncated, format);
    ResultOf(said, reader.chunk, reader.byteTruncated, truncated, format, w);
    FormatOf(order, DecodeUnits(units));
  }

  lemma FormatOf(order: Order, text: string)
    ensures var counts := CountsOf(TextEndings(text));
      Utf16Format(order, text) == Format(Utf16(order), Utf16Bom(order), MixOf(counts), counts, Set(Ended(Logical(text))))
  {
  }

  lemma Remaining(said: string, es: seq<Ending>, pendingCR: bool, text: string, units: seq<Unit>, all: seq<Unit>)
    requires Stands(said, es, pendingCR, text, units, all)
    ensures said == Logical(text) && DecodeUnits(all) == text + DecodeUnits(units)
  {
  }

  lemma ResultOf(said: string, chunk: string, byteTruncated: bool, truncated: bool, format: Format, w: Window)
    requires ChunkHolds(chunk, byteTruncated, Shown(ORIGIN, said, w), w.budget)
    requires truncated == (w.start + Covered(LineCount(said), w) < LineCount(said) || byteTruncated)
    ensures WindowResult(said, format, w)
         == ReadDone(chunk, LineCount(said), if w.start < LineCount(said) then w.start else LineCount(said), truncated, format)
  {
  }

  lemma {:induction false} LinesArePieces(line: nat, s: string)
    requires s != ""
    ensures Walk(Cursor(line, 0), s).line + (if Ended(s) then 0 else 1) == line + |Pieces(s)|
    decreases s
  {
    hide Walk, Clean, FirstLength;
    var n := FirstLength(s);
    CleanSplit(line, s, Window(0, 0, 0, 0));
    assert Pieces(s) == [s[..n]] + Pieces(s[n..]);
    if s[n..] == "" {
      WalkOfNothing();
      assert Pieces(s[n..]) == [];
    } else {
      LinesArePieces(line + 1, s[n..]);
    }
  }

  /** The reported number of lines; an empty file has one. */
  lemma LineCountCountsLines(s: string)
    ensures LineCount(s) == if s == "" then 1 else |Pieces(s)|
  {
    if s != "" {
      LinesArePieces(0, s);
    }
  }

  /** A window over every line with room for all of it is the whole logical text. */
  lemma FullWindowIsTheText(logical: string, format: Format, w: Window)
    requires w.start == 0 && w.offset == 0 && w.limit > 0 && w.limit >= |Pieces(logical)| && w.budget >= Utf8Length(logical)
    ensures Readable(logical, w)
    ensures WindowResult(logical, format, w)
         == ReadDone(logical, if logical == "" then 1 else |Pieces(logical)|, 0, false, format)
  {
    hide Shown, Walk;
    WindowIsLines(logical, w);
    assert Slice(Pieces(logical), 0, w.limit) == Pieces(logical);
    PiecesMakeTheText(logical);
    LineCountCountsLines(logical);
  }

  /** A budgeted text is the whole text exactly when the budget holds it. */
  lemma FitIsAllExactlyWhen(s: string, budget: nat)
    ensures Fit(s, budget) == s <==> s == "" || Utf8Length(s) <= budget
  {
    if s != "" && Utf8Length(s) > budget { FitIsShorter(s[..|s| - 1], budget); }
  }

  lemma {:induction false} FitIsShorter(s: string, budget: nat)
    ensures |Fit(s, budget)| <= |s|
  {
    if !(s == "" || Utf8Length(s) <= budget) { FitIsShorter(s[..|s| - 1], budget); }
  }

  /** What the fields of a result say: totals, the effective start, and whether anything of the text is left out behind. */
  lemma ResultMeans(logical: string, format: Format, w: Window)
    requires w.limit > 0
    ensures var r := WindowResult(logical, format, w);
      && LongestPrefix(r.content, Shown(ORIGIN, logical, w), w.budget)
      && r.totalLines == (if logical == "" then 1 else |Pieces(logical)|)
      && (w.start <= r.totalLines ==> r.offset == w.start) && (w.start > r.totalLines ==> r.offset == r.totalLines)
      && (r.truncated <==> w.start + w.limit < r.totalLines || r.content != Shown(ORIGIN, logical, w))
  {
    hide Shown, Fit, Pieces, LineCount;
    FitIsLongest(Shown(ORIGIN, logical, w), w.budget);
    FitIsAllExactlyWhen(Shown(ORIGIN, logical, w), w.budget);
    LineCountCountsLines(logical);
    EmptyLength("");
  }

  /** The defaults of a read: 500 lines and one mebibyte; negative positions count as zero. */
  lemma Defaults(opts: ReadOptions)
    ensures opts.limit <= 0 && opts.maxBytes <= 0 && opts.offset <= 0 && opts.lineByteOffset <= 0 ==>
      WindowOf(opts) == Window(0, 500, 0, 1_048_576)
    ensures opts.limit > 0 && opts.maxBytes > 0 && opts.offset >= 0 && opts.lineByteOffset >= 0 ==>
      WindowOf(opts) == Window(opts.offset, opts.limit, opts.lineByteOffset, opts.maxBytes)
  {
  }
}

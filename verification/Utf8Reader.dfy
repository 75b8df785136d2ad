/**
 The UTF-8 window reader of `internal/file/read.go`: it works on raw bytes, line
 by line, and its result is the same window of the decoded text, up to one
 newline it adds after a final lone CR.
 */
module Utf8Reader {
  import opened Text
  import opened Unicode
  import opened LineEndings
  import opened TextFormat
  import opened Windows
  import opened WindowReader

  datatype ByteResult =
    | ByteDone(content: seq<Byte>, totalLines: nat, offset: nat, truncated: bool, format: Format)
    | ByteFailed(error: ReadError)

  /** Bytes up to and including the first newline. */
  function RawLength(b: seq<Byte>): (n: nat)
    requires b != []
    ensures 1 <= n <= |b| && (n < |b| ==> b[n - 1] == 10) && forall i | 0 <= i < n - 1 :: b[i] != 10
  {
    if b[0] == 10 || |b| == 1 then 1 else 1 + RawLength(b[1..])
  }

  function RawPieces(b: seq<Byte>): seq<seq<Byte>> {
    if b == [] then [] else [b[..RawLength(b)]] + RawPieces(b[RawLength(b)..])
  }

  function WithoutNewline(raw: seq<Byte>): seq<Byte> {
    if raw != [] && raw[|raw| - 1] == 10 then raw[..|raw| - 1] else raw
  }

  function BareLines(raws: seq<seq<Byte>>): (lines: seq<seq<Byte>>)
    ensures |lines| == |raws|
  {
    if raws == [] then [] else [WithoutNewline(raws[0])] + BareLines(raws[1..])
  }

  function TrimMark(line: seq<Byte>): seq<Byte> { if HasPrefix(line, UTF8_MARK) then line[3..] else line }

  /** The lines the reader validates and selects from: no newlines, no byte order mark. */
  function LinesOf(content: seq<Byte>): seq<seq<Byte>> {
    var lines := BareLines(RawPieces(content));
    if HasPrefix(content, UTF8_MARK) && lines != [] then [TrimMark(lines[0])] + lines[1..] else lines
  }

  predicate AllValid(lines: seq<seq<Byte>>) { forall line | line in lines :: ValidUtf8(line) }

  /** The byte offset checks on the first selected line. */
  function OffsetStatus(selected: seq<seq<Byte>>, offset: nat): Status {
    if offset == 0 then Fine
    else if selected == [] then Failed(OffsetWithoutLine)
    else if offset > |selected[0]| then Failed(OffsetBeyondLine)
    else if offset < |selected[0]| && !RuneStart(selected[0][offset]) then Failed(OffsetNotOnBoundary)
    else Fine
  }

  function FromOffset(selected: seq<seq<Byte>>, offset: nat): seq<seq<Byte>>
    requires OffsetStatus(selected, offset).Fine?
  {
    if offset == 0 then selected else [selected[0][offset..]] + selected[1..]
  }

  function JoinLines(lines: seq<seq<Byte>>): seq<Byte> { if lines == [] then [] else Join(lines, [10]) }

  /** Back to the start of the code point that a cut would split. */
  function Truncated(value: seq<Byte>, k: nat): seq<Byte>
    requires k < |value|
  {
    if k > 0 && !RuneStart(value[k]) then Truncated(value, k - 1) else value[..k]
  }

  function Budgeted(value: seq<Byte>, budget: nat): seq<Byte> {
    if |value| <= budget then value else Truncated(value, budget)
  }

  /** The joined lines; a newline follows unless the window ends the file without one. */
  function ChunkOf(selected: seq<seq<Byte>>, offset: nat, closed: bool): seq<Byte>
    requires OffsetStatus(selected, offset).Fine?
  {
    JoinLines(FromOffset(selected, offset)) + if selected != [] && closed then [10] else []
  }

  function ReadFormat(content: seq<Byte>): Format {
    var (charset, bom) := DetectCharset(content[..if |content| < 4 then |content| else 4]);
    var counts := CountsOf(ByteEndings(content));
    Format(if charset == UnknownCharset then Utf8 else charset, bom, MixOf(counts), counts, Set(FinalEnding(content)))
  }

  /** What the reader returns. */
  function ReadResultOf(content: seq<Byte>, w: Window): ByteResult
    requires w.budget > 0
  {
    var lines := LinesOf(content);
    if !AllValid(lines) then ByteFailed(NotUtf8)
    else
      var selected := Slice(lines, w.start, w.limit);
      var start := if w.start > |lines| then |lines| else w.start;
      var more := start + |selected| < |lines|;
      var status := OffsetStatus(selected, w.offset);
      if status.Failed? then ByteFailed(status.error)
      else
        var chunk := ChunkOf(selected, w.offset, FinalEnding(content) || more);
        var cut := Budgeted(chunk, w.budget);
        if cut == [] && chunk != [] then ByteFailed(BudgetTooSmall)
        else ByteDone(cut, |lines|, start, more || |chunk| > w.budget, ReadFormat(content))
  }

  // --------------------------------------------------------------------- the code

  method TruncateUtf8(value: seq<Byte>, budget: nat) returns (cut: seq<Byte>)
    ensures cut == Budgeted(value, budget)
  {
    if |value| <= budget {
      return value;
    }
    var k := budget;
    while k > 0 && !RuneStart(value[k])
      invariant 0 <= k <= budget && Truncated(value, k) == Truncated(value, budget)
    {
      k := k - 1;
    }
    cut := value[..k];
  }

  lemma SliceAppend<T>(done: seq<T>, x: T, from: nat, limit: nat)
    ensures Slice(done + [x], from, limit)
         == Slice(done, from, limit) + if from <= |done| < from + limit then [x] else []
  {
  }

  lemma {:induction false} EndingsAfterNewline(raw: seq<Byte>, rest: seq<Byte>)
    requires rest == [] || (raw != [] && raw[|raw| - 1] == 10)
    ensures ByteEndings(raw + rest) == ByteEndings(raw) + ByteEndings(rest)
  {
    if rest == [] {
      assert raw + rest == raw;
    } else if raw[0] == 13 && raw[1] == 10 {
      if |raw| == 2 {
        assert raw[2..] == [] && (raw + rest)[2..] == rest;
        assert ByteEndings(raw) == [CrLf] + ByteEndings([]);
      } else {
        assert (raw + rest)[2..] == raw[2..] + rest;
        EndingsAfterNewline(raw[2..], rest);
      }
    } else if |raw| == 1 {
      assert raw[1..] == [] && (raw + rest)[1..] == rest;
    } else {
      assert (raw + rest)[1..] == raw[1..] + rest && (raw + rest)[1] == raw[1];
      EndingsAfterNewline(raw[1..], rest);
    }
  }

  lemma {:induction false} TallyConcat(a: seq<Ending>, b: seq<Ending>, e: Ending)
    ensures Tally(a + b, e) == Tally(a, e) + Tally(b, e)
  {
    if a == [] {
      assert a + b == b;
    } else {
      assert (a + b)[0] == a[0] && (a + b)[1..] == a[1..] + b;
      TallyConcat(a[1..], b, e);
    }
  }

  lemma CountsConcat(a: seq<Ending>, b: seq<Ending>)
    ensures CountsOf(a + b) == Sum(CountsOf(a), CountsOf(b))
  {
    hide Tally;
    TallyConcat(a, b, Lf);
    TallyConcat(a, b, CrLf);
    TallyConcat(a, b, Cr);
  }

  function Sum(a: Counts, b: Counts): Counts { Counts(a.lf + b.lf, a.crlf + b.crlf, a.cr + b.cr) }

  /** The counts so far, with what the rest will add, are the counts of the whole file. */
  predicate CountsSoFar(counts: Counts, rest: seq<Byte>, content: seq<Byte>) {
    Sum(counts, CountsOf(ByteEndings(rest))) == CountsOf(ByteEndings(content))
  }

  lemma CountsMoveOn(counts: Counts, raw: seq<Byte>, rest: seq<Byte>, content: seq<Byte>)
    requires CountsSoFar(counts, raw + rest, content) && (rest == [] || (raw != [] && raw[|raw| - 1] == 10))
    ensures CountsSoFar(Sum(counts, CountsOf(ByteEndings(raw))), rest, content)
  {
    hide Endings, Tally;
    EndingsAfterNewline(raw, rest);
    CountsConcat(ByteEndings(raw), ByteEndings(rest));
  }

  /** Read one line: count its endings, drop its newline and the mark. */
  method NextLine(rest: seq<Byte>, marked: bool, counts0: Counts, ghost content: seq<Byte>)
    returns (line: seq<Byte>, rest': seq<Byte>, counts: Counts)
    requires rest != [] && CountsSoFar(counts0, rest, content)
    ensures |rest'| < |rest| && CountsSoFar(counts, rest', content)
    ensures LinesLeft(rest, marked) == [line] + LinesLeft(rest', false)
  {
    hide Endings, RawLength, Tally, LinesLeft, CountsSoFar;
    var n := RawLength(rest);
    var raw := rest[..n];
    rest' := rest[n..];
    assert rest == raw + rest';
    CountsMoveOn(counts0, raw, rest', content);
    counts := ObserveLineEndings(raw, counts0);
    line := WithoutNewline(raw);
    if marked {
      line := TrimMark(line);
    }
    LinesLeftStep(rest, marked);
  }

  /** The scanning loop: validate, count and select line by line. */
  method Scan(content: seq<Byte>, w: Window) returns (valid: bool, selected: seq<seq<Byte>>, lineNumber: nat, counts: Counts)
    ensures valid == AllValid(LinesOf(content))
    ensures valid ==>
      && selected == Slice(LinesOf(content), w.start, w.limit) && lineNumber == |LinesOf(content)|
      && counts == CountsOf(ByteEndings(content))
  {
    hide ValidUtf8, Slice, CountsSoFar, LinesLeft, HasPrefix, LinesOf;
    selected, lineNumber, counts := [], 0, Counts(0, 0, 0);
    var rest := content;
    ghost var done: seq<seq<Byte>> := [];
    var marked := HasPrefix(content, UTF8_MARK);
    NothingScanned(content, w);
    while rest != []
      invariant lineNumber == |done| && LinesOf(content) == done + LinesLeft(rest, lineNumber == 0 && marked)
      invariant AllValid(done) && selected == Slice(done, w.start, w.limit)
      invariant CountsSoFar(counts, rest, content)
      decreases |rest|
    {
      var line, rest', counts' := NextLine(rest, lineNumber == 0 && marked, counts, content);
      counts := counts';
      assert LinesOf(content) == (done + [line]) + LinesLeft(rest', false);
      if !ValidUtf8(line) {
        assert LinesOf(content)[|done|] == line;
        valid := false;
        return;
      }
      SliceAppend(done, line, w.start, w.limit);
      if lineNumber >= w.start && lineNumber < w.start + w.limit {
        selected := selected + [line];
      }
      lineNumber := lineNumber + 1;
      done := done + [line];
      rest := rest';
    }
    valid := true;
    NothingLeft(counts, content);
    assert done + [] == done;
  }

  lemma NothingScanned(content: seq<Byte>, w: Window)
    ensures LinesOf(content) == [] + LinesLeft(content, HasPrefix(content, UTF8_MARK))
    ensures CountsSoFar(Counts(0, 0, 0), content, content) && Slice<seq<Byte>>([], w.start, w.limit) == []
  {
  }

  lemma NothingLeft(counts: Counts, content: seq<Byte>)
    requires CountsSoFar(counts, [], content)
    ensures counts == CountsOf(ByteEndings(content)) && forall marked :: LinesLeft([], marked) == []
  {
  }

  /** The lines still to be read, the mark trimmed from the first if it is the file's first. */
  function LinesLeft(rest: seq<Byte>, marked: bool): seq<seq<Byte>> {
    var lines := BareLines(RawPieces(rest));
    if marked && lines != [] then [TrimMark(lines[0])] + lines[1..] else lines
  }

  lemma LinesLeftStep(rest: seq<Byte>, marked: bool)
    requires rest != []
    ensures var raw := rest[..RawLength(rest)];
      LinesLeft(rest, marked) ==
        [if marked then TrimMark(WithoutNewline(raw)) else WithoutNewline(raw)] + LinesLeft(rest[RawLength(rest)..], false)
  {
    assert RawPieces(rest)[1..] == RawPieces(rest[RawLength(rest)..]);
  }

  method ReadUtf8Window(content: seq<Byte>, w: Window) returns (result: ByteResult)
    requires w.budget > 0
    ensures result == ReadResultOf(content, w)
  {
    hide ValidUtf8, Endings, LinesOf, AllValid, Tally, Slice;
    var endsWithNewline := FinalEnding(content);
    var valid, selected, lineNumber, counts := Scan(content, w);
    if !valid {
      return ByteFailed(NotUtf8);
    }
    var start := w.start;
    if start > lineNumber { start := lineNumber; }
    var status := OffsetStatus(selected, w.offset);
    if status.Failed? {
      return ByteFailed(status.error);
    }
    var more := start + |selected| < lineNumber;
    var chunk := JoinLines(FromOffset(selected, w.offset));
    if |selected| > 0 && (endsWithNewline || more) {
      chunk := chunk + [10];
    }
    assert chunk == ChunkOf(selected, w.offset, endsWithNewline || more);
    var cut := TruncateUtf8(chunk, w.budget);
    if cut == [] && chunk != [] {
      return ByteFailed(BudgetTooSmall);
    }
    var (charset, bom) := DetectCharset(content[..if |content| < 4 then |content| else 4]);
    var format := Format(if charset == UnknownCharset then Utf8 else charset, bom, MixOf(counts), counts, Set(endsWithNewline));
    result := ByteDone(cut, lineNumber, start, more || |chunk| > w.budget, format);
  }
}

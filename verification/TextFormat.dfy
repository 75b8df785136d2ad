/**
 Decoding a source file into logical text, and encoding edited text back in the
 file's own charset, byte order mark and line endings
 (`internal/file/read.go`, `internal/edit/write.go`).
 */
module TextFormat {
  import opened Text
  import opened Unicode
  import opened LineEndings

  datatype Charset = Utf8 | Utf16(order: Order) | UnknownCharset

  datatype Bom = NoBom | Utf8Bom | Utf16Bom(order: Order) | UnknownBom

  datatype FinalNewline = Unset | Set(value: bool)

  datatype Format = Format(charset: Charset, bom: Bom, mix: Mix, counts: Counts, finalNewline: FinalNewline)

  datatype Decoded = Decoded(text: string, format: Format) | Undecodable(format: Format)

  const UTF8_MARK: seq<Byte> := [0xEF, 0xBB, 0xBF]

  function OrderMark(order: Order): seq<Byte> { if order == LittleEndian then [0xFF, 0xFE] else [0xFE, 0xFF] }

  function DetectCharset(content: seq<Byte>): (Charset, Bom) {
    if HasPrefix(content, UTF8_MARK) then (Utf8, Utf8Bom)
    else if HasPrefix(content, OrderMark(LittleEndian)) then (Utf16(LittleEndian), Utf16Bom(LittleEndian))
    else if HasPrefix(content, OrderMark(BigEndian)) then (Utf16(BigEndian), Utf16Bom(BigEndian))
    else if ValidUtf8(content) then (Utf8, NoBom)
    else (UnknownCharset, UnknownBom)
  }

  function FinalEnding(content: seq<Byte>): bool {
    content != [] && (content[|content| - 1] == 10 || content[|content| - 1] == 13)
  }

  /** The format of raw bytes; line endings are looked at only in UTF-8. */
  function RawFormat(content: seq<Byte>): Format {
    var (charset, bom) := DetectCharset(content);
    if charset != Utf8 then Format(charset, bom, NoEnding, Counts(0, 0, 0), Unset)
    else
      var counts := CountsOf(ByteEndings(content));
      Format(charset, bom, MixOf(counts), counts, Set(FinalEnding(content)))
  }

  /** The format of a decoded text, seen through its UTF-8 bytes. */
  function WithText(format: Format, text: string): Format {
    var logical := RawFormat(EncodeUtf8(text));
    format.(mix := logical.mix, counts := logical.counts, finalNewline := logical.finalNewline)
  }

  /** What decoding means. */
  function Decoding(content: seq<Byte>): Decoded {
    var format := RawFormat(content);
    match format.charset
    case Utf8 =>
      var start := if format.bom == Utf8Bom then 3 else 0;
      if start > |content| || !ValidUtf8(content[start..]) then Undecodable(format)
      else
        var text := DecodeUtf8(content[start..]);
        Decoded(text, WithText(format, text))
    case Utf16(order) =>
      if |content| < 2 || |content[2..]| % 2 != 0 || !Paired(UnitsOf(order, content[2..])) then Undecodable(format)
      else
        var text := DecodeUnits(UnitsOf(order, content[2..]));
        Decoded(text, WithText(format, text))
    case UnknownCharset => Undecodable(format)
  }

  method DetectRaw(content: seq<Byte>) returns (format: Format)
    ensures format == RawFormat(content)
  {
    var (charset, bom) := DetectCharset(content);
    format := Format(charset, bom, NoEnding, Counts(0, 0, 0), Unset);
    if charset != Utf8 {
      return;
    }
    var counts := ObserveLineEndings(content, Counts(0, 0, 0));
    format := format.(counts := counts, mix := MixOf(counts), finalNewline := Set(FinalEnding(content)));
  }

  method DecodeText(content: seq<Byte>) returns (decoded: Decoded)
    ensures decoded == Decoding(content)
  {
    hide ValidUtf8, DecodeUtf8, DecodeUnits, Paired, DetectCharset, EncodeUtf8, SurrogatesInPlace;
    var format := DetectRaw(content);
    match format.charset
    case Utf8 =>
      var start := if format.bom == Utf8Bom then 3 else 0;
      if start > |content| || !ValidUtf8(content[start..]) {
        return Undecodable(format);
      }
      var text := DecodeUtf8(content[start..]);
      var logical := DetectRaw(EncodeUtf8(text));
      decoded := Decoded(text, format.(mix := logical.mix, counts := logical.counts, finalNewline := logical.finalNewline));
    case Utf16(order) =>
      if |content| < 2 || |content[2..]| % 2 != 0 {
        return Undecodable(format);
      }
      var units := ReadUnits(content[2..], order);
      var inPlace := CheckSurrogates(units);
      NeighboursSuffice(units);
      if !inPlace {
        return Undecodable(format);
      }
      var text := DecodeUnits(units);
      var logical := DetectRaw(EncodeUtf8(text));
      decoded := Decoded(text, format.(mix := logical.mix, counts := logical.counts, finalNewline := logical.finalNewline));
    case UnknownCharset =>
      decoded := Undecodable(format);
  }

  /** Fill a buffer of units; an odd last byte is dropped. */
  method ReadUnits(content: seq<Byte>, order: Order) returns (units: seq<Unit>)
    ensures units == UnitsOf(order, content)
  {
    var buffer := new Unit[|content| / 2];
    for index := 0 to buffer.Length
      invariant forall i | 0 <= i < index :: buffer[i] == UnitsOf(order, content)[i]
    {
      UnitIndex(order, content, index);
      buffer[index] := UnitAt(order, content[2 * index], content[2 * index + 1]);
    }
    units := buffer[..];
  }

  method CheckSurrogates(units: seq<Unit>) returns (inPlace: bool)
    ensures inPlace == SurrogatesInPlace(units)
  {
    for index := 0 to |units|
      invariant forall i: nat | i < index :: SurrogateAt(units, i)
    {
      var unit := units[index];
      if High(unit) {
        if index + 1 >= |units| || units[index + 1] < 0xDC00 || units[index + 1] > 0xDFFF {
          assert !SurrogateAt(units, index);
          return false;
        }
      } else if Low(unit) {
        if index == 0 || units[index - 1] < 0xD800 || units[index - 1] > 0xDBFF {
          assert !SurrogateAt(units, index);
          return false;
        }
      }
    }
    return true;
  }

  // ------------------------------------------------------------------- encoding

  function Body(logical: string, mix: Mix): string {
    match mix
    case OnlyCrLf => ReplaceAll(logical, "\n", "\r\n")
    case OnlyCr => ReplaceAll(logical, "\n", "\r")
    case _ => logical
  }

  /** Text bytes in a charset, behind a byte order mark. */
  function Marked(body: string, charset: Charset, bom: Bom): seq<Byte> {
    var out := if charset.Utf16? then BytesOf(charset.order, EncodeUnits(body)) else EncodeUtf8(body);
    match bom
    case Utf8Bom => UTF8_MARK + out
    case Utf16Bom(order) => OrderMark(order) + out
    case _ => out
  }

  method EncodeUtf16(text: string, order: Order) returns (encoded: array<Byte>)
    ensures encoded[..] == BytesOf(order, EncodeUnits(text))
  {
    hide BytesOf, EncodeUnits, UnitBytes;
    var units := EncodeUnits(text);
    encoded := new Byte[|units| * 2];
    ghost var bytes := BytesOf(order, units);
    for index := 0 to |units|
      invariant forall j | 0 <= j < 2 * index :: encoded[j] == bytes[j]
    {
      var unit := UnitBytes(order, units[index]);
      ByteIndex(order, units, index);
      assert bytes[2 * index] == unit[0] && bytes[2 * index + 1] == unit[1] by {
        assert bytes[2 * index..2 * index + 2][0] == unit[0] && bytes[2 * index..2 * index + 2][1] == unit[1];
      }
      encoded[2 * index], encoded[2 * index + 1] := unit[0], unit[1];
    }
  }

  function EncodeWithFormat(logical: string, format: Format): seq<Byte> {
    Marked(Body(logical, format.mix), format.charset, format.bom)
  }

  /** The separators of a mixed file, taken from its decoded text. */
  function Separators(format: Format, original: seq<Byte>): seq<Ending>
    requires format.charset.Utf16? ==> |original| >= 2
  {
    if format.charset.Utf16? then TextEndings(DecodeUnits(UnitsOf(format.charset.order, original[2..])))
    else ByteEndings(original)
  }

  /** Line `i` keeps its separator; lines beyond the last separator reuse that one. */
  function SeparatorAt(separators: seq<Ending>, i: nat): Ending {
    if i < |separators| then separators[i]
    else if separators != [] then separators[|separators| - 1]
    else Lf
  }

  function Used(separators: seq<Ending>, n: nat): (used: seq<Ending>)
    ensures |used| == n
  {
    seq(n, i requires 0 <= i < n => SeparatorAt(separators, i))
  }

  /** The body written for an edited text. */
  function WrittenBody(logical: string, format: Format, original: seq<Byte>): string
    requires format.charset.Utf16? ==> |original| >= 2
  {
    if format.mix != Mixed then Body(logical, format.mix)
    else
      var lines := Split(logical, '\n');
      Woven(lines, Used(Separators(format, original), |lines| - 1))
  }

  method EncodeWithOriginalFormat(logical: string, format: Format, original: seq<Byte>) returns (out: seq<Byte>)
    requires format.charset.Utf16? ==> |original| >= 2
    ensures out == Marked(WrittenBody(logical, format, original), format.charset, format.bom)
  {
    hide Marked, Woven, Split, Endings, DecodeUnits, UnitsOf, EncodeUtf8;
    if format.mix != Mixed {
      return EncodeWithFormat(logical, format);
    }
    var source := original;
    if format.charset.Utf16? {
      var units := ReadUnits(original[2..], format.charset.order);
      EndingsOfEncoded(DecodeUnits(units));
      source := EncodeUtf8(DecodeUnits(units));
    }
    var separators := CollectEndings(source);
    var lines := Split(logical, '\n');
    var builder := WeaveLines(lines, separators);
    out := EncodeWithFormat(builder, format);
  }

  /** The builder loop over the lines. */
  method WeaveLines(lines: seq<string>, separators: seq<Ending>) returns (builder: string)
    requires lines != []
    ensures builder == Woven(lines, Used(separators, |lines| - 1))
  {
    hide Woven;
    builder := "";
    ghost var used := Used(separators, |lines| - 1);
    for index := 0 to |lines|
      invariant index < |lines| ==> builder + Woven(lines[index..], used[index..]) == Woven(lines, used)
      invariant index == |lines| ==> builder == Woven(lines, used)
    {
      WovenStep(lines, used, index);
      builder := builder + lines[index];
      if index >= |lines| - 1 {
        continue;
      }
      var separator := Lf;
      if index < |separators| {
        separator := separators[index];
      } else if |separators| > 0 {
        separator := separators[|separators| - 1];
      }
      builder := builder + EndingText(separator);
    }
  }

  lemma WovenStep(lines: seq<string>, used: seq<Ending>, i: nat)
    requires |lines| == |used| + 1 && i < |lines|
    ensures Woven(lines[i..], used[i..]) == lines[i]
         + if i == |used| then "" else EndingText(used[i]) + Woven(lines[i + 1..], used[i + 1..])
  {
    assert i < |used| ==> lines[i..][1..] == lines[i + 1..] && used[i..][1..] == used[i + 1..];
  }

  // ---------------------------------------------------------------- round trips

  /** No valid text starts with a UTF-16 byte order mark. */
  lemma ValidHasNoOrderMark(b: seq<Byte>)
    requires ValidUtf8(b)
    ensures !HasPrefix(b, OrderMark(LittleEndian)) && !HasPrefix(b, OrderMark(BigEndian))
    ensures DetectCharset(b) == (Utf8, if HasPrefix(b, UTF8_MARK) then Utf8Bom else NoBom)
  {
    if |b| >= 2 {
      assert b[..2][0] == b[0];
    }
  }

  lemma RuneEnds(c: char)
    ensures var last := RuneBytes(c)[|RuneBytes(c)| - 1]; (last == 10 <==> c == '\n') && (last == 13 <==> c == '\r')
  {
  }

  lemma SingleRune(c: char)
    ensures EncodeUtf8([c]) == RuneBytes(c)
  {
    assert [c][1..] == "";
    assert RuneBytes(c) + [] == RuneBytes(c);
  }

  lemma FinalOfConcat(init: seq<Byte>, last: seq<Byte>)
    requires last != []
    ensures FinalEnding(init + last) <==> last[|last| - 1] == 10 || last[|last| - 1] == 13
  {
  }

  lemma LastByte(s: string)
    ensures FinalEnding(EncodeUtf8(s)) <==> s != "" && (s[|s| - 1] == '\n' || s[|s| - 1] == '\r')
  {
    hide RuneBytes, FinalEnding, EncodeUtf8;
    if s == "" {
      EmptyHasNoEnding();
    } else {
      var init, last := s[..|s| - 1], s[|s| - 1];
      assert s == init + [last];
      EncodeUtf8Concat(init, [last]);
      SingleRune(last);
      RuneEnds(last);
      FinalOfConcat(EncodeUtf8(init), RuneBytes(last));
    }
  }

  lemma EmptyHasNoEnding()
    ensures !FinalEnding(EncodeUtf8(""))
  {
  }

  /** The format of a decoded text names that text's own endings. */
  lemma FormatNamesTheEndings(format: Format, text: string)
    ensures WithText(format, text) == format.(counts := CountsOf(TextEndings(text)), mix := MixOf(CountsOf(TextEndings(text))),
      finalNewline := Set(text != "" && (text[|text| - 1] == '\n' || text[|text| - 1] == '\r')))
  {
    hide ValidUtf8, EncodeUtf8, Endings, DecodeUtf8, FinalEnding;
    Utf8RoundTrip(text);
    ValidHasNoOrderMark(EncodeUtf8(text));
    EndingsOfEncoded(text);
    LastByte(text);
  }

  /** Decoded bytes are their text, encoded behind their mark. */
  lemma DecodedIsMarked(content: seq<Byte>)
    requires Decoding(content).Decoded?
    ensures var d := Decoding(content);
      && content == Marked(d.text, d.format.charset, d.format.bom)
      && (d.format.charset.Utf16? ==> |content| >= 2)
      && (d.format.charset.Utf16? ==> d.text == DecodeUnits(UnitsOf(d.format.charset.order, content[2..])))
      && d.format.mix == MixOf(CountsOf(TextEndings(d.text)))
      && TextEndings(d.text) == Separators(d.format, content)
      && Consistent(d.format.charset, d.format.bom)
  {
    hide ValidUtf8, DecodeUtf8, EncodeUtf8, Endings, DecodeUnits, EncodeUnits, Paired, BytesOf, CountsOf, MixOf;
    var d := Decoding(content);
    FormatNamesTheEndings(RawFormat(content), d.text);
    match d.format.charset
    case Utf8 =>
      var start := if d.format.bom == Utf8Bom then 3 else 0;
      Utf8IsCanonical(content[start..]);
      assert content == content[..start] + content[start..];
      MarkHasNoEndings(content, start);
      EndingsOfEncoded(d.text);
    case Utf16(order) =>
      Utf16IsCanonical(UnitsOf(order, content[2..]));
      BytesReadBack(order, content[2..]);
      assert content == content[..2] + content[2..];
  }

  lemma MarkHasNoEndings(content: seq<Byte>, start: nat)
    requires start == 0 || (start == 3 && HasPrefix(content, UTF8_MARK))
    ensures ByteEndings(content) == ByteEndings(content[start..])
  {
    if start == 3 {
      PlainHasNoEndings(UTF8_MARK, content[3..]);
      assert content == UTF8_MARK + content[3..];
    } else {
      assert content[0..] == content;
    }
  }

  // ------------------------------------------------- what survives being written

  /** The endings written between the lines, whichever path writes them. */
  function WrittenEndings(format: Format, original: seq<Byte>, n: nat): (used: seq<Ending>)
    requires format.charset.Utf16? ==> |original| >= 2
    ensures |used| == n
  {
    match format.mix
    case Mixed => Used(Separators(format, original), n)
    case OnlyCrLf => Repeated(CrLf, n)
    case OnlyCr => Repeated(Cr, n)
    case _ => Repeated(Lf, n)
  }

  function Repeated(e: Ending, n: nat): (es: seq<Ending>)
    ensures |es| == n && forall i | 0 <= i < n :: es[i] == e
  {
    if n == 0 then [] else [e] + Repeated(e, n - 1)
  }

  /** Replacing each newline by an ending; an LF stays what it is. */
  function Replaced(s: string, e: Ending): string {
    if e == Lf then s else ReplaceAll(s, "\n", EndingText(e))
  }

  lemma ReplacedStep(s: string, e: Ending)
    requires s != ""
    ensures Replaced(s, e) == (if s[0] == '\n' then EndingText(e) else [s[0]]) + Replaced(s[1..], e)
  {
    assert HasPrefix(s, "\n") <==> s[0] == '\n';
    assert s == [s[0]] + s[1..];
  }

  lemma WovenLine(lines: seq<string>, e: Ending)
    requires lines != []
    ensures Woven([""] + lines, Repeated(e, |lines|)) == EndingText(e) + Woven(lines, Repeated(e, |lines| - 1))
  {
    var used := Repeated(e, |lines|);
    assert used == [e] + Repeated(e, |lines| - 1) && used[1..] == Repeated(e, |lines| - 1);
    hide Repeated, EndingText;
    assert ([""] + lines)[1..] == lines && "" + EndingText(e) == EndingText(e);
  }

  /** Replacing every newline weaves one and the same ending between the lines. */
  lemma {:induction false} ReplacingWeaves(s: string, e: Ending)
    ensures var lines := Split(s, '\n'); Replaced(s, e) == Woven(lines, Repeated(e, |lines| - 1))
  {
    hide Woven, Repeated, Replaced;
    if s == "" {
      assert Replaced("", e) == Woven([""], Repeated(e, 0)) by { EmptyWeaves(e); }
    } else {
      var rest := Split(s[1..], '\n');
      ReplacingWeaves(s[1..], e);
      ReplacedStep(s, e);
      WovenLine(rest, e);
      WovenGrows(s[0], rest, Repeated(e, |rest| - 1));
    }
  }

  lemma EmptyWeaves(e: Ending)
    ensures Replaced("", e) == "" == Woven([""], Repeated(e, 0))
  {
  }

  /** The written body is the edited lines woven with the written endings. */
  lemma BodyIsWoven(logical: string, format: Format, original: seq<Byte>)
    requires format.charset.Utf16? ==> |original| >= 2
    ensures var lines := Split(logical, '\n');
      WrittenBody(logical, format, original) == Woven(lines, WrittenEndings(format, original, |lines| - 1))
  {
    hide ReplaceAll, Woven, Split, Repeated, Separators;
    ReplacingWeaves(logical, Lf);
    ReplacingWeaves(logical, CrLf);
    ReplacingWeaves(logical, Cr);
  }

  /** A charset with the byte order mark that detection gives it. */
  predicate Consistent(charset: Charset, bom: Bom) {
    (charset == Utf8 && (bom == NoBom || bom == Utf8Bom)) || (charset.Utf16? && bom == Utf16Bom(charset.order))
  }

  /** Only a text that starts with U+FEFF in a file without a mark is taken for a mark. */
  predicate LooksMarked(body: string, charset: Charset, bom: Bom) {
    charset == Utf8 && bom == NoBom && body != "" && body[0] == MARK
  }

  /** The bytes decode to this text under this charset and mark. */
  ghost predicate DecodesTo(content: seq<Byte>, text: string, charset: Charset, bom: Bom) {
    var d := Decoding(content);
    d.Decoded? && d.text == text && d.format.charset == charset && d.format.bom == bom
  }

  lemma BytesDecode(content: seq<Byte>, start: nat, bom: Bom, text: string)
    requires start <= |content| && DetectCharset(content) == (Utf8, bom) && start == if bom == Utf8Bom then 3 else 0
    requires content[start..] == EncodeUtf8(text)
    ensures DecodesTo(content, text, Utf8, bom)
  {
    hide ValidUtf8, DecodeUtf8, EncodeUtf8, Endings, DetectCharset, CountsOf, MixOf;
    Utf8RoundTrip(text);
  }

  lemma MarkedUtf8Decodes(body: string, bom: Bom)
    requires Consistent(Utf8, bom)
    ensures if LooksMarked(body, Utf8, bom) then DecodesTo(Marked(body, Utf8, bom), body[1..], Utf8, Utf8Bom)
            else DecodesTo(Marked(body, Utf8, bom), body, Utf8, bom)
  {
    hide ValidUtf8, DecodeUtf8, EncodeUtf8, DecodesTo;
    var out, bytes := Marked(body, Utf8, bom), EncodeUtf8(body);
    if bom == Utf8Bom {
      assert out == UTF8_MARK + bytes && out[3..] == bytes && out[..3] == UTF8_MARK;
      BytesDecode(out, 3, Utf8Bom, body);
    } else {
      MarkIsThreeBytes(body);
      Utf8RoundTrip(body);
      ValidHasNoOrderMark(bytes);
      if LooksMarked(body, Utf8, bom) {
        assert out[3..] == EncodeUtf8(body[1..]);
        BytesDecode(out, 3, Utf8Bom, body[1..]);
      } else {
        assert out[0..] == out;
        BytesDecode(out, 0, NoBom, body);
      }
    }
  }

  lemma MarkedUtf16Decodes(body: string, order: Order)
    ensures DecodesTo(Marked(body, Utf16(order), Utf16Bom(order)), body, Utf16(order), Utf16Bom(order))
  {
    hide ValidUtf8, EncodeUtf8, Endings, DecodeUnits, EncodeUnits, Paired, BytesOf, UnitsOf, CountsOf, MixOf;
    var out := Marked(body, Utf16(order), Utf16Bom(order));
    var units := EncodeUnits(body);
    Utf16RoundTrip(body);
    UnitsReadBack(order, units);
    assert out[2..] == BytesOf(order, units) && out[..2] == OrderMark(order);
    assert out[0] == OrderMark(order)[0] && out[1] == OrderMark(order)[1];
  }

  /** Encoding a text behind its mark and decoding it again. */
  lemma MarkedDecodes(body: string, charset: Charset, bom: Bom)
    requires Consistent(charset, bom)
    ensures if LooksMarked(body, charset, bom) then DecodesTo(Marked(body, charset, bom), body[1..], Utf8, Utf8Bom)
            else DecodesTo(Marked(body, charset, bom), body, charset, bom)
  {
    hide DecodesTo, Marked;
    if charset == Utf8 {
      MarkedUtf8Decodes(body, bom);
    } else {
      MarkedUtf16Decodes(body, charset.order);
    }
  }

  /** Encoded text starts with the UTF-8 mark exactly when its first character is U+FEFF. */
  lemma MarkIsThreeBytes(s: string)
    ensures HasPrefix(EncodeUtf8(s), UTF8_MARK) <==> s != "" && s[0] == MARK
    ensures s != "" && s[0] == MARK ==> EncodeUtf8(s) == UTF8_MARK + EncodeUtf8(s[1..])
  {
    var b := EncodeUtf8(s);
    if HasPrefix(b, UTF8_MARK) {
      assert b[0] == 0xEF && b[1] == 0xBB && b[2] == 0xBF;
      RuneReadsBack(s[0], EncodeUtf8(s[1..]));
    }
  }

  /** The original's own endings are what is written back when the lines are unchanged. */
  lemma OwnEndingsAreWritten(content: seq<Byte>)
    requires Decoding(content).Decoded?
    ensures var d := Decoding(content);
      (d.format.charset.Utf16? ==> |content| >= 2)
      && WrittenEndings(d.format, content, |TextEndings(d.text)|) == TextEndings(d.text)
  {
    hide Decoding, Endings, Marked, CountsOf, MixOf;
    var d := Decoding(content);
    DecodedIsMarked(content);
    var own := TextEndings(d.text);
    MixNamesTheEndings(own);
    assert forall i | 0 <= i < |own| :: own[i] in own;
  }

  /** Writing an unchanged file back gives its bytes exactly, whatever its charset, mark and endings. */
  lemma NoOpIsExact(content: seq<Byte>)
    requires Decoding(content).Decoded?
    ensures var d := Decoding(content);
      (d.format.charset.Utf16? ==> |content| >= 2)
      && Marked(WrittenBody(Logical(d.text), d.format, content), d.format.charset, d.format.bom) == content
  {
    hide Decoding, Endings, Marked, WrittenBody, WrittenEndings, Woven, Logical, Split;
    var d := Decoding(content);
    DecodedIsMarked(content);
    OwnEndingsAreWritten(content);
    TextIsWoven(d.text);
    BodyIsWoven(Logical(d.text), d.format, content);
  }

  /**
   When an edited text survives being written: it has no CR of its own, it does
   not start with U+FEFF in a UTF-8 file without a mark, and in a mixed file no
   CR separator is followed by an empty line and an LF separator.
   */
  predicate Survives(edited: string, format: Format, original: seq<Byte>)
    requires format.charset.Utf16? ==> |original| >= 2
  {
    var lines := Split(edited, '\n');
    && '\r' !in edited
    && !LooksMarked(edited, format.charset, format.bom)
    && (format.mix == Mixed ==> NoCollapse(lines, WrittenEndings(format, original, |lines| - 1)))
  }

  /** Splitting loses nothing. */
  lemma SplitIsInjective(s: string, t: string)
    ensures Split(s, '\n') == Split(t, '\n') <==> s == t
  {
    JoinUndoesSplit(s, '\n');
    JoinUndoesSplit(t, '\n');
  }

  lemma PartsAreBare(s: string)
    requires '\r' !in s
    ensures AllBare(Split(s, '\n'))
  {
    hide Split;
    PartsKeepOut(s, '\n', '\r');
    JoinUndoesSplit(s, '\n');
    var parts := Split(s, '\n');
    forall i | 0 <= i < |parts| ensures Bare(parts[i]) { assert parts[i] in parts; }
  }

  /** A uniform file never collapses endings. */
  lemma UniformNeverCollapses(lines: seq<string>, format: Format, original: seq<Byte>)
    requires (format.charset.Utf16? ==> |original| >= 2) && lines != [] && format.mix != Mixed
    ensures NoCollapse(lines, WrittenEndings(format, original, |lines| - 1))
  {
  }

  /** A text and its written body start with the same character, if that is not an ending. */
  lemma SameStart(s: string, used: seq<Ending>)
    requires |Split(s, '\n')| == |used| + 1
    ensures var w := Woven(Split(s, '\n'), used); (w != "" && w[0] == MARK) <==> (s != "" && s[0] == MARK)
    ensures s != "" && s[0] == MARK ==> Split(s, '\n')[0] != "" && Split(s, '\n')[0][0] == MARK
  {
    var lines := Split(s, '\n');
    if lines[0] == "" && used != [] {
      assert Woven(lines, used)[0] == EndingText(used[0])[0];
    } else if lines[0] != "" {
      assert Woven(lines, used)[0] == lines[0][0];
    }
  }

  /** Dropping the first character of a woven text never gives back all of its lines. */
  lemma MarkIsLost(lines: seq<string>, used: seq<Ending>)
    requires |lines| == |used| + 1 && AllBare(lines) && lines[0] != ""
    ensures Split(Logical(Woven(lines, used)[1..]), '\n') != lines
  {
    hide Split, Logical, Endings, AllBare, NoCollapse, Woven;
    var rest := [lines[0][1..]] + lines[1..];
    WovenGrows(lines[0][0], rest, used);
    assert [lines[0][0]] + lines[0][1..] == lines[0] && rest[1..] == lines[1..];
    assert lines == [lines[0]] + lines[1..];
    assert Woven(lines, used)[1..] == Woven(rest, used);
    FirstIsBare(lines);
    StillBare(lines[0], lines);
    StillBare(lines[0][1..], lines[1..]);
    TextIsWoven(Woven(rest, used));
    EndingsLeft(rest, used);
    LinesReadBackExactlyWhen(rest, used);
  }

  /** What decoding the written bytes gives. */
  lemma EditDecodes(content: seq<Byte>, edited: string)
    requires Decoding(content).Decoded?
    ensures var format := Decoding(content).format;
      (format.charset.Utf16? ==> |content| >= 2)
      && var body := WrittenBody(edited, format, content);
         var d := Decoding(Marked(body, format.charset, format.bom));
         d.Decoded? && d.text == if LooksMarked(edited, format.charset, format.bom) then body[1..] else body
  {
    hide Decoding, Marked, WrittenBody, Woven, Split, WrittenEndings;
    DecodedIsMarked(content);
    var format := Decoding(content).format;
    var lines := Split(edited, '\n');
    BodyIsWoven(edited, format, content);
    MarkedDecodes(WrittenBody(edited, format, content), format.charset, format.bom);
    SameStart(edited, WrittenEndings(format, content, |lines| - 1));
  }

  /** An edited text reads back as edited exactly when it survives being written. */
  lemma EditReadsBackExactlyWhen(content: seq<Byte>, edited: string)
    requires Decoding(content).Decoded?
    ensures var format := Decoding(content).format;
      (format.charset.Utf16? ==> |content| >= 2)
      && var out := Marked(WrittenBody(edited, format, content), format.charset, format.bom);
         Decoding(out).Decoded? && (Logical(Decoding(out).text) == edited <==> Survives(edited, format, content))
  {
    hide Decoding, Marked, WrittenBody, Woven, Split, WrittenEndings, Logical, NoCollapse, AllBare;
    EditDecodes(content, edited);
    var format := Decoding(content).format;
    var out := Marked(WrittenBody(edited, format, content), format.charset, format.bom);
    var text := Decoding(out).text;
    var lines := Split(edited, '\n');
    var used := WrittenEndings(format, content, |lines| - 1);
    NormalizeIsLogical(text);
    if '\r' !in edited {
      PartsAreBare(edited);
      BodyIsWoven(edited, format, content);
      SplitIsInjective(Logical(text), edited);
      if LooksMarked(edited, format.charset, format.bom) {
        SameStart(edited, used);
        MarkIsLost(lines, used);
      } else {
        LinesReadBackExactlyWhen(lines, used);
        if format.mix != Mixed { UniformNeverCollapses(lines, format, content); }
      }
    }
  }

  /**
   The endings that a surviving edit is written with, as decoding reads them: by
   position the file's own, and behind those its last one; a file of one kind of
   ending keeps that kind, and a file without endings gets LF.
   */
  lemma EndingsAreReused(content: seq<Byte>, edited: string)
    requires Decoding(content).Decoded?
    requires var format := Decoding(content).format;
      (format.charset.Utf16? ==> |content| >= 2) && Survives(edited, format, content)
    ensures var (format, own) := (Decoding(content).format, TextEndings(Decoding(content).text));
      var read := Decoding(Marked(WrittenBody(edited, format, content), format.charset, format.bom));
      && read.Decoded?
      && var written := TextEndings(read.text);
         && |written| == |Split(edited, '\n')| - 1
         && (own == [] ==> forall i | 0 <= i < |written| :: written[i] == Lf)
         && (own != [] ==> forall i | 0 <= i < |written| :: written[i] == own[if i < |own| then i else |own| - 1])
  {
    hide Decoding, Marked, WrittenBody, Woven, Split, Logical, NoCollapse, AllBare, Endings, CountsOf, MixOf;
    EditDecodes(content, edited);
    DecodedIsMarked(content);
    var format := Decoding(content).format;
    var lines := Split(edited, '\n');
    var used := WrittenEndings(format, content, |lines| - 1);
    PartsAreBare(edited);
    BodyIsWoven(edited, format, content);
    if format.mix != Mixed { UniformNeverCollapses(lines, format, content); }
    WovenReadsBack(lines, used);
    UsedAreOwn(content, |lines| - 1);
  }

  lemma UsedAreOwn(content: seq<Byte>, n: nat)
    requires Decoding(content).Decoded?
    ensures var (format, own) := (Decoding(content).format, TextEndings(Decoding(content).text));
      && (format.charset.Utf16? ==> |content| >= 2)
      && var used := WrittenEndings(format, content, n);
         && (own == [] ==> forall i | 0 <= i < n :: used[i] == Lf)
         && (own != [] ==> forall i | 0 <= i < n :: used[i] == own[if i < |own| then i else |own| - 1])
  {
    hide Decoding, Endings, Marked, CountsOf, MixOf;
    DecodedIsMarked(content);
    var own := TextEndings(Decoding(content).text);
    MixNamesTheEndings(own);
    assert forall i | 0 <= i < |own| :: own[i] in own;
  }

  lemma SampleEndings()
    ensures TextEndings("a\rb\nc") == [Cr, Lf] && MixOf(CountsOf([Cr, Lf])) == Mixed
    ensures Used([Cr, Lf], 2) == [Cr, Lf]
  {
    var s := "a\rb\nc";
    assert s[1..] == "\rb\nc" && s[1..][1..] == "b\nc" && s[1..][1..][1..] == "\nc" && s[1..][1..][1..][1..] == "c";
    assert "c"[1..] == "";
    assert TextEndings("\nc") == [Lf] && TextEndings("b\nc") == [Lf];
    MixNamesTheEndings([Cr, Lf]);
    assert [Cr, Lf][0] != [Cr, Lf][1];
  }

  lemma SampleLines()
    ensures Split("a\n\nc", '\n') == ["a", "", "c"] && Woven(["a", "", "c"], [Cr, Lf]) == "a\r\nc"
    ensures Logical("a\r\nc") == "a\nc"
  {
    assert "a\n\nc"[1..] == "\n\nc" && "\n\nc"[1..] == "\nc" && "\nc"[1..] == "c" && "c"[1..] == "";
    assert ['c'] + "" == "c" && ['a'] + "" == "a";
    assert Split("c"[1..], '\n') == [""];
    assert Split("c", '\n') == ["c"];
    assert Split("\nc", '\n') == ["", "c"];
    assert Split("\n\nc", '\n') == ["", "", "c"];
    assert ["a", "", "c"][1..] == ["", "c"] && ["", "c"][1..] == ["c"] && [Cr, Lf][1..] == [Lf] && [Lf][1..] == [];
    assert Woven(["c"], []) == "c" && Woven(["", "c"], [Lf]) == "\nc";
    var t := "a\r\nc";
    assert t[1..] == "\r\nc" && t[1..][2..] == "c";
    assert Logical("c") == "c" && Logical("\r\nc") == "\nc";
  }

  /**
   A mixed file whose second line is emptied: its CR and LF are written next to each
   other and read back as one line end.
   */
  lemma EmptiedLineCollapses()
    ensures var content := EncodeUtf8("a\rb\nc");
      var d := Decoding(content);
      && d.Decoded? && d.format.charset == Utf8
      && var out := Marked(WrittenBody("a\n\nc", d.format, content), d.format.charset, d.format.bom);
         out == EncodeUtf8("a\r\nc") && Decoding(out).Decoded? && Logical(Decoding(out).text) == "a\nc"
  {
    hide EncodeUtf8, ValidUtf8, DecodeUtf8, Split, Woven, Logical, Endings, CountsOf, MixOf, Used, DetectCharset;
    var content := EncodeUtf8("a\rb\nc");
    MarkedUtf8Decodes("a\rb\nc", NoBom);
    SampleEndings();
    EndingsOfEncoded("a\rb\nc");
    FormatNamesTheEndings(RawFormat(content), "a\rb\nc");
    SampleLines();
    MarkedUtf8Decodes("a\r\nc", NoBom);
  }
}

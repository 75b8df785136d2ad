/**
 `Read`: the choice between the two window readers, and how what they report
 relates to decoding the whole file.
 */
module Reading {
  import opened Text
  import opened Unicode
  import opened LineEndings
  import opened TextFormat
  import opened Windows
  import opened WindowReader
  import opened Utf8Reader
  import opened Utf8Windows

  datatype Reply = Wide(result: ReadResult) | Narrow(bytes: ByteResult)

  function FirstFour(content: seq<Byte>): seq<Byte> { content[..if |content| < 4 then |content| else 4] }

  /** The reader is chosen by the charset of the first four bytes. */
  method Read(content: seq<Byte>, opts: ReadOptions) returns (reply: Reply)
    ensures reply.Wide? <==> HasOrderMark(content)
    ensures HasOrderMark(content) ==>
      && (reply.result.ReadDone? <==>
          Decoding(content).Decoded? && Readable(Logical(Decoding(content).text), WindowOf(opts)))
      && (reply.result.ReadDone? ==>
          reply.result == WindowResult(Logical(Decoding(content).text), Decoding(content).format, WindowOf(opts)))
    ensures !HasOrderMark(content) ==>
      && (reply.bytes.ByteDone? <==> CanRead(content, WindowOf(opts)))
      && (reply.bytes.ByteDone? ==> ReadsWindow(reply.bytes, content, WindowOf(opts)))
  {
    hide ReadResultOf, CanRead, ReadsWindow, Decoding, Readable, WindowResult, ValidUtf8;
    var w := WindowOf(opts);
    var (charset, _) := DetectCharset(FirstFour(content));
    WideOnlyWithMark(content);
    if charset.Utf16? {
      var result := ReadUtf16Window(content, w);
      return Wide(result);
    }
    Utf8ReadIsAWindow(content, w);
    var bytes := ReadUtf8Window(content, w);
    reply := Narrow(bytes);
  }

  lemma PrefixOfPrefix(content: seq<Byte>, prefix: seq<Byte>)
    requires |prefix| <= 4
    ensures HasPrefix(FirstFour(content), prefix) <==> HasPrefix(content, prefix)
  {
    if |prefix| <= |content| { assert FirstFour(content)[..|prefix|] == content[..|prefix|]; }
  }

  lemma WideOnlyWithMark(content: seq<Byte>)
    ensures DetectCharset(FirstFour(content)).0.Utf16? <==> HasOrderMark(content)
  {
    hide ValidUtf8;
    PrefixOfPrefix(content, UTF8_MARK);
    PrefixOfPrefix(content, OrderMark(LittleEndian));
    PrefixOfPrefix(content, OrderMark(BigEndian));
    if HasPrefix(content, UTF8_MARK) { assert content[..3][0] == content[0] && content[..3][0] == 0xEF; }
    if HasPrefix(content, OrderMark(LittleEndian)) { assert content[..2][0] == content[0]; }
    if HasPrefix(content, OrderMark(BigEndian)) { assert content[..2][0] == content[0]; }
  }

  /**
   The format a UTF-8 read reports is the decoder's exactly when the file has a
   mark or its first four bytes do not cut a character: otherwise the read reports
   an unknown mark for a file that has none.
   */
  lemma FormatAgreesExactlyWhen(content: seq<Byte>)
    requires ValidUtf8(BodyOf(content))
    ensures Decoding(content).Decoded?
    ensures ReadFormat(content) == Decoding(content).format <==> IsMarked(content) || ValidUtf8(FirstFour(content))
  {
    hide ValidUtf8, DecodeUtf8, EncodeUtf8, Endings, FinalEnding, CountsOf, MixOf;
    var text := DecodeUtf8(BodyOf(content));
    Utf8IsCanonical(BodyOf(content));
    EndingsOfEncoded(text);
    MarkHasNoEndings(content, if IsMarked(content) then 3 else 0);
    FinalEndingIs(content, text);
    FormatNamesTheEndings(RawFormat(content), text);
    EndsLikeItsLastCharacter(text);
    PrefixOfPrefix(content, UTF8_MARK);
    WideOnlyWithMark(content);
    if !IsMarked(content) {
      ValidHasNoOrderMark(content);
      assert content[0..] == content;
    }
  }

  lemma EndsLikeItsLastCharacter(text: string)
    ensures Ended(text) || EndsInCR(text) <==> text != "" && (text[|text| - 1] == '\n' || text[|text| - 1] == '\r')
  {
  }

  lemma AsciiInFront(b: Byte, rest: seq<Byte>)
    requires b < 0x80
    ensures ValidUtf8([b] + rest) <==> ValidUtf8(rest)
  {
    assert ([b] + rest)[1..] == rest;
  }

  function Abc(rest: seq<Byte>): (r: seq<Byte>)
    ensures ValidUtf8(r) <==> ValidUtf8(rest)
    ensures |r| == 3 + |rest| && r[0] == 0x61
  {
    AsciiInFront(0x63, rest);
    AsciiInFront(0x62, [0x63] + rest);
    AsciiInFront(0x61, [0x62] + ([0x63] + rest));
    [0x61] + ([0x62] + ([0x63] + rest))
  }

  lemma EuroSign()
    ensures ValidUtf8([0xE2, 0x82, 0xAC]) && !ValidUtf8([0xE2])
  {
    var euro: seq<Byte> := [0xE2, 0x82, 0xAC];
    assert euro[3..] == [];
  }

  lemma UnmarkedCut(content: seq<Byte>)
    requires content != [] && content[0] == 0x61 && !ValidUtf8(FirstFour(content))
    ensures ReadFormat(content).bom == UnknownBom
  {
    hide ValidUtf8, Endings, CountsOf, MixOf, FinalEnding;
    assert FirstFour(content)[0] == 0x61;
    assert forall n | 0 < n <= |FirstFour(content)| :: FirstFour(content)[..n][0] == 0x61;
  }

  /** A four-byte cut inside a character does occur: three ASCII letters and a euro sign. */
  lemma CutInsideACharacter()
    ensures var content := Abc([0xE2, 0x82, 0xAC]);
      ValidUtf8(content) && !ValidUtf8(FirstFour(content)) && ReadFormat(content).bom == UnknownBom
  {
    EuroSign();
    hide ValidUtf8, ReadFormat;
    assert FirstFour(Abc([0xE2, 0x82, 0xAC])) == Abc([0xE2]);
    UnmarkedCut(Abc([0xE2, 0x82, 0xAC]));
  }
}

/**
 UTF-8 (section 3 of RFC 3629) and UTF-16 (sections 2.1 and 2.2 of RFC 2781).
 A Dafny `char` is a Unicode scalar value, so a `string` is a decoded text.
 */
module Unicode {

  type Byte = b: int | 0 <= b < 0x100

  type Unit = u: int | 0 <= u < 0x10000

  // ---------------------------------------------------------------------- UTF-8

  function RuneBytes(c: char): (b: seq<Byte>)
    ensures 1 <= |b| <= 4
  {
    var n := c as int;
    if n < 0x80 then [n]
    else if n < 0x800 then [0xC0 + n / 64, Tail(n)]
    else if n < 0x10000 then [0xE0 + n / 64 / 64, Tail(n / 64), Tail(n)]
    else [0xF0 + n / 64 / 64 / 64, Tail(n / 64 / 64), Tail(n / 64), Tail(n)]
  }

  /** A continuation byte holds the low six bits. */
  function Tail(n: nat): Byte { 0x80 + n % 64 }

  /** A number extended by the six bits of a continuation byte. */
  function Extend(n: int, b: Byte): int { n * 64 + (b as int - 0x80) }

  function EncodeUtf8(s: string): seq<Byte> {
    if s == "" then [] else RuneBytes(s[0]) + EncodeUtf8(s[1..])
  }

  predicate Continuation(b: Byte) { 0x80 <= b < 0xC0 }

  /** A byte that can start a code point. */
  predicate RuneStart(b: Byte) { !Continuation(b) }

  /** Smallest and largest second byte after a lead byte of two or more. */
  function SecondRange(lead: Byte): (Byte, Byte) {
    if lead == 0xE0 then (0xA0, 0xBF)
    else if lead == 0xED then (0x80, 0x9F)
    else if lead == 0xF0 then (0x90, 0xBF)
    else if lead == 0xF4 then (0x80, 0x8F)
    else (0x80, 0xBF)
  }

  function LeadLength(lead: Byte): nat {
    if lead < 0x80 then 1
    else if 0xC2 <= lead < 0xE0 then 2
    else if 0xE0 <= lead < 0xF0 then 3
    else if 0xF0 <= lead < 0xF5 then 4
    else 0
  }

  /** Length of the well-formed sequence at the head of `b`, or 0. */
  function HeadLength(b: seq<Byte>): (n: nat)
    ensures n <= |b|
  {
    if b == [] then 0
    else
      var n := LeadLength(b[0]);
      if n <= 1 then n
      else if |b| < n then 0
      else
        var (low, high) := SecondRange(b[0]);
        if !(low <= b[1] <= high) then 0
        else if n >= 3 && !Continuation(b[2]) then 0
        else if n >= 4 && !Continuation(b[3]) then 0
        else n
  }

  /** `utf8.Valid`: the bytes are a sequence of well-formed sequences. */
  predicate ValidUtf8(b: seq<Byte>) {
    b == [] || (HeadLength(b) > 0 && ValidUtf8(b[HeadLength(b)..]))
  }

  function HeadRune(b: seq<Byte>): char
    requires HeadLength(b) > 0
  {
    var n := HeadLength(b);
    if n == 1 then b[0] as char
    else if n == 2 then Extend(b[0] as int - 0xC0, b[1]) as char
    else if n == 3 then Extend(Extend(b[0] as int - 0xE0, b[1]), b[2]) as char
    else Extend(Extend(Extend(b[0] as int - 0xF0, b[1]), b[2]), b[3]) as char
  }

  function DecodeUtf8(b: seq<Byte>): string
    requires ValidUtf8(b)
  {
    if b == [] then "" else [HeadRune(b)] + DecodeUtf8(b[HeadLength(b)..])
  }

  lemma ExtendByTail(n: nat)
    ensures Extend(n / 64, Tail(n)) == n
  {
  }

  lemma TailExtends(n: nat, b: Byte)
    requires Continuation(b)
    ensures Extend(n, b) / 64 == n && Tail(Extend(n, b)) == b
  {
  }

  lemma RuneReadsBack(c: char, rest: seq<Byte>)
    ensures var b := RuneBytes(c) + rest;
      HeadLength(b) == |RuneBytes(c)| && HeadRune(b) == c && b[|RuneBytes(c)|..] == rest
  {
    var n := c as int;
    ExtendByTail(n);
    ExtendByTail(n / 64);
    ExtendByTail(n / 64 / 64);
    hide Extend;
  }

  lemma HeadIsRuneOfTwo(b: seq<Byte>)
    requires HeadLength(b) == 2
    ensures b[..2] == RuneBytes(HeadRune(b))
  {
    assert 0xC2 <= b[0] < 0xE0 && Continuation(b[1]);
    var n := Extend(b[0] as int - 0xC0, b[1]);
    TailExtends(b[0] as int - 0xC0, b[1]);
    assert 0x80 <= n < 0x800 && HeadRune(b) == n as char;
    assert b[..2] == [b[0], b[1]];
    hide Tail, Extend, HeadLength, HeadRune;
  }

  lemma HeadIsRuneOfThree(b: seq<Byte>)
    requires HeadLength(b) == 3
    ensures b[..3] == RuneBytes(HeadRune(b))
  {
    var two := Extend(b[0] as int - 0xE0, b[1]);
    TailExtends(b[0] as int - 0xE0, b[1]);
    TailExtends(two, b[2]);
    assert 0x800 <= Extend(two, b[2]) < 0x10000;
    hide Tail, Extend;
  }

  lemma HeadIsRuneOfFour(b: seq<Byte>)
    requires HeadLength(b) == 4
    ensures b[..4] == RuneBytes(HeadRune(b))
  {
    var two := Extend(b[0] as int - 0xF0, b[1]);
    var three := Extend(two, b[2]);
    TailExtends(b[0] as int - 0xF0, b[1]);
    TailExtends(two, b[2]);
    TailExtends(three, b[3]);
    assert Extend(three, b[3]) >= 0x10000;
    hide Tail, Extend;
  }

  lemma HeadIsRune(b: seq<Byte>)
    requires HeadLength(b) > 0
    ensures b[..HeadLength(b)] == RuneBytes(HeadRune(b))
  {
    var n := HeadLength(b);
    if n == 2 {
      HeadIsRuneOfTwo(b);
    } else if n == 3 {
      HeadIsRuneOfThree(b);
    } else if n == 4 {
      HeadIsRuneOfFour(b);
    }
  }

  /** Encoding a text gives valid bytes that decode to it. */
  lemma {:induction false} Utf8RoundTrip(s: string)
    ensures ValidUtf8(EncodeUtf8(s)) && DecodeUtf8(EncodeUtf8(s)) == s
  {
    hide RuneBytes, HeadLength, HeadRune;
    if s != "" {
      RuneReadsBack(s[0], EncodeUtf8(s[1..]));
      Utf8RoundTrip(s[1..]);
    }
  }

  /** Valid bytes are exactly what encoding their text gives. */
  lemma {:induction false} Utf8IsCanonical(b: seq<Byte>)
    requires ValidUtf8(b)
    ensures EncodeUtf8(DecodeUtf8(b)) == b
  {
    hide RuneBytes, HeadRune, HeadLength;
    if b != [] {
      var n := HeadLength(b);
      HeadIsRune(b);
      Utf8IsCanonical(b[n..]);
      assert DecodeUtf8(b)[1..] == DecodeUtf8(b[n..]);
      assert b == b[..n] + b[n..];
    }
  }

  lemma {:induction false} EncodeUtf8Concat(s: string, t: string)
    ensures EncodeUtf8(s + t) == EncodeUtf8(s) + EncodeUtf8(t)
  {
    hide RuneBytes;
    if s == "" {
      assert s + t == t;
    } else {
      assert (s + t)[0] == s[0] && (s + t)[1..] == s[1..] + t;
      EncodeUtf8Concat(s[1..], t);
    }
  }

  // --------------------------------------------------------------------- UTF-16

  predicate High(u: Unit) { 0xD800 <= u < 0xDC00 }

  predicate Low(u: Unit) { 0xDC00 <= u < 0xE000 }

  function RuneUnits(c: char): (u: seq<Unit>)
    ensures 1 <= |u| <= 2
  {
    var n := c as int;
    if n < 0x10000 then [n] else [0xD800 + (n - 0x10000) / 0x400, 0xDC00 + (n - 0x10000) % 0x400]
  }

  function EncodeUnits(s: string): seq<Unit> {
    if s == "" then [] else RuneUnits(s[0]) + EncodeUnits(s[1..])
  }

  function Pair(high: Unit, low: Unit): char
    requires High(high) && Low(low)
  {
    (0x10000 + (high - 0xD800) * 0x400 + (low - 0xDC00)) as char
  }

  const REPLACEMENT := '\U{FFFD}'

  /** `utf16.Decode`: an unpaired surrogate becomes the replacement character. */
  function DecodeUnits(u: seq<Unit>): string {
    if u == [] then ""
    else if High(u[0]) && |u| > 1 && Low(u[1]) then [Pair(u[0], u[1])] + DecodeUnits(u[2..])
    else if High(u[0]) || Low(u[0]) then [REPLACEMENT] + DecodeUnits(u[1..])
    else [u[0] as char] + DecodeUnits(u[1..])
  }

  /** Every surrogate belongs to a pair. */
  predicate Paired(u: seq<Unit>) {
    if u == [] then true
    else if High(u[0]) then |u| > 1 && Low(u[1]) && Paired(u[2..])
    else !Low(u[0]) && Paired(u[1..])
  }

  /** The positional test of the decoder: each surrogate looks only at its neighbour. */
  predicate SurrogateAt(u: seq<Unit>, i: nat)
    requires i < |u|
  {
    && (High(u[i]) ==> i + 1 < |u| && Low(u[i + 1]))
    && (Low(u[i]) ==> i > 0 && High(u[i - 1]))
  }

  predicate SurrogatesInPlace(u: seq<Unit>) { forall i: nat | i < |u| :: SurrogateAt(u, i) }

  /** Looking only at neighbours is enough. */
  lemma {:induction false} NeighboursSuffice(u: seq<Unit>)
    ensures SurrogatesInPlace(u) <==> Paired(u)
  {
    if u != [] {
      if High(u[0]) && |u| > 1 && Low(u[1]) {
        NeighboursSuffice(u[2..]);
        SameTail(u, 2);
        assert SurrogateAt(u, 0) && SurrogateAt(u, 1);
      } else if High(u[0]) || Low(u[0]) {
        assert !SurrogateAt(u, 0);
      } else {
        NeighboursSuffice(u[1..]);
        SameTail(u, 1);
        assert SurrogateAt(u, 0);
      }
    }
  }

  /** Behind a complete character the test is the same as on the rest alone. */
  lemma SameTail(u: seq<Unit>, n: nat)
    requires 0 < n <= |u| && !High(u[n - 1])
    ensures (forall i: nat | n <= i < |u| :: SurrogateAt(u, i)) <==> SurrogatesInPlace(u[n..])
  {
    var tail := u[n..];
    forall i: nat | n <= i < |u| ensures SurrogateAt(u, i) <==> SurrogateAt(tail, i - n) {
    }
    if SurrogatesInPlace(tail) {
      forall i: nat | n <= i < |u| ensures SurrogateAt(u, i) { assert SurrogateAt(tail, i - n); }
    }
    if forall i: nat | n <= i < |u| :: SurrogateAt(u, i) {
      forall j: nat | j < |tail| ensures SurrogateAt(tail, j) { assert SurrogateAt(u, j + n); }
    }
  }

  lemma {:induction false} Utf16RoundTrip(s: string)
    ensures Paired(EncodeUnits(s)) && DecodeUnits(EncodeUnits(s)) == s
  {
    if s != "" {
      Utf16RoundTrip(s[1..]);
      var u := RuneUnits(s[0]);
      assert (u + EncodeUnits(s[1..]))[|u|..] == EncodeUnits(s[1..]);
    }
  }

  lemma {:induction false} Utf16IsCanonical(u: seq<Unit>)
    requires Paired(u)
    ensures EncodeUnits(DecodeUnits(u)) == u
  {
    if u != [] {
      var n := if High(u[0]) then 2 else 1;
      Utf16IsCanonical(u[n..]);
      assert DecodeUnits(u)[1..] == DecodeUnits(u[n..]);
      assert u == u[..n] + u[n..];
    }
  }

  // -------------------------------------------------------------- byte order

  datatype Order = LittleEndian | BigEndian

  function UnitAt(order: Order, first: Byte, second: Byte): Unit {
    if order == LittleEndian then first + 0x100 * second else 0x100 * first + second
  }

  function UnitBytes(order: Order, u: Unit): (b: seq<Byte>)
    ensures |b| == 2
  {
    if order == LittleEndian then [u % 0x100, u / 0x100] else [u / 0x100, u % 0x100]
  }

  /** The units of some bytes; an odd last byte is dropped. */
  function UnitsOf(order: Order, b: seq<Byte>): (u: seq<Unit>)
    ensures |u| == |b| / 2
  {
    if |b| < 2 then [] else [UnitAt(order, b[0], b[1])] + UnitsOf(order, b[2..])
  }

  function BytesOf(order: Order, u: seq<Unit>): (b: seq<Byte>)
    ensures |b| == 2 * |u|
  {
    if u == [] then [] else UnitBytes(order, u[0]) + BytesOf(order, u[1..])
  }

  lemma {:induction false} UnitsReadBack(order: Order, u: seq<Unit>)
    ensures UnitsOf(order, BytesOf(order, u)) == u
  {
    if u != [] {
      UnitsReadBack(order, u[1..]);
      assert BytesOf(order, u)[2..] == BytesOf(order, u[1..]);
    }
  }

  lemma {:induction false} BytesReadBack(order: Order, b: seq<Byte>)
    requires |b| % 2 == 0
    ensures BytesOf(order, UnitsOf(order, b)) == b
  {
    if b != [] {
      BytesReadBack(order, b[2..]);
      assert UnitsOf(order, b)[1..] == UnitsOf(order, b[2..]);
      assert b == b[..2] + b[2..];
    }
  }

  lemma {:induction false} UnitIndex(order: Order, b: seq<Byte>, i: nat)
    requires 2 * i + 1 < |b|
    ensures UnitsOf(order, b)[i] == UnitAt(order, b[2 * i], b[2 * i + 1])
  {
    if i > 0 {
      UnitIndex(order, b[2..], i - 1);
    }
  }

  lemma {:induction false} ByteIndex(order: Order, u: seq<Unit>, i: nat)
    requires i < |u|
    ensures BytesOf(order, u)[2 * i..2 * i + 2] == UnitBytes(order, u[i])
  {
    if i > 0 {
      ByteIndex(order, u[1..], i - 1);
      assert BytesOf(order, u)[2 * i..2 * i + 2] == BytesOf(order, u[1..])[2 * (i - 1)..2 * (i - 1) + 2];
    }
  }

  // ------------------------------------------------------------ published examples

  /** The examples of section 7 of RFC 3629: A, not identical to, capital alpha, full stop; and U+233B4. */
  lemma Utf8Examples()
    ensures EncodeUtf8("A\U{2262}\U{0391}.") == [0x41, 0xE2, 0x89, 0xA2, 0xCE, 0x91, 0x2E]
    ensures EncodeUtf8("\U{233B4}") == [0xF0, 0xA3, 0x8E, 0xB4]
  {
    var s := "A\U{2262}\U{0391}.";
    assert s[1..] == "\U{2262}\U{0391}." && s[1..][1..] == "\U{0391}." && s[1..][1..][1..] == "." && "."[1..] == "";
    assert EncodeUtf8(".") == [0x2E] && EncodeUtf8("\U{0391}.") == [0xCE, 0x91, 0x2E];
    assert EncodeUtf8("\U{2262}\U{0391}.") == [0xE2, 0x89, 0xA2, 0xCE, 0x91, 0x2E];
    assert "\U{233B4}"[1..] == "";
  }

  /** The example of section 5 of RFC 2781: U+12345 as a surrogate pair, in both byte orders. */
  lemma Utf16Examples()
    ensures EncodeUnits("\U{12345}") == [0xD808, 0xDF45]
    ensures BytesOf(BigEndian, [0xD808, 0xDF45]) == [0xD8, 0x08, 0xDF, 0x45]
    ensures BytesOf(LittleEndian, [0xD808, 0xDF45]) == [0x08, 0xD8, 0x45, 0xDF]
  {
    assert "\U{12345}"[1..] == "";
    var u: seq<Unit> := [0xD808, 0xDF45];
    assert u[1..] == [0xDF45] && u[1..][1..] == [];
    assert BytesOf(BigEndian, u[1..]) == [0xDF, 0x45] && BytesOf(LittleEndian, u[1..]) == [0x45, 0xDF];
  }
}

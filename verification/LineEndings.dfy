/**
 The line endings of a text: observing them, naming their mix, and weaving a
 sequence of endings back between lines.
 */
module LineEndings {
  import opened Text
  import opened Unicode

  datatype Ending = CrLf | Lf | Cr

  /** How a text's endings are described: none, all of one kind, or mixed. */
  datatype Mix = NoEnding | OnlyCrLf | OnlyLf | OnlyCr | Mixed

  datatype Counts = Counts(lf: nat, crlf: nat, cr: nat)

  function EndingText(e: Ending): string { match e case CrLf => "\r\n" case Lf => "\n" case Cr => "\r" }

  /** The endings of a text or of its bytes, in order. */
  function Endings<T(==)>(s: seq<T>, cr: T, lf: T): seq<Ending> {
    if s == [] then []
    else if s[0] == cr then
      if |s| > 1 && s[1] == lf then [CrLf] + Endings(s[2..], cr, lf) else [Cr] + Endings(s[1..], cr, lf)
    else (if s[0] == lf then [Lf] else []) + Endings(s[1..], cr, lf)
  }

  function TextEndings(s: string): seq<Ending> { Endings(s, '\r', '\n') }

  function ByteEndings(b: seq<Byte>): seq<Ending> { Endings(b, 13, 10) }

  function Tally(es: seq<Ending>, e: Ending): nat {
    if es == [] then 0 else (if es[0] == e then 1 else 0) + Tally(es[1..], e)
  }

  function CountsOf(es: seq<Ending>): Counts { Counts(Tally(es, Lf), Tally(es, CrLf), Tally(es, Cr)) }

  /** One pass over the bytes, counting each kind. */
  method ObserveLineEndings(content: seq<Byte>, counts0: Counts) returns (counts: Counts)
    ensures counts.crlf == counts0.crlf + Tally(ByteEndings(content), CrLf)
    ensures counts.lf == counts0.lf + Tally(ByteEndings(content), Lf)
    ensures counts.cr == counts0.cr + Tally(ByteEndings(content), Cr)
  {
    counts := counts0;
    var index := 0;
    while index < |content|
      invariant 0 <= index <= |content|
      invariant forall e ::
          (if e == CrLf then counts.crlf else if e == Lf then counts.lf else counts.cr) + Tally(ByteEndings(content[index..]), e)
          == (if e == CrLf then counts0.crlf else if e == Lf then counts0.lf else counts0.cr) + Tally(ByteEndings(content), e)
      decreases |content| - index
    {
      EndingsStep(content, index);
      if content[index] == 13 {
        if index + 1 < |content| && content[index + 1] == 10 {
          counts := counts.(crlf := counts.crlf + 1);
          index := index + 1;
        } else {
          counts := counts.(cr := counts.cr + 1);
        }
      } else if content[index] == 10 {
        counts := counts.(lf := counts.lf + 1);
      }
      index := index + 1;
    }
  }

  /** The first ending of what is left, if there is one here. */
  lemma EndingsStep(content: seq<Byte>, i: nat)
    requires i < |content|
    ensures var pair := content[i] == 13 && i + 1 < |content| && content[i + 1] == 10;
      var rest := ByteEndings(content[if pair then i + 2 else i + 1..]);
      && ByteEndings(content[i..]) ==
           (if pair then [CrLf] else if content[i] == 13 then [Cr] else if content[i] == 10 then [Lf] else []) + rest
      && (forall e :: Tally(ByteEndings(content[i..]), e) == Tally(rest, e)
           + if pair then (if e == CrLf then 1 else 0)
             else if content[i] == 13 then (if e == Cr then 1 else 0)
             else if content[i] == 10 && e == Lf then 1 else 0)
  {
    assert content[i..][1..] == content[i + 1..];
    assert i + 1 < |content| ==> content[i..][2..] == content[i + 2..] && content[i..][1] == content[i + 1];
    var all := ByteEndings(content[i..]);
    var rest := ByteEndings(content[if content[i] == 13 && i + 1 < |content| && content[i + 1] == 10 then i + 2 else i + 1..]);
    assert if content[i] == 13 || content[i] == 10 then all[1..] == rest else all == rest;
  }

  /** One pass over the bytes, collecting the endings. */
  method CollectEndings(content: seq<Byte>) returns (separators: seq<Ending>)
    ensures separators == ByteEndings(content)
  {
    separators := [];
    var index := 0;
    while index < |content|
      invariant 0 <= index <= |content|
      invariant separators + ByteEndings(content[index..]) == ByteEndings(content)
      decreases |content| - index
    {
      EndingsStep(content, index);
      if content[index] == 13 {
        if index + 1 < |content| && content[index + 1] == 10 {
          separators := separators + [CrLf];
          index := index + 1;
        } else {
          separators := separators + [Cr];
        }
      } else if content[index] == 10 {
        separators := separators + [Lf];
      }
      index := index + 1;
    }
  }

  /** The name the counts get. */
  function MixOf(counts: Counts): Mix {
    var kinds := (if counts.crlf > 0 then 1 else 0) + (if counts.lf > 0 then 1 else 0) + (if counts.cr > 0 then 1 else 0);
    if kinds == 0 then NoEnding
    else if kinds > 1 then Mixed
    else if counts.crlf > 0 then OnlyCrLf
    else if counts.lf > 0 then OnlyLf
    else OnlyCr
  }

  lemma {:induction false} TallyIsPresence(es: seq<Ending>, e: Ending)
    ensures Tally(es, e) > 0 <==> e in es
  {
    if es != [] {
      TallyIsPresence(es[1..], e);
    }
  }

  /** The name says which endings occur. */
  lemma MixNamesTheEndings(es: seq<Ending>)
    ensures var mix := MixOf(CountsOf(es));
      && (mix == NoEnding <==> es == [])
      && (mix == OnlyCrLf <==> es != [] && forall e | e in es :: e == CrLf)
      && (mix == OnlyLf <==> es != [] && forall e | e in es :: e == Lf)
      && (mix == OnlyCr <==> es != [] && forall e | e in es :: e == Cr)
      && (mix == Mixed <==> exists i, j | 0 <= i < j < |es| :: es[i] != es[j])
  {
    TallyIsPresence(es, CrLf);
    TallyIsPresence(es, Lf);
    TallyIsPresence(es, Cr);
    if es != [] {
      assert es[0] in es;
      if exists e | e in es :: e != es[0] {
        var e :| e in es && e != es[0];
        var j :| 0 <= j < |es| && es[j] == e;
        assert es[0] != es[j];
      }
    }
  }

  lemma {:induction false} PlainHasNoEndings(b: seq<Byte>, rest: seq<Byte>)
    requires forall i | 0 <= i < |b| :: b[i] != 13 && b[i] != 10
    ensures ByteEndings(b + rest) == ByteEndings(rest)
  {
    if b == [] {
      assert b + rest == rest;
    } else {
      assert (b + rest)[0] == b[0] && (b + rest)[1..] == b[1..] + rest;
      PlainHasNoEndings(b[1..], rest);
    }
  }

  /** In UTF-8 no other character contains the bytes of CR or LF. */
  lemma {:induction false} EndingsOfEncoded(s: string)
    ensures ByteEndings(EncodeUtf8(s)) == TextEndings(s)
  {
    if s != "" {
      EndingsOfEncoded(s[1..]);
      var rest := EncodeUtf8(s[1..]);
      if s[0] == '\r' {
        assert EncodeUtf8(s) == [13] + rest && EncodeUtf8(s)[1..] == rest;
        FirstByte(s[1..]);
        if |s| > 1 && s[1] == '\n' {
          assert rest == [10] + EncodeUtf8(s[2..]) by { assert s[1..][1..] == s[2..]; }
          assert EncodeUtf8(s)[2..] == EncodeUtf8(s[2..]) && rest[1..] == EncodeUtf8(s[2..]);
          EndingsOfEncoded(s[2..]);
        }
      } else if s[0] == '\n' {
        assert EncodeUtf8(s) == [10] + rest && EncodeUtf8(s)[1..] == rest;
      } else {
        PlainHasNoEndings(RuneBytes(s[0]), rest);
      }
    }
  }

  lemma FirstByte(s: string)
    ensures var b := EncodeUtf8(s); (b != [] && b[0] == 10) <==> (s != "" && s[0] == '\n')
  {
  }

  // -------------------------------------------------------------------- weaving

  /** Lines with an ending between each two. */
  function Woven(lines: seq<string>, used: seq<Ending>): string
    requires |lines| == |used| + 1
  {
    if used == [] then lines[0] else lines[0] + EndingText(used[0]) + Woven(lines[1..], used[1..])
  }

  predicate Bare(line: string) { '\r' !in line && '\n' !in line }

  predicate AllBare(lines: seq<string>) { forall i | 0 <= i < |lines| :: Bare(lines[i]) }

  /** What a text says: its lines and the endings between them. */
  ghost predicate Says(s: string, lines: seq<string>, used: seq<Ending>) {
    && Split(Logical(s), '\n') == lines && TextEndings(s) == used
    && |lines| == |used| + 1 && Woven(lines, used) == s && AllBare(lines)
  }

  lemma AfterEnding(s: string, n: nat, lines: seq<string>, used: seq<Ending>, e: Ending)
    requires n <= |s| && Says(s[n..], lines, used) && s[..n] == EndingText(e)
    requires e == Cr && n < |s| ==> s[n] != '\n'
    ensures Says(s, [""] + lines, [e] + used)
  {
    hide AllBare;
    assert s == EndingText(e) + s[n..];
    assert s[0] == EndingText(e)[0] && (n == 2 ==> s[1] == '\n');
    assert TextEndings(s) == [e] + used;
    assert Logical(s) == "\n" + Logical(s[n..]);
    assert Logical(s)[1..] == Logical(s[n..]);
    assert Split(Logical(s), '\n') == [""] + lines;
    hide Logical, Endings, Split;
    StillBare("", lines);
    WovenBehindEnding(lines, used, e);
  }

  lemma WovenBehindEnding(lines: seq<string>, used: seq<Ending>, e: Ending)
    requires |lines| == |used| + 1
    ensures Woven([""] + lines, [e] + used) == EndingText(e) + Woven(lines, used)
  {
    assert ([""] + lines)[1..] == lines && ([e] + used)[1..] == used;
  }

  lemma StillBare(line: string, lines: seq<string>)
    requires Bare(line) && AllBare(lines)
    ensures AllBare([line] + lines) && (lines != [] ==> AllBare(lines[1..]))
  {
  }

  lemma AfterCharacter(s: string, lines: seq<string>, used: seq<Ending>)
    requires s != "" && s[0] != '\r' && s[0] != '\n' && Says(s[1..], lines, used)
    ensures Says(s, [[s[0]] + lines[0]] + lines[1..], used)
  {
    hide AllBare, Woven, Logical, Split, Endings;
    CharacterStep(s);
    WovenGrows(s[0], lines, used);
    assert s == [s[0]] + s[1..];
    assert Bare(lines[0]) by { FirstIsBare(lines); }
    StillBare(lines[0], lines);
    StillBare([s[0]] + lines[0], lines[1..]);
  }

  lemma CharacterStep(s: string)
    requires s != "" && s[0] != '\r' && s[0] != '\n'
    ensures TextEndings(s) == TextEndings(s[1..])
    ensures var rest := Split(Logical(s[1..]), '\n'); Split(Logical(s), '\n') == [[s[0]] + rest[0]] + rest[1..]
  {
    assert Logical(s)[1..] == Logical(s[1..]);
  }

  lemma WovenGrows(c: char, lines: seq<string>, used: seq<Ending>)
    requires |lines| == |used| + 1
    ensures Woven([[c] + lines[0]] + lines[1..], used) == [c] + Woven(lines, used)
  {
    assert ([[c] + lines[0]] + lines[1..])[1..] == lines[1..];
  }

  lemma FirstIsBare(lines: seq<string>)
    requires AllBare(lines) && lines != []
    ensures Bare(lines[0])
  {
  }

  lemma EmptySays()
    ensures Says("", [""], [])
  {
  }

  lemma WhatItSays(s: string, lines: seq<string>, used: seq<Ending>)
    requires Says(s, lines, used)
    ensures lines == Split(Logical(s), '\n') && used == TextEndings(s)
  {
  }

  /** A text is its lines woven with its endings. */
  lemma {:induction false} TextIsWoven(s: string)
    ensures Says(s, Split(Logical(s), '\n'), TextEndings(s))
  {
    hide Says;
    if s == "" {
      EmptySays();
      WhatItSays(s, [""], []);
    } else {
      var n := if s[0] == '\r' && |s| > 1 && s[1] == '\n' then 2 else 1;
      TextIsWoven(s[n..]);
      var lines, used := Split(Logical(s[n..]), '\n'), TextEndings(s[n..]);
      if s[0] == '\r' || s[0] == '\n' {
        var e := if n == 2 then CrLf else if s[0] == '\r' then Cr else Lf;
        AfterEnding(s, n, lines, used, e);
        WhatItSays(s, [""] + lines, [e] + used);
      } else {
        AfterCharacter(s, lines, used);
        WhatItSays(s, [[s[0]] + lines[0]] + lines[1..], used);
      }
    }
  }
  /** A CR, an empty line and an LF: read back, they are one ending. */
  predicate CollapsesAt(lines: seq<string>, used: seq<Ending>, i: nat)
    requires |lines| == |used| + 1 && i + 1 < |used|
  {
    used[i] == Cr && lines[i + 1] == "" && used[i + 1] == Lf
  }

  predicate NoCollapse(lines: seq<string>, used: seq<Ending>)
    requires |lines| == |used| + 1
  {
    forall i: nat | i + 1 < |used| :: !CollapsesAt(lines, used, i)
  }

  lemma {:induction false} BarePrefix(line: string, rest: string)
    requires Bare(line)
    ensures Logical(line + rest) == line + Logical(rest)
    ensures TextEndings(line + rest) == TextEndings(rest)
  {
    if line == "" {
      assert line + rest == rest;
    } else {
      assert (line + rest)[0] == line[0] && (line + rest)[1..] == line[1..] + rest;
      BarePrefix(line[1..], rest);
    }
  }

  /** A text starts with an LF of its own only as an empty line that ends there. */
  lemma StartsWithLf(lines: seq<string>, used: seq<Ending>)
    requires |lines| == |used| + 1 && AllBare(lines)
    ensures var w := Woven(lines, used);
      (w != "" && w[0] == '\n') <==> (used != [] && lines[0] == "" && used[0] == Lf)
  {
    FirstIsBare(lines);
    if lines[0] != "" {
      assert Woven(lines, used)[0] == lines[0][0];
      assert lines[0][0] in lines[0];
    }
  }

  /** Cutting off the first line and ending of a woven text. */
  lemma FirstEnding(lines: seq<string>, used: seq<Ending>)
    requires |lines| == |used| + 1 && AllBare(lines) && used != []
    ensures var tail := EndingText(used[0]) + Woven(lines[1..], used[1..]);
      Woven(lines, used) == lines[0] + tail && TextEndings(Woven(lines, used)) == TextEndings(tail)
  {
    hide Endings;
    FirstIsBare(lines);
    var tail := EndingText(used[0]) + Woven(lines[1..], used[1..]);
    assert Woven(lines, used) == lines[0] + tail;
    BarePrefix(lines[0], tail);
  }

  lemma EndingsAfter(e: Ending, rest: string)
    ensures var merges := e == Cr && rest != "" && rest[0] == '\n';
      |TextEndings(EndingText(e) + rest)| == |TextEndings(rest)| + if merges then 0 else 1
  {
    var s := EndingText(e) + rest;
    assert s[|EndingText(e)|..] == rest;
    if e == Cr && rest != "" && rest[0] == '\n' {
      assert s[2..] == rest[1..];
    }
  }

  /** Each collapse loses one ending, and nothing else does. */
  lemma {:induction false} EndingsLeft(lines: seq<string>, used: seq<Ending>)
    requires |lines| == |used| + 1 && AllBare(lines)
    ensures |TextEndings(Woven(lines, used))| <= |used|
    ensures |TextEndings(Woven(lines, used))| == |used| <==> NoCollapse(lines, used)
  {
    hide Endings, Woven;
    if used == [] {
      NoEndingsInOneLine(lines, used);
    } else {
      StillBare(lines[0], lines) by { FirstIsBare(lines); }
      var rest := Woven(lines[1..], used[1..]);
      FirstEnding(lines, used);
      EndingsAfter(used[0], rest);
      StartsWithLf(lines[1..], used[1..]);
      EndingsLeft(lines[1..], used[1..]);
      CollapseSplits(lines, used);
    }
  }

  lemma NoEndingsInOneLine(lines: seq<string>, used: seq<Ending>)
    requires used == [] && |lines| == 1 && AllBare(lines)
    ensures TextEndings(Woven(lines, used)) == [] && NoCollapse(lines, used)
  {
    FirstIsBare(lines);
    BarePrefix(lines[0], "");
    assert lines[0] + "" == lines[0];
  }

  lemma CollapseSplits(lines: seq<string>, used: seq<Ending>)
    requires |lines| == |used| + 1 && used != []
    ensures NoCollapse(lines, used) <==>
      (|used| > 1 ==> !CollapsesAt(lines, used, 0)) && NoCollapse(lines[1..], used[1..])
  {
    forall i: nat | i + 1 < |used| - 1
      ensures CollapsesAt(lines[1..], used[1..], i) <==> CollapsesAt(lines, used, i + 1)
    {
    }
    if NoCollapse(lines[1..], used[1..]) && (|used| > 1 ==> !CollapsesAt(lines, used, 0)) {
      forall i: nat | i + 1 < |used| ensures !CollapsesAt(lines, used, i) {
        if i > 0 { assert !CollapsesAt(lines[1..], used[1..], i - 1); }
      }
    }
  }

  lemma AfterLine(line: string, s: string, lines: seq<string>, used: seq<Ending>)
    requires Bare(line) && Says(s, [""] + lines, used)
    ensures Says(line + s, [line] + lines, used)
  {
    hide Endings, AllBare, Logical, Split;
    BarePrefix(line, s);
    SplitPrepends(line, Logical(s), '\n');
    StillBare("", [""] + lines);
    assert ([""] + lines)[1..] == lines && ([line] + lines)[1..] == lines;
    StillBare(line, lines);
    assert line + "" == line;
    assert Split(Logical(line + s), '\n') == [line] + lines;
    assert Woven([line] + lines, used) == line + Woven([""] + lines, used) by {
      if used != [] {
        var tail := EndingText(used[0]) + Woven(lines, used[1..]);
        assert Woven([""] + lines, used) == tail && Woven([line] + lines, used) == line + tail;
      }
    }
  }

  /** Without a collapse a woven text says exactly what was woven into it. */
  lemma {:induction false} WovenReadsBack(lines: seq<string>, used: seq<Ending>)
    requires |lines| == |used| + 1 && AllBare(lines) && NoCollapse(lines, used)
    ensures Says(Woven(lines, used), lines, used)
  {
    hide Says, Endings, Woven;
    var w := Woven(lines, used);
    FirstIsBare(lines);
    if used == [] {
      EmptySays();
      assert [""] + [] == [""];
      AfterLine(lines[0], "", [], []);
      assert [lines[0]] + [] == lines && lines[0] + "" == lines[0] && used == [];
      assert w == lines[0] by { WovenOne(lines, used); }
    } else {
      StillBare(lines[0], lines);
      CollapseSplits(lines, used);
      WovenReadsBack(lines[1..], used[1..]);
      var rest := Woven(lines[1..], used[1..]);
      var tail := EndingText(used[0]) + rest;
      FirstEnding(lines, used);
      StartsWithLf(lines[1..], used[1..]);
      assert tail[|EndingText(used[0])|..] == rest;
      AfterEnding(tail, |EndingText(used[0])|, lines[1..], used[1..], used[0]);
      AfterLine(lines[0], tail, lines[1..], [used[0]] + used[1..]);
      assert lines == [lines[0]] + lines[1..] && used == [used[0]] + used[1..];
    }
  }

  lemma WovenOne(lines: seq<string>, used: seq<Ending>)
    requires used == [] && |lines| == 1
    ensures Woven(lines, used) == lines[0]
  {
  }

  /** The lines of a woven text read back as woven exactly when nothing collapses. */
  lemma LinesReadBackExactlyWhen(lines: seq<string>, used: seq<Ending>)
    requires |lines| == |used| + 1 && AllBare(lines)
    ensures Split(Logical(Woven(lines, used)), '\n') == lines <==> NoCollapse(lines, used)
  {
    hide Endings, Woven, Logical, Split, NoCollapse, AllBare;
    var w := Woven(lines, used);
    if NoCollapse(lines, used) {
      WovenReadsBack(lines, used);
      WhatItSays(w, lines, used);
    }
    EndingsLeft(lines, used);
    TextIsWoven(w);
  }
}

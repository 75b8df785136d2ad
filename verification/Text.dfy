/**
 The string operations of the Go standard library that the editor, the reader
 and the observer build on.  A `string` here is a text of Unicode code points,
 which is what a Go string of valid UTF-8 holds.
 */
module Text {

  /** The byte-order mark as a character. */
  const MARK := '\U{FEFF}'

  /** A text without its leading mark. */
  function StripMark(s: string): string { if HasPrefix(s, [MARK]) then s[1..] else s }

  predicate HasPrefix<T(==)>(s: seq<T>, prefix: seq<T>) { |prefix| <= |s| && s[..|prefix|] == prefix }

  predicate HasSuffix<T(==)>(s: seq<T>, suffix: seq<T>) { |suffix| <= |s| && s[|s| - |suffix|..] == suffix }

  /** Replace every occurrence of `from`, left to right, without overlaps. */
  function ReplaceAll<T(==)>(s: seq<T>, from: seq<T>, to: seq<T>): seq<T>
    requires from != []
  {
    if s == [] then []
    else if HasPrefix(s, from) then to + ReplaceAll(s[|from|..], from, to)
    else [s[0]] + ReplaceAll(s[1..], from, to)
  }

  /** Cut a text at every separator; a text with k separators has k + 1 parts. */
  function Split<T(==)>(s: seq<T>, separator: T): (parts: seq<seq<T>>)
    ensures parts != []
  {
    if s == [] then [[]]
    else
      var rest := Split(s[1..], separator);
      if s[0] == separator then [[]] + rest else [[s[0]] + rest[0]] + rest[1..]
  }

  function Join<T>(parts: seq<seq<T>>, separator: seq<T>): seq<T>
    requires parts != []
  {
    if |parts| == 1 then parts[0] else parts[0] + separator + Join(parts[1..], separator)
  }

  /** Every line followed by its newline. */
  function Terminated(lines: seq<string>): string {
    if lines == [] then "" else lines[0] + "\n" + Terminated(lines[1..])
  }

  lemma {:induction false} JoinUndoesSplit<T>(s: seq<T>, separator: T)
    ensures Join(Split(s, separator), [separator]) == s
    ensures forall part | part in Split(s, separator) :: separator !in part
  {
    if s == [] {
    } else {
      JoinUndoesSplit(s[1..], separator);
      var rest := Split(s[1..], separator);
      var parts := Split(s, separator);
      if s[0] == separator {
        assert parts[1..] == rest;
      } else if |rest| > 1 {
        assert parts[1..] == rest[1..];
        assert parts[0] + [separator] + Join(rest[1..], [separator])
            == [s[0]] + (rest[0] + [separator] + Join(rest[1..], [separator]));
      }
    }
  }

  lemma {:induction false} SplitPrepends<T>(head: seq<T>, s: seq<T>, separator: T)
    requires separator !in head
    ensures Split(head + s, separator) == [head + Split(s, separator)[0]] + Split(s, separator)[1..]
  {
    if head == [] {
      assert head + s == s && head + Split(s, separator)[0] == Split(s, separator)[0];
    } else {
      assert (head + s)[0] == head[0] && (head + s)[1..] == head[1..] + s;
      SplitPrepends(head[1..], s, separator);
      assert [head[0]] + (head[1..] + Split(s, separator)[0]) == head + Split(s, separator)[0];
    }
  }

  lemma {:induction false} PartsKeepOut<T>(s: seq<T>, separator: T, c: T)
    requires c !in s
    ensures forall part | part in Split(s, separator) :: c !in part
  {
    if s != [] {
      PartsKeepOut(s[1..], separator, c);
    }
  }

  /** Lines without newlines are recovered from their terminated text. */
  lemma {:induction false} SplitOfTerminated(lines: seq<string>)
    requires forall line | line in lines :: '\n' !in line
    ensures Split(Terminated(lines), '\n') == lines + [""]
  {
    if lines == [] {
    } else {
      var rest := "\n" + Terminated(lines[1..]);
      SplitOfTerminated(lines[1..]);
      assert rest[1..] == Terminated(lines[1..]);
      assert Split(rest, '\n') == [""] + Split(rest[1..], '\n');
      SplitPrepends(lines[0], rest, '\n');
      assert lines[0] + "\n" + Terminated(lines[1..]) == lines[0] + rest;
      assert lines[0] + [] == lines[0];
      assert [lines[0]] + (lines[1..] + [""]) == lines + [""];
    }
  }

  lemma {:induction false} TerminatedConcat(s: seq<string>, t: seq<string>)
    ensures Terminated(s + t) == Terminated(s) + Terminated(t)
  {
    if s == [] {
      assert s + t == t;
    } else {
      assert (s + t)[0] == s[0] && (s + t)[1..] == s[1..] + t;
      TerminatedConcat(s[1..], t);
    }
  }

  lemma {:induction false} TerminatedEndsWithNewline(lines: seq<string>)
    requires lines != []
    ensures HasSuffix(Terminated(lines), "\n")
  {
    if |lines| > 1 {
      TerminatedEndsWithNewline(lines[1..]);
    }
  }

  // ------------------------------------------------------------ line endings

  /** Every line ending becomes one newline: first CR LF, then the CRs left over. */
  function Normalize(s: string): string {
    ReplaceAll(ReplaceAll(s, "\r\n", "\n"), "\r", "\n")
  }

  /** The same, read off in one pass. */
  function Logical(s: string): string {
    if s == [] then []
    else if s[0] != '\r' then [s[0]] + Logical(s[1..])
    else "\n" + Logical(if |s| > 1 && s[1] == '\n' then s[2..] else s[1..])
  }

  /** The two replacements amount to one pass over the endings. */
  lemma {:induction false} NormalizeIsLogical(s: string)
    ensures Normalize(s) == Logical(s) && '\r' !in Logical(s)
  {
    if s == [] {
    } else if HasPrefix(s, "\r\n") {
      NormalizeIsLogical(s[2..]);
      assert ReplaceAll(s, "\r\n", "\n")[1..] == ReplaceAll(s[2..], "\r\n", "\n");
    } else {
      assert s[0] == '\r' && |s| > 1 ==> s[1] != '\n';
      NormalizeIsLogical(s[1..]);
      var inner := ReplaceAll(s, "\r\n", "\n");
      assert inner[0] == s[0] && inner[1..] == ReplaceAll(s[1..], "\r\n", "\n");
      assert HasPrefix(inner, "\r") <==> s[0] == '\r';
    }
  }

  /** Normalizing again changes nothing. */
  lemma {:induction false} LogicalIsStable(s: string)
    requires '\r' !in s
    ensures Logical(s) == s
  {
    if s != [] {
      LogicalIsStable(s[1..]);
    }
  }

  // ------------------------------------------------------------- white space

  /** White space in the sense of the Go standard library. */
  predicate IsSpace(c: char) {
    || c in "\t\n\r \U{0B}\U{0C}\U{85}\U{A0}\U{1680}\U{2028}\U{2029}\U{202F}\U{205F}\U{3000}"
    || '\U{2000}' <= c <= '\U{200A}'
  }

  /** Exactly one leading U+FEFF is taken off. */
  lemma MarkIsStripped(s: string)
    ensures StripMark("\U{FEFF}" + s) == s
    ensures (s == "" || s[0] != '\U{FEFF}') ==> StripMark(s) == s
  {
    assert ("\U{FEFF}" + s)[..1] == "\U{FEFF}";
  }

  /** Blanks are the characters that Unicode calls white space, and no letter, digit or mark is one. */
  lemma BlankExamples()
    ensures IsBlank(" \t\n\r\U{85}\U{A0}\U{2003}\U{3000}") && IsBlank("")
    ensures !IsSpace('a') && !IsSpace('0') && !IsSpace('_') && !IsSpace('\U{FEFF}')
  {
  }

  function TrimLeft(s: string): string { if s != "" && IsSpace(s[0]) then TrimLeft(s[1..]) else s }

  function TrimRight(s: string): string
  {
    if s != "" && IsSpace(s[|s| - 1]) then TrimRight(s[..|s| - 1]) else s
  }

  function TrimSpace(s: string): string { TrimRight(TrimLeft(s)) }

  predicate IsBlank(s: string) { forall i | 0 <= i < |s| :: IsSpace(s[i]) }

  lemma {:induction false} TrimmedAwayWhenBlank(s: string)
    ensures TrimSpace(s) == "" <==> IsBlank(s)
  {
    TrimLeftBlank(s);
    TrimRightBlank(TrimLeft(s));
  }

  lemma {:induction false} TrimLeftBlank(s: string)
    ensures IsBlank(TrimLeft(s)) <==> IsBlank(s)
  {
    if s != "" && IsSpace(s[0]) {
      TrimLeftBlank(s[1..]);
      assert forall i | 0 < i < |s| :: s[i] == s[1..][i - 1];
    }
  }

  lemma {:induction false} TrimRightBlank(s: string)
    ensures TrimRight(s) == "" <==> IsBlank(s)
  {
    if s != "" && IsSpace(s[|s| - 1]) {
      TrimRightBlank(s[..|s| - 1]);
      assert forall i | 0 <= i < |s| - 1 :: s[i] == s[..|s| - 1][i];
    }
  }
}

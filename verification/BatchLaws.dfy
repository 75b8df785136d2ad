/**
 What an accepted batch means, said of the files and the request alone: which files
 have to be there, with which digests, and what each of them holds afterwards.
 */
module BatchLaws {
  import opened OperationCore
  import opened Text
  import opened Unicode
  import opened LineEndings
  import opened TextFormat
  import opened BatchPlan
  import opened Batch
  import Replacements
  import LineRanges

  // -------------------------------------------------------------- what an edit asks for

  /** The new text of an update, from the old one. */
  ghost predicate AsAsked(old': string, e: FileEdit, edited: string) {
    if e.range.Some? then
      && e.replacements == [] && IsBlank(e.content) && e.base.Some?
      && 1 <= e.range.value.startLine <= e.range.value.endLine <= LineRanges.LineTotal(old')
      && LineRanges.RangeEdited(old', e.range.value.startLine, e.range.value.endLine, e.range.value.replacement, edited)
    else if e.replacements != [] then IsBlank(e.content) && Replacements.Exchanges(old', edited, e.replacements)
    else edited == StripMark(Logical(e.content))
  }

  /** The bytes decode, and this is their text with uniform newlines. */
  ghost predicate Holds(content: seq<Byte>, text: string) {
    Decoding(content).Decoded? && Logical(Decoding(content).text) == text
  }

  /** The bytes of a created file. */
  ghost predicate Created(e: FileEdit, content: seq<Byte>) {
    && e.replacements == [] && e.range.None?
    && match e.exact
       case ExactBytes(bytes) => content == bytes && Decoding(bytes).Decoded?
       case _ => Holds(content, StripMark(Logical(e.content))) && InStyleOf(e.content, content)
  }

  /** UTF-8, marked as the text it was made from, and with its one kind of line ending; with LF if that had none or several. */
  ghost predicate InStyleOf(text: string, content: seq<Byte>)
    requires Decoding(content).Decoded?
  {
    var d := Decoding(content);
    var own, written := TextEndings(text), TextEndings(d.text);
    && d.format.charset == Utf8 && (d.format.bom == Utf8Bom <==> text != "" && text[0] == MARK)
    && forall i | 0 <= i < |written| ::
         written[i] == if own != [] && (forall e | e in own :: e == own[0]) then own[0] else Lf
  }

  /**
   The bytes of an updated file: the exact ones asked for, or those of a text as asked.
   The text reads back if it survives the file's format, and an unchanged text is
   written as the bytes it had.
   */
  ghost predicate UpdatedFrom(before: seq<Byte>, e: FileEdit, content: seq<Byte>) {
    exists changed :: UpdatedBy(before, e, content, changed)
  }

  /** The same, with the number of changed lines. */
  ghost predicate UpdatedBy(before: seq<Byte>, e: FileEdit, content: seq<Byte>, changed: nat) {
    && Decoding(before).Decoded?
    && var text := Logical(Decoding(before).text);
       match e.exact
       case ExactBytes(bytes) =>
         content == bytes && Decoding(bytes).Decoded? && changed == Changed(text, Logical(Decoding(bytes).text))
       case _ =>
         exists edited ::
           AsAsked(text, e, edited) && WrittenOver(before, edited, content) && changed == Changed(text, edited)
  }

  /** The number of lines that a created file brings. */
  ghost predicate CreatedLines(e: FileEdit, changed: nat) {
    match e.exact
    case ExactBytes(bytes) => Decoding(bytes).Decoded? && changed == Changed("", Logical(Decoding(bytes).text))
    case _ => changed == Changed("", StripMark(Logical(e.content)))
  }

  ghost predicate WrittenOver(before: seq<Byte>, edited: string, content: seq<Byte>)
    requires Decoding(before).Decoded?
  {
    var format := Decoding(before).format;
    && (format.charset.Utf16? ==> |before| >= 2)
    && (Holds(content, edited) <==> Survives(edited, format, before))
    && (edited == Logical(Decoding(before).text) ==> content == before)
  }

  /** Exact bytes come with their policy, a format and nothing else; an update names its base. */
  predicate ExactContract(e: FileEdit) {
    match e.exact
    case NoExact => e.policy == PreservePolicy
    case BadExact => false
    case ExactBytes(_) =>
      && e.policy == ExactPolicy && e.expected.Some? && (e.operation == Create || e.operation == Update)
      && (e.operation == Update ==> e.base.Some?)
      && e.content == "" && e.replacements == [] && e.range.None?
  }

  /** The format the caller insists on is the one the bytes have. */
  predicate AsExpected(e: FileEdit, content: seq<Byte>) {
    e.expected.Some? ==>
      var format := FormatOf(content);
      && e.operation != Delete && e.expected.value.charset == Some(format.charset)
      && e.expected.value.bom == Some(format.bom) && e.expected.value.mix == Some(format.mix)
  }

  /** The file that an update, a delete or a rename starts from, with the digest the caller named. */
  predicate Based(fs: Files, e: FileEdit, path: string) {
    e.operation != Create ==> path in fs && (e.base.Some? ==> Digest(fs[path]) == e.base.value)
  }

  /** One edit, done between two states of the files. */
  ghost predicate DoneAt(before: Files, after: Files, policies: Policies, e: FileEdit, path: string, newPath: string) {
    && !IsBlank(e.path) && policies.resolve(TrimSpace(e.path)) == Some(path) && policies.allows(path)
    && ExactContract(e) && Based(before, e, path)
    && match e.operation
       case Create => path !in before && path in after && Created(e, after[path]) && AsExpected(e, after[path])
       case Update => path in before && path in after && UpdatedFrom(before[path], e, after[path]) && AsExpected(e, after[path])
       case Delete => path in before && path !in after && Decoding(before[path]).Decoded? && e.expected.None?
       case Rename =>
         && !IsBlank(e.newPath) && policies.resolve(TrimSpace(e.newPath)) == Some(newPath) && policies.allows(newPath)
         && newPath != path && newPath !in before && path in before && path !in after
         && newPath in after && after[newPath] == before[path] && AsExpected(e, after[newPath])
       case Unknown => false
  }

  ghost predicate CarriedOut(before: Files, after: Files, policies: Policies, e: FileEdit) {
    exists path, newPath :: DoneAt(before, after, policies, e, path, newPath)
  }

  /** A path that no edit of the batch names. */
  predicate Unnamed(policies: Policies, edits: seq<FileEdit>, path: string) {
    forall i | 0 <= i < |edits| ::
      && policies.resolve(TrimSpace(edits[i].path)) != Some(path)
      && (edits[i].operation == Rename ==> policies.resolve(TrimSpace(edits[i].newPath)) != Some(path))
  }

  /** Every edit is done and every other file is as it was. */
  ghost predicate Committed(before: Files, after: Files, policies: Policies, edits: seq<FileEdit>) {
    && (forall i | 0 <= i < |edits| :: CarriedOut(before, after, policies, edits[i]))
    && forall path | Unnamed(policies, edits, path) ::
         (path in after <==> path in before) && (path in before ==> after[path] == before[path])
  }

  // -------------------------------------------------------------- what planning accepts

  /** What a plan says of its edit. */
  ghost predicate PlanFits(fs: Files, policies: Policies, e: FileEdit, p: Prepared) {
    && p.edit == e && !IsBlank(e.path) && policies.resolve(TrimSpace(e.path)) == Some(p.absPath) && policies.allows(p.absPath)
    && ExactContract(e) && Based(fs, e, p.absPath)
    && (e.operation != Create ==> p.original == fs[p.absPath])
    && match e.operation
       case Create => p.absPath !in fs && Created(e, p.proposed) && CreatedLines(e, p.changed) && AsExpected(e, p.proposed)
       case Update => UpdatedBy(p.original, e, p.proposed, p.changed) && AsExpected(e, p.proposed)
       case Delete =>
         Decoding(p.original).Decoded? && p.changed == Changed(Logical(Decoding(p.original).text), "") && e.expected.None?
       case Rename =>
         && !IsBlank(e.newPath) && policies.resolve(TrimSpace(e.newPath)) == Some(p.absNew) && policies.allows(p.absNew)
         && p.absNew != p.absPath && p.absNew !in fs && p.proposed == p.original && p.changed == 0
         && AsExpected(e, p.proposed)
       case Unknown => false
  }

  lemma CreateFits(fs: Files, e: FileEdit, abs: string)
    requires PlanCreate(fs, e, abs).Ok?
    ensures var p := PlanCreate(fs, e, abs).value;
      p.edit == e && p.absPath == abs && abs !in fs && (e.exact != BadExact ==> Created(e, p.proposed) && CreatedLines(e, p.changed))
  {
    hide Decoding, Logical, StripMark, Changed, EncodeWithFormat, CreateFormat;
    if e.exact.NoExact? { CreatedReadsBack(e.content); }
  }

  /** A created file holds the content it was asked to hold. */
  lemma CreatedReadsBack(content: string)
    ensures var out := EncodeWithFormat(StripMark(Logical(content)), CreateFormat(content));
      Holds(out, StripMark(Logical(content))) && InStyleOf(content, out)
  {
    hide Decoding, Logical, Marked, Body, Split, Woven, NoCollapse, AllBare, WrittenEndings, EncodeUtf8, Endings;
    var text := StripMark(Logical(content));
    var format := CreateFormat(content);
    CreateFormatIs(content);
    NormalizeIsLogical(content);
    PartsAreBare(text);
    BodyIsWoven(text, format, []);
    var lines := Split(text, '\n');
    UniformNeverCollapses(lines, format, []);
    LinesReadBackExactlyWhen(lines, WrittenEndings(format, [], |lines| - 1));
    SplitIsInjective(Logical(Body(text, format.mix)), text);
    SameStart(text, WrittenEndings(format, [], |lines| - 1));
    MarkedUtf8Decodes(Body(text, format.mix), format.bom);
    WovenReadsBack(lines, WrittenEndings(format, [], |lines| - 1));
    CreateEndingsAre(content, |lines| - 1);
  }

  /** The ending that a created file is written with. */
  lemma CreateEndingsAre(content: string, n: nat)
    ensures var (format, own) := (CreateFormat(content), TextEndings(content));
      && format.charset == Utf8 && (format.bom == Utf8Bom <==> content != "" && content[0] == MARK)
      && forall i | 0 <= i < n :: WrittenEndings(format, [], n)[i] ==
           if own != [] && (forall e | e in own :: e == own[0]) then own[0] else Lf
  {
    hide EncodeUtf8, ValidUtf8, DecodeUtf8, Endings, CountsOf, MixOf, Logical;
    CreateFormatIs(content);
    Utf8RoundTrip(content);
    ValidHasNoOrderMark(EncodeUtf8(content));
    MarkIsThreeBytes(content);
    CreateMixIs(content);
    var own := TextEndings(content);
    MixNamesTheEndings(own);
    assert forall i | 0 <= i < |own| :: own[i] in own;
  }

  /** The endings that creation looks at are those of the content, a leading mark aside. */
  lemma CreateMixIs(content: string)
    ensures CreateFormat(content).mix ==
      var mix := MixOf(CountsOf(TextEndings(content))); if mix == Mixed then OnlyLf else mix
  {
    hide EncodeUtf8, ValidUtf8, DecodeUtf8, Endings, CountsOf, MixOf, Logical;
    Utf8RoundTrip(content);
    ValidHasNoOrderMark(EncodeUtf8(content));
    MarkIsThreeBytes(content);
    if content != "" && content[0] == MARK {
      assert EncodeUtf8(content)[3..] == EncodeUtf8(content[1..]);
      BytesDecode(EncodeUtf8(content), 3, Utf8Bom, content[1..]);
      DecodedIsMarked(EncodeUtf8(content));
      MarkIsNoLineEnd(content);
    } else {
      assert EncodeUtf8(content)[0..] == EncodeUtf8(content);
      BytesDecode(EncodeUtf8(content), 0, NoBom, content);
      DecodedIsMarked(EncodeUtf8(content));
    }
  }

  lemma MarkIsNoLineEnd(content: string)
    requires content != "" && content[0] == MARK
    ensures TextEndings(content[1..]) == TextEndings(content)
  {
  }

  lemma CreateFormatIs(content: string)
    ensures var format := CreateFormat(content);
      && format.charset == Utf8 && Consistent(Utf8, format.bom) && format.mix != Mixed
      && !LooksMarked(StripMark(Logical(content)), Utf8, format.bom)
  {
    hide EncodeUtf8, ValidUtf8, DecodeUtf8, Endings, CountsOf, MixOf;
    Utf8RoundTrip(content);
    ValidHasNoOrderMark(EncodeUtf8(content));
    MarkIsThreeBytes(content);
  }

  lemma TextIsAsked(old': string, e: FileEdit)
    requires UpdatedText(old', e).Ok?
    ensures AsAsked(old', e, UpdatedText(old', e).value)
  {
    hide Replacements.Substituted, Replacements.Exchanges, LineRanges.Replaced, LineRanges.RangeEdited, StripMark, Logical;
    hide Replacements.HitsOf, Replacements.AllUnique, Replacements.Disjoint;
    if e.range.Some? {
      var r := e.range.value;
      LineRanges.ReplacedIsRangeEdited(old', r.startLine, r.endLine, r.replacement);
    } else if e.replacements != [] {
      Replacements.SubstitutionExchanges(old', e.replacements);
    }
  }

  lemma UpdateIsWritten(before: seq<Byte>, edited: string)
    requires Decoding(before).Decoded?
    ensures var format := FormatOf(before);
      && (format.charset.Utf16? ==> |before| >= 2)
      && WrittenOver(before, edited, Marked(WrittenBody(edited, format, before), format.charset, format.bom))
  {
    hide Decoding, Logical, Marked, WrittenBody, Survives;
    EditReadsBackExactlyWhen(before, edited);
    NoOpIsExact(before);
  }

  lemma UpdateFits(fs: Files, e: FileEdit, abs: string)
    requires PlanUpdate(fs, e, abs).Ok?
    ensures var p := PlanUpdate(fs, e, abs).value;
      && p.edit == e && p.absPath == abs && abs in fs && p.original == fs[abs]
      && (e.base.Some? ==> Digest(fs[abs]) == e.base.value)
      && (e.exact != BadExact ==> UpdatedBy(p.original, e, p.proposed, p.changed))
  {
    hide UpdatedText, Changed, Decoding, Logical, Marked, WrittenBody, AsAsked, WrittenOver;
    var text := Logical(Decoding(fs[abs]).text);
    TextIsAsked(text, e);
    UpdateIsWritten(fs[abs], UpdatedText(text, e).value);
  }

  /** Whatever is planned fits what was asked for. */
  lemma PlannedFits(fs: Files, policies: Policies, e: FileEdit, p: Prepared)
    requires Plan(fs, policies, e, {}) == Ok(p)
    ensures PlanFits(fs, policies, e, p)
  {
    hide PlanCreate, PlanUpdate, Created, CreatedLines, UpdatedBy, TrimSpace, IsBlank, FormatOf, Changed, Decoding;
    var abs := policies.resolve(TrimSpace(e.path)).value;
    match e.operation
    case Create => CreateFits(fs, e, abs);
    case Update => UpdateFits(fs, e, abs);
    case _ =>
  }

  /** A file that does not have the digest the caller named is refused as stale, whatever else would have passed. */
  lemma StaleBaseIsRefused(fs: Files, policies: Policies, e: FileEdit, taken: set<string>, path: string)
    requires policies.resolve(TrimSpace(e.path)) == Some(path) && path in fs
    requires e.operation == Update || e.operation == Delete || e.operation == Rename
    requires Plan(fs, policies, e.(base := Some(Digest(fs[path]))), taken).Ok?
    requires e.base.Some? && e.base.value != Digest(fs[path])
    ensures Plan(fs, policies, e, taken) == Refused(StaleRevision)
  {
    hide TrimSpace, IsBlank, FormatOf, Changed, Decoding, LogicalOf, UpdatedText, Marked, WrittenBody;
  }

  /** Every update, delete and rename of an accepted batch finds its file, with the digest the caller named. */
  lemma AcceptedBasesHold(fs: Files, policies: Policies, edits: seq<FileEdit>, i: nat)
    requires PlanAll(fs, policies, edits, {}, 0).Ok? && i < |edits| && edits[i].operation != Create
    ensures exists path :: policies.resolve(TrimSpace(edits[i].path)) == Some(path) && Based(fs, edits[i], path)
  {
    hide Plan, PlanFits, TrimSpace;
    var plans := PlanAll(fs, policies, edits, {}, 0).value;
    AcceptedExactlyWhen(fs, policies, edits, plans);
    PlannedFits(fs, policies, edits[i], plans[i]);
    PlanNamesFile(fs, policies, edits[i], plans[i]);
  }

  lemma PlanNamesFile(fs: Files, policies: Policies, e: FileEdit, p: Prepared)
    requires PlanFits(fs, policies, e, p)
    ensures policies.resolve(TrimSpace(e.path)) == Some(p.absPath) && Based(fs, e, p.absPath)
  {
  }

  // ------------------------------------------------------------------ refusals

  /** A file or the exact bytes of the edit do not decode. */
  predicate NotText(fs: Files, e: FileEdit, path: string) {
    || (path in fs && Decoding(fs[path]).Undecodable?)
    || (e.exact.ExactBytes? && Decoding(e.exact.bytes).Undecodable?)
  }

  /** The text of the file, if it has one. */
  function TextAt(fs: Files, path: string): string {
    if path in fs && Decoding(fs[path]).Decoded? then Logical(Decoding(fs[path]).text) else ""
  }

  /** Why an edit is refused: the reason that each code gives. */
  ghost predicate Reason(fs: Files, policies: Policies, e: FileEdit, taken: set<string>, path: string, code: Code) {
    match code
    case Denied => !policies.allows(path) || (e.operation == Rename && !policies.allows(NewPathOf(policies, e)))
    case TargetExists => (e.operation == Create && path in fs) || (e.operation == Rename && NewPathOf(policies, e) in fs)
    case NotFound => e.operation != Create && path !in fs
    case StaleRevision => e.operation != Create && path in fs && e.base.Some? && e.base.value != Digest(fs[path])
    case UnsupportedEncoding => NotText(fs, e, path)
    case MatchNotFound =>
      && e.operation == Update
      && exists r | r in e.replacements :: Replacements.ReasonIs(TextAt(fs, path), r.find, Replacements.MatchNotFound)
    case MatchAmbiguous =>
      && e.operation == Update
      && exists r | r in e.replacements :: Replacements.ReasonIs(TextAt(fs, path), r.find, Replacements.MatchAmbiguous)
    case RangeOutOfBounds =>
      e.operation == Update && e.range.Some? && e.range.value.endLine > LineRanges.LineTotal(TextAt(fs, path))
    case Unsupported => e.operation == Unknown
    case FormatMismatch => e.expected.Some?
    case InvalidPath => e.operation == Rename && policies.resolve(TrimSpace(e.newPath)) == None
    case InvalidInput => true
    case _ => false
  }

  function NewPathOf(policies: Policies, e: FileEdit): string {
    match policies.resolve(TrimSpace(e.newPath)) case None => "" case Some(p) => p
  }

  /** A refused text carries its reason. */
  lemma TextRefusal(old': string, e: FileEdit)
    requires UpdatedText(old', e).Refused?
    ensures match UpdatedText(old', e).code
      case MatchNotFound => exists r | r in e.replacements :: Replacements.ReasonIs(old', r.find, Replacements.MatchNotFound)
      case MatchAmbiguous => exists r | r in e.replacements :: Replacements.ReasonIs(old', r.find, Replacements.MatchAmbiguous)
      case RangeOutOfBounds => e.range.Some? && e.range.value.endLine > LineRanges.LineTotal(old')
      case InvalidInput => true
      case _ => false
  {
    hide Replacements.Substituted, Replacements.HitsOf, Replacements.Disjoint, Replacements.ReasonIs, Logical, StripMark;
    if e.range.None? && e.replacements != [] && IsBlank(e.content) && !Replacements.AllUnique(old', e.replacements) {
      var r := e.replacements[FirstRefused(old', e.replacements)];
      assert r in e.replacements;
      Replacements.RefusalIsReason(old', r);
    }
  }

  lemma UpdateRefusal(fs: Files, policies: Policies, e: FileEdit, taken: set<string>, path: string)
    requires e.operation == Update && PlanUpdate(fs, e, path).Refused?
    ensures Reason(fs, policies, e, taken, path, PlanUpdate(fs, e, path).code)
  {
    hide UpdatedText, Changed, Decoding, Marked, WrittenBody, Logical, Replacements.ReasonIs, LineRanges.LineTotal;
    if path in fs && BaseMatches(fs[path], e.base) && LogicalOf(fs[path]).Ok? {
      var text := LogicalOf(fs[path]).value;
      assert text == TextAt(fs, path);
      if UpdatedText(text, e).Refused? { TextRefusal(text, e); }
    }
  }

  /** Every refusal of a single edit with a usable path says why. */
  lemma RefusalHasItsReason(fs: Files, policies: Policies, e: FileEdit, taken: set<string>, path: string)
    requires !IsBlank(e.path) && policies.resolve(TrimSpace(e.path)) == Some(path)
    requires Plan(fs, policies, e, taken).Refused?
    ensures Reason(fs, policies, e, taken, path, Plan(fs, policies, e, taken).code)
  {
    hide PlanUpdate, Changed, Decoding, Logical, TrimSpace, IsBlank, Replacements.ReasonIs, LineRanges.LineTotal;
    hide EncodeWithFormat, CreateFormat, StripMark, FormatOf;
    PlansKeepTheEdit(fs, e, path);
    if e.operation == Update && PlanUpdate(fs, e, path).Refused? { UpdateRefusal(fs, policies, e, taken, path); }
  }
}

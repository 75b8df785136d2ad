/**
 Planning a batch of file edits (`internal/edit/apply.go`): every edit is checked
 and computed against the files as they are, before anything is written.
 */
module BatchPlan {
  import opened OperationCore
  import opened Text
  import opened Unicode
  import opened LineEndings
  import opened TextFormat
  import UnifiedDiff
  import Replacements
  import LineRanges

  const MAX_CHANGED_LINES: nat := 1000

  /** Physical paths to file contents. */
  type Files = map<string, seq<Byte>>

  /** A content hash without collisions. */
  datatype Digest = Digest(of: seq<Byte>)

  datatype Operation = Create | Update | Delete | Rename | Unknown

  datatype Range = Range(startLine: int, endLine: int, replacement: string)

  /** Exact bytes as they arrive: absent, undecodable, or decoded. */
  datatype Exact = NoExact | BadExact | ExactBytes(bytes: seq<Byte>)

  datatype Policy = PreservePolicy | ExactPolicy | OtherPolicy

  /** A format the caller insists on; a missing field never matches. */
  datatype Expected = Expected(charset: Option<Charset>, bom: Option<Bom>, mix: Option<Mix>)

  datatype FileEdit = FileEdit(
    path: string, operation: Operation, base: Option<Digest>, content: string, newPath: string,
    replacements: seq<Replacements.Replacement>, range: Option<Range>,
    exact: Exact, policy: Policy, expected: Option<Expected>)

  datatype Code =
    | InvalidInput | InvalidPath | Denied | TargetExists | NotFound | StaleRevision
    | UnsupportedEncoding | MatchNotFound | MatchAmbiguous | RangeOutOfBounds
    | Unsupported | FormatMismatch | TooManyChanges | HookFailed | ReadbackMismatch

  datatype Prepared = Prepared(
    edit: FileEdit, absPath: string, absNew: string, original: seq<Byte>, proposed: seq<Byte>, changed: nat)

  datatype Result<+T> = Ok(value: T) | Refused(code: Code)

  /** Where a path leads, and whether policy allows it. */
  datatype Policies = Policies(resolve: string -> Option<string>, allows: string -> bool)

  // ----------------------------------------------------------------- one edit

  function FormatOf(content: seq<Byte>): Format { Decoding(content).format }

  function LogicalOf(content: seq<Byte>): Result<string> {
    match Decoding(content)
    case Decoded(text, _) => Ok(Logical(text))
    case Undecodable(_) => Refused(UnsupportedEncoding)
  }

  /** The exact-bytes contract, checked before the operation itself. */
  function ExactRefused(e: FileEdit): bool {
    match e.exact
    case NoExact => e.policy != PreservePolicy
    case BadExact => true
    case ExactBytes(_) =>
      || (e.operation == Update && e.base.None?)
      || e.policy != ExactPolicy || e.expected.None? || (e.operation != Create && e.operation != Update)
      || e.content != "" || e.replacements != [] || e.range.Some?
  }

  function ReplacementCode(code: Replacements.Code): Code {
    match code
    case InvalidInput => Code.InvalidInput
    case MatchNotFound => Code.MatchNotFound
    case MatchAmbiguous => Code.MatchAmbiguous
  }

  /** The first replacement whose match is empty, missing or ambiguous. */
  function FirstRefused(s: string, reps: seq<Replacements.Replacement>): (i: nat)
    requires !Replacements.AllUnique(s, reps)
    ensures i < |reps| && !Replacements.Unique(s, reps[i])
    ensures forall k | 0 <= k < i :: Replacements.Unique(s, reps[k])
  {
    if reps != [] && Replacements.Unique(s, reps[0]) then
      assert forall k | 0 < k < |reps| :: reps[k] == reps[1..][k - 1];
      1 + FirstRefused(s, reps[1..])
    else 0
  }

  function ReplacedText(logical: string, reps: seq<Replacements.Replacement>): Result<string> {
    if !Replacements.AllUnique(logical, reps) then
      Refused(ReplacementCode(Replacements.Refusal(logical, reps[FirstRefused(logical, reps)])))
    else if !Replacements.Disjoint(Replacements.HitsOf(logical, reps)) then Refused(InvalidInput)
    else
      Replacements.HitsAreWithin(logical, reps);
      Ok(Replacements.Substituted(logical, Replacements.HitsOf(logical, reps), 0))
  }

  function RangedText(logical: string, r: Range): Result<string> {
    if r.startLine < 1 || r.endLine < r.startLine then Refused(InvalidInput)
    else if r.endLine > LineRanges.LineTotal(logical) then Refused(RangeOutOfBounds)
    else Ok(LineRanges.Replaced(logical, r.startLine, r.endLine, r.replacement))
  }

  /** The edited logical text of an update. */
  function UpdatedText(logical: string, e: FileEdit): Result<string> {
    if e.range.Some? then
      if e.replacements != [] || !IsBlank(e.content) || e.base.None? then Refused(InvalidInput)
      else RangedText(logical, e.range.value)
    else if e.replacements != [] then
      if !IsBlank(e.content) then Refused(InvalidInput) else ReplacedText(logical, e.replacements)
    else Ok(StripMark(Logical(e.content)))
  }

  predicate BaseMatches(content: seq<Byte>, base: Option<Digest>) { base.None? || base.value == Digest(content) }

  ghost function Changed(oldText: string, newText: string): nat { UnifiedDiff.ChangeCount(Logical(oldText), Logical(newText)) }

  /** The format a created file is written in. */
  function CreateFormat(content: string): Format {
    var format := FormatOf(EncodeUtf8(content));
    if format.mix == Mixed then format.(mix := OnlyLf) else format
  }

  ghost function PlanCreate(fs: Files, e: FileEdit, abs: string): Result<Prepared> {
    if abs in fs then Refused(TargetExists)
    else if e.replacements != [] || e.range.Some? then Refused(InvalidInput)
    else if e.exact.ExactBytes? then
      var logical := LogicalOf(e.exact.bytes);
      if logical.Refused? then Refused(logical.code)
      else Ok(Prepared(e, abs, "", [], e.exact.bytes, Changed("", logical.value)))
    else
      var logical := StripMark(Logical(e.content));
      Ok(Prepared(e, abs, "", [], EncodeWithFormat(logical, CreateFormat(e.content)), Changed("", logical)))
  }

  ghost function PlanUpdate(fs: Files, e: FileEdit, abs: string): Result<Prepared> {
    if abs !in fs then Refused(NotFound)
    else if !BaseMatches(fs[abs], e.base) then Refused(StaleRevision)
    else
      var original := fs[abs];
      var logical := LogicalOf(original);
      if logical.Refused? then Refused(logical.code)
      else
        var edited := UpdatedText(logical.value, e);
        if edited.Refused? then Refused(edited.code)
        else if e.exact.ExactBytes? then
          var exact := LogicalOf(e.exact.bytes);
          if exact.Refused? then Refused(exact.code)
          else Ok(Prepared(e, abs, "", original, e.exact.bytes, Changed(logical.value, exact.value)))
        else
          DecodedIsMarked(original);
          var format := FormatOf(original);
          Ok(Prepared(e, abs, "", original, Marked(WrittenBody(edited.value, format, original), format.charset, format.bom),
                      Changed(logical.value, edited.value)))
  }

  ghost function PlanDelete(fs: Files, e: FileEdit, abs: string): Result<Prepared> {
    if abs !in fs then Refused(NotFound)
    else if !BaseMatches(fs[abs], e.base) then Refused(StaleRevision)
    else
      var logical := LogicalOf(fs[abs]);
      if logical.Refused? then Refused(logical.code)
      else Ok(Prepared(e, abs, "", fs[abs], [], Changed(logical.value, "")))
  }

  function PlanRename(fs: Files, e: FileEdit, abs: string, absNew: string): Result<Prepared> {
    if absNew in fs then Refused(TargetExists)
    else if abs !in fs then Refused(NotFound)
    else if !BaseMatches(fs[abs], e.base) then Refused(StaleRevision)
    else Ok(Prepared(e, abs, absNew, fs[abs], fs[abs], 0))
  }

  predicate FormatMatches(content: seq<Byte>, expected: Expected) {
    var actual := FormatOf(content);
    expected.charset == Some(actual.charset) && expected.bom == Some(actual.bom) && expected.mix == Some(actual.mix)
  }

  /** The physical target of a rename. */
  function RenameTarget(policies: Policies, e: FileEdit): Result<string> {
    if IsBlank(e.newPath) then Refused(InvalidInput)
    else
      match policies.resolve(TrimSpace(e.newPath))
      case None => Refused(InvalidPath)
      case Some(absNew) => Ok(absNew)
  }

  ghost function PlanOperation(fs: Files, e: FileEdit, abs: string, absNew: string): Result<Prepared> {
    match e.operation
    case Create => PlanCreate(fs, e, abs)
    case Update => PlanUpdate(fs, e, abs)
    case Delete => PlanDelete(fs, e, abs)
    case Rename => PlanRename(fs, e, abs, absNew)
    case Unknown => Refused(Unsupported)
  }

  /** One edit, given the physical paths that earlier edits of the batch use. */
  ghost function Plan(fs: Files, policies: Policies, e: FileEdit, taken: set<string>): Result<Prepared> {
    if IsBlank(e.path) then Refused(InvalidInput)
    else if policies.resolve(TrimSpace(e.path)).None? then Refused(InvalidPath)
    else
      var abs := policies.resolve(TrimSpace(e.path)).value;
      if abs in taken then Refused(InvalidInput)
      else if !policies.allows(abs) then Refused(Denied)
      else if ExactRefused(e) then Refused(InvalidInput)
      else if e.operation == Rename then
        var target := RenameTarget(policies, e);
        if target.Refused? then Refused(target.code)
        else if target.value in taken || target.value == abs then Refused(InvalidInput)
        else if !policies.allows(target.value) then Refused(Denied)
        else Checked(PlanOperation(fs, e, abs, target.value))
      else Checked(PlanOperation(fs, e, abs, ""))
  }

  /** The last check on a planned edit: the format the caller expects. */
  function Checked(r: Result<Prepared>): Result<Prepared> {
    if r.Refused? then r
    else
      var p := r.value;
      if p.edit.expected.Some? && (p.edit.operation == Delete || !FormatMatches(p.proposed, p.edit.expected.value)) then
        Refused(FormatMismatch)
      else r
  }

  // ---------------------------------------------------------------- the methods

  method NormalizeToLogical(content: seq<Byte>) returns (logical: Result<string>, format: Format)
    ensures logical == LogicalOf(content) && format == FormatOf(content)
  {
    var decoded := DecodeText(content);
    format := decoded.format;
    if decoded.Undecodable? {
      return Refused(UnsupportedEncoding), format;
    }
    NormalizeIsLogical(decoded.text);
    logical := Ok(Normalize(decoded.text));
  }

  method ApplyUpdate(logical: string, e: FileEdit) returns (edited: Result<string>)
    ensures edited == UpdatedText(logical, e)
  {
    hide Replacements.Substituted, Replacements.Disjoint, Replacements.Unique, LineRanges.Replaced;
    TrimmedAwayWhenBlank(e.content);
    if e.range.Some? {
      if |e.replacements| > 0 || TrimSpace(e.content) != "" {
        return Refused(InvalidInput);
      }
      if e.base.None? {
        return Refused(InvalidInput);
      }
      var r := e.range.value;
      var outcome := LineRanges.ApplyLineRange(logical, r.startLine, r.endLine, r.replacement);
      match outcome {
        case Edited(text) => return Ok(text);
        case InvalidRange => return Refused(InvalidInput);
        case OutOfBounds(_) => return Refused(RangeOutOfBounds);
      }
    }
    if |e.replacements| > 0 {
      if TrimSpace(e.content) != "" {
        return Refused(InvalidInput);
      }
      var outcome := Replacements.ApplyReplacements(logical, e.replacements);
      match outcome {
        case Edited(text) => return Ok(text);
        case Rejected(code, index) =>
          if !Replacements.AllUnique(logical, e.replacements) {
            assert index == FirstRefused(logical, e.replacements);
          }
          return Refused(ReplacementCode(code));
      }
    }
    NormalizeIsLogical(e.content);
    edited := Ok(StripMark(Normalize(e.content)));
  }

  method CountChanged(path: string, oldText: string, newText: string) returns (changed: nat)
    ensures changed == Changed(oldText, newText)
  {
    var _, count, _, _ := UnifiedDiff.UnifiedDiff(path, oldText, newText);
    changed := count;
  }

  method PrepareCreate(fs: Files, e: FileEdit, abs: string) returns (r: Result<Prepared>)
    ensures r == PlanCreate(fs, e, abs)
  {
    hide Changed, Decoding, EncodeWithFormat, Normalize, Logical;
    if abs in fs {
      return Refused(TargetExists);
    }
    if |e.replacements| > 0 || e.range.Some? {
      return Refused(InvalidInput);
    }
    NormalizeIsLogical(e.content);
    var logical := StripMark(Normalize(e.content));
    var format := FormatOf(EncodeUtf8(e.content));
    if format.mix == Mixed {
      format := format.(mix := OnlyLf);
    }
    var changed := CountChanged(e.path, "", logical);
    var proposed := EncodeWithFormat(logical, format);
    if e.exact.ExactBytes? {
      proposed := e.exact.bytes;
      var exact, _ := NormalizeToLogical(proposed);
      if exact.Refused? {
        return Refused(exact.code);
      }
      changed := CountChanged(e.path, "", exact.value);
    }
    r := Ok(Prepared(e, abs, "", [], proposed, changed));
  }

  method PrepareUpdate(fs: Files, e: FileEdit, abs: string) returns (r: Result<Prepared>)
    ensures r == PlanUpdate(fs, e, abs)
  {
    hide Changed, Decoding, Marked, WrittenBody, UpdatedText, Logical;
    if abs !in fs {
      return Refused(NotFound);
    }
    var original := fs[abs];
    if !BaseMatches(original, e.base) {
      return Refused(StaleRevision);
    }
    var logical, format := NormalizeToLogical(original);
    if logical.Refused? {
      return Refused(logical.code);
    }
    var edited := ApplyUpdate(logical.value, e);
    if edited.Refused? {
      return Refused(edited.code);
    }
    var changed := CountChanged(e.path, logical.value, edited.value);
    DecodedIsMarked(original);
    var proposed := EncodeWithOriginalFormat(edited.value, format, original);
    if e.exact.ExactBytes? {
      proposed := e.exact.bytes;
      var exact, _ := NormalizeToLogical(proposed);
      if exact.Refused? {
        return Refused(exact.code);
      }
      changed := CountChanged(e.path, logical.value, exact.value);
    }
    r := Ok(Prepared(e, abs, "", original, proposed, changed));
  }

  method PrepareDelete(fs: Files, e: FileEdit, abs: string) returns (r: Result<Prepared>)
    ensures r == PlanDelete(fs, e, abs)
  {
    hide Changed, Decoding, Logical;
    if abs !in fs {
      return Refused(NotFound);
    }
    var original := fs[abs];
    if !BaseMatches(original, e.base) {
      return Refused(StaleRevision);
    }
    var logical, _ := NormalizeToLogical(original);
    if logical.Refused? {
      return Refused(logical.code);
    }
    var changed := CountChanged(e.path, logical.value, "");
    r := Ok(Prepared(e, abs, "", original, [], changed));
  }

  /** Check and compute one edit, and record the physical paths it uses. */
  method PrepareOne(fs: Files, policies: Policies, e: FileEdit, taken0: set<string>)
    returns (r: Result<Prepared>, taken: set<string>)
    ensures r == Plan(fs, policies, e, taken0)
    ensures r.Ok? ==> taken == taken0 + Uses(r.value)
  {
    hide PlanCreate, PlanUpdate, PlanDelete, FormatMatches, TrimSpace, IsBlank;
    taken := taken0;
    TrimmedAwayWhenBlank(e.path);
    TrimmedAwayWhenBlank(e.newPath);
    var path := TrimSpace(e.path);
    if path == "" {
      return Refused(InvalidInput), taken;
    }
    var resolved := policies.resolve(path);
    if resolved.None? {
      return Refused(InvalidPath), taken;
    }
    var abs := resolved.value;
    if abs in taken {
      return Refused(InvalidInput), taken;
    }
    if !policies.allows(abs) {
      return Refused(Denied), taken;
    }
    taken := taken + {abs};
    if ExactRefused(e) {
      return Refused(InvalidInput), taken;
    }
    PlansKeepTheEdit(fs, e, abs);
    match e.operation {
      case Create => r := PrepareCreate(fs, e, abs);
      case Update => r := PrepareUpdate(fs, e, abs);
      case Delete => r := PrepareDelete(fs, e, abs);
      case Rename =>
        var newPath := TrimSpace(e.newPath);
        if newPath == "" {
          return Refused(InvalidInput), taken;
        }
        var target := policies.resolve(newPath);
        if target.None? {
          return Refused(InvalidPath), taken;
        }
        var absNew := target.value;
        if absNew in taken {
          return Refused(InvalidInput), taken;
        }
        taken := taken + {absNew};
        if !policies.allows(absNew) {
          return Refused(Denied), taken;
        }
        r := PlanRename(fs, e, abs, absNew);
      case Unknown => r := Refused(Unsupported);
    }
    r := Checked(r);
  }

  /** The physical paths of a planned edit. */
  function Uses(p: Prepared): set<string> {
    {p.absPath} + if p.edit.operation == Rename then {p.absNew} else {}
  }

  lemma PlansKeepTheEdit(fs: Files, e: FileEdit, abs: string)
    ensures var r := PlanCreate(fs, e, abs); r.Ok? ==> r.value.edit == e && r.value.absPath == abs
    ensures var r := PlanUpdate(fs, e, abs); r.Ok? ==> r.value.edit == e && r.value.absPath == abs
    ensures var r := PlanDelete(fs, e, abs); r.Ok? ==> r.value.edit == e && r.value.absPath == abs
  {
  }
}

/**
 Writing a planned batch: the second check, the writes, and the read-back.
 */
module BatchCommit {
  import opened OperationCore
  import opened Unicode
  import opened TextFormat
  import opened BatchPlan
  import opened Batch
  import opened BatchLaws
  import Replacements
  import Text

  // ------------------------------------------------------------ the second check

  /** What may have changed under a planned edit since it was planned. */
  function Recheck(fs: Files, policies: Policies, p: Prepared): Option<Code> {
    if policies.resolve(p.edit.path) != Some(p.absPath) then Some(StaleRevision)
    else if p.edit.operation == Create && p.absPath in fs then Some(TargetExists)
    else if p.edit.operation != Create && p.absPath !in fs then Some(StaleRevision)
    else if p.edit.operation != Create && Digest(fs[p.absPath]) != Digest(p.original) then Some(StaleRevision)
    else if !policies.allows(p.absPath) then Some(Denied)
    else if p.edit.operation == Rename && policies.resolve(p.edit.newPath) != Some(p.absNew) then Some(StaleRevision)
    else if p.edit.operation == Rename && p.absNew in fs then Some(TargetExists)
    else if p.edit.operation == Rename && !policies.allows(p.absNew) then Some(Denied)
    else None
  }

  function FirstFault(fs: Files, policies: Policies, plans: seq<Prepared>): Option<Code> {
    if plans == [] then None
    else
      var fault := Recheck(fs, policies, plans[0]);
      if fault.Some? then fault else FirstFault(fs, policies, plans[1..])
  }

  method RecheckAll(fs: Files, policies: Policies, plans: seq<Prepared>) returns (fault: Option<Code>)
    ensures fault == FirstFault(fs, policies, plans)
  {
    assert plans[0..] == plans;
    for i := 0 to |plans|
      invariant FirstFault(fs, policies, plans[i..]) == FirstFault(fs, policies, plans)
    {
      assert plans[i..][1..] == plans[i + 1..];
      fault := Recheck(fs, policies, plans[i]);
      if fault.Some? {
        return;
      }
    }
    fault := None;
  }

  // -------------------------------------------------------- one simultaneous update

  /** What a planned edit leaves at a path it uses; nothing means the path is gone. */
  function Left(p: Prepared, path: string): Option<seq<Byte>> {
    match p.edit.operation
    case Delete => None
    case Rename => if path == p.absNew then Some(p.original) else None
    case _ => Some(p.proposed)
  }

  /** The planned edit that uses a path. */
  function UserOf(plans: seq<Prepared>, path: string): Option<Prepared> {
    if plans == [] then None
    else if path in Uses(plans[0]) then Some(plans[0])
    else UserOf(plans[1..], path)
  }

  /** A path after all planned edits at once. */
  function After(fs: Files, plans: seq<Prepared>, path: string): Option<seq<Byte>> {
    var user := UserOf(plans, path);
    if user.Some? then Left(user.value, path)
    else if path in fs then Some(fs[path])
    else None
  }

  /** These files are what the planned edits make of the others, path by path. */
  ghost predicate Updated(before: Files, plans: seq<Prepared>, after: Files) {
    forall path: string ::
      (path in after <==> After(before, plans, path).Some?)
      && (path in after ==> after[path] == After(before, plans, path).value)
  }

  /** One write, as the file system performs it. */
  function Written(fs: Files, p: Prepared): Files {
    match p.edit.operation
    case Delete => fs - {p.absPath}
    case Rename => if p.absPath in fs then (fs - {p.absPath})[p.absNew := fs[p.absPath]] else fs
    case _ => fs[p.absPath := p.proposed]
  }

  /** A rename still finds the planned content at its source. */
  predicate Present(fs: Files, p: Prepared) {
    p.edit.operation == Rename ==> p.absPath in fs && fs[p.absPath] == p.original
  }

  lemma {:induction false} UserUses(plans: seq<Prepared>, path: string)
    ensures UserOf(plans, path).Some? ==>
      exists i :: 0 <= i < |plans| && plans[i] == UserOf(plans, path).value && path in Uses(plans[i])
    ensures UserOf(plans, path).None? ==> forall i | 0 <= i < |plans| :: path !in Uses(plans[i])
  {
    if plans != [] && path !in Uses(plans[0]) {
      UserUses(plans[1..], path);
      assert forall i | 0 < i < |plans| :: plans[i] == plans[1..][i - 1];
      if UserOf(plans, path).Some? {
        var i :| 0 <= i < |plans| - 1 && plans[1..][i] == UserOf(plans, path).value && path in Uses(plans[1..][i]);
        assert plans[i + 1] == UserOf(plans, path).value;
      }
    }
  }

  /** Among separate edits the user of a path is the only one. */
  lemma OnlyUser(plans: seq<Prepared>, path: string, i: nat)
    requires Separate(plans) && i < |plans| && path in Uses(plans[i])
    ensures UserOf(plans, path) == Some(plans[i])
  {
    hide Uses;
    UserUses(plans, path);
  }

  lemma {:induction false} UserAppends(plans: seq<Prepared>, p: Prepared, path: string)
    ensures UserOf(plans + [p], path) ==
      if UserOf(plans, path).Some? then UserOf(plans, path) else if path in Uses(p) then Some(p) else None
  {
    hide Uses;
    if plans == [] {
      assert plans + [p] == [p] && [p][1..] == [];
    } else {
      assert (plans + [p])[0] == plans[0] && (plans + [p])[1..] == plans[1..] + [p];
      if path !in Uses(plans[0]) { UserAppends(plans[1..], p, path); }
    }
  }

  /** Writing one more separate edit extends the simultaneous update by it. */
  lemma WrittenExtends(before: Files, plans: seq<Prepared>, fs: Files, p: Prepared)
    requires Updated(before, plans, fs) && Present(before, p)
    requires forall i | 0 <= i < |plans| :: Uses(plans[i]) !! Uses(p)
    requires p.edit.operation == Rename ==> p.absNew !in before && p.absNew != p.absPath
    ensures Updated(before, plans + [p], Written(fs, p))
  {
    var fs' := Written(fs, p);
    forall path: string
      ensures path in fs' <==> After(before, plans + [p], path).Some?
      ensures path in fs' ==> fs'[path] == After(before, plans + [p], path).value
    {
      UserUses(plans, path);
      UserAppends(plans, p, path);
      UserUses(plans, p.absPath);
      assert path in fs <==> After(before, plans, path).Some?;
      assert p.absPath in fs <==> After(before, plans, p.absPath).Some?;
    }
  }

  lemma NothingWritten(fs: Files)
    ensures Updated(fs, [], fs)
  {
  }

  /** The result does not depend on the order of the edits. */
  lemma UpdateIgnoresOrder(before: Files, plans: seq<Prepared>, other: seq<Prepared>, after: Files)
    requires Separate(plans) && Separate(other) && multiset(plans) == multiset(other)
    requires Updated(before, plans, after)
    ensures Updated(before, other, after)
  {
    hide Uses, Separate, Left;
    forall path: string ensures UserOf(plans, path) == UserOf(other, path) {
      SameUser(plans, other, path);
    }
  }

  lemma SameUser(plans: seq<Prepared>, other: seq<Prepared>, path: string)
    requires Separate(plans) && Separate(other) && multiset(plans) == multiset(other)
    ensures UserOf(plans, path) == UserOf(other, path)
  {
    UserFollows(plans, other, path);
    UserFollows(other, plans, path);
  }

  lemma UserFollows(plans: seq<Prepared>, other: seq<Prepared>, path: string)
    requires Separate(other) && multiset(plans) == multiset(other)
    ensures UserOf(plans, path).Some? ==> UserOf(other, path) == UserOf(plans, path)
  {
    hide Uses, Separate;
    UserUses(plans, path);
    if UserOf(plans, path).Some? {
      var p := UserOf(plans, path).value;
      assert p in multiset(plans) && p in multiset(other);
      var i :| 0 <= i < |other| && other[i] == p;
      OnlyUser(other, path, i);
    }
  }

  /** Where a planned edit leaves its content, and what that is. */
  function Target(p: Prepared): string { if p.edit.operation == Rename then p.absNew else p.absPath }

  /** After the update every target holds exactly the planned bytes. */
  lemma TargetsHoldPlannedBytes(before: Files, plans: seq<Prepared>, after: Files, i: nat)
    requires Updated(before, plans, after) && Separate(plans) && i < |plans|
    requires plans[i].edit.operation == Rename ==> plans[i].proposed == plans[i].original
    ensures plans[i].edit.operation == Delete ==> plans[i].absPath !in after
    ensures plans[i].edit.operation != Delete ==> Target(plans[i]) in after && after[Target(plans[i])] == plans[i].proposed
  {
    OnlyUser(plans, Target(plans[i]), i);
    OnlyUser(plans, plans[i].absPath, i);
  }

  // ----------------------------------------------------------------- the operation

  /** A planned rename moves the content it read to another path. */
  predicate Renamable(p: Prepared) { p.edit.operation == Rename ==> p.absNew != p.absPath && p.proposed == p.original }

  lemma PlanIsPlanned(fs: Files, policies: Policies, e: FileEdit, p: Prepared)
    requires Plan(fs, policies, e, {}) == Ok(p)
    ensures Renamable(p)
  {
    hide PlanCreate, PlanUpdate, PlanDelete, FormatMatches;
    PlansKeepTheEdit(fs, e, policies.resolve(Text.TrimSpace(e.path)).value);
  }

  lemma AllPlanned(fs: Files, policies: Policies, edits: seq<FileEdit>, plans: seq<Prepared>)
    requires PlanAll(fs, policies, edits, {}, 0) == Ok(plans)
    ensures Separate(plans) && TotalChanged(plans) <= MAX_CHANGED_LINES
    ensures forall i | 0 <= i < |plans| :: Renamable(plans[i])
  {
    hide Plan, Renamable, Uses;
    AcceptedExactlyWhen(fs, policies, edits, plans);
    forall i | 0 <= i < |plans| ensures Renamable(plans[i]) { PlanIsPlanned(fs, policies, edits[i], plans[i]); }
  }

  /** A plan without a fault still finds its source, and its new name is free. */
  lemma {:induction false} NoFaultMeansPresent(fs: Files, policies: Policies, plans: seq<Prepared>, i: nat)
    requires FirstFault(fs, policies, plans) == None && i < |plans|
    ensures Present(fs, plans[i])
    ensures policies.resolve(plans[i].edit.path) == Some(plans[i].absPath) && policies.allows(plans[i].absPath)
    ensures plans[i].edit.operation == Rename ==>
      policies.resolve(plans[i].edit.newPath) == Some(plans[i].absNew) && policies.allows(plans[i].absNew)
    ensures plans[i].edit.operation == Rename ==> plans[i].absNew !in fs
    ensures plans[i].edit.operation == Create ==> plans[i].absPath !in fs
    ensures plans[i].edit.operation != Create ==> plans[i].absPath in fs && fs[plans[i].absPath] == plans[i].original
  {
    if i > 0 { NoFaultMeansPresent(fs, policies, plans[1..], i - 1); }
  }

  /** One planned edit, done: its file was there as planned, and its target holds what was asked for. */
  lemma EditIsDone(fs: Files, policies: Policies, later: Policies, edits: seq<FileEdit>, plans: seq<Prepared>,
                   before: Files, after: Files, i: nat)
    requires EachPlanned(fs, policies, edits, plans) && Separate(plans) && i < |edits|
    requires FirstFault(before, later, plans) == None && Updated(before, plans, after)
    ensures CarriedOut(before, after, policies, edits[i])
  {
    hide Plan, PlanFits, Updated, Separate, FirstFault, Uses;
    var e, p := edits[i], plans[i];
    PlannedFits(fs, policies, e, p);
    NoFaultMeansPresent(before, later, plans, i);
    PlanIsPlanned(fs, policies, e, p);
    PlanKeepsEdit(fs, policies, e, p);
    SourceIsGone(before, plans, after, i);
    TargetsHoldPlannedBytes(before, plans, after, i);
    FitIsDone(fs, before, after, policies, e, p);
    assert DoneAt(before, after, policies, e, p.absPath, p.absNew);
  }

  lemma PlanKeepsEdit(fs: Files, policies: Policies, e: FileEdit, p: Prepared)
    requires PlanFits(fs, policies, e, p)
    ensures p.edit == e
  {
  }

  /** Just before the writes every path still leads to an allowed place. */
  predicate StillAllowed(policies: Policies, e: FileEdit) {
    && (match policies.resolve(e.path) case None => false case Some(path) => policies.allows(path))
    && (e.operation == Rename ==> match policies.resolve(e.newPath) case None => false case Some(path) => policies.allows(path))
  }

  lemma AllStillAllowed(fs: Files, policies: Policies, later: Policies, edits: seq<FileEdit>, plans: seq<Prepared>, now: Files)
    requires PlanAll(fs, policies, edits, {}, 0) == Ok(plans) && FirstFault(now, later, plans) == None
    ensures forall i | 0 <= i < |edits| :: StillAllowed(later, edits[i])
  {
    hide Plan, PlanFits, Separate, FirstFault, EachPlanned, Uses;
    AcceptedExactlyWhen(fs, policies, edits, plans);
    forall i | 0 <= i < |edits| ensures StillAllowed(later, edits[i]) {
      assert |plans| == |edits| && Plan(fs, policies, edits[i], {}) == Ok(plans[i]) by { EachAt(fs, policies, edits, plans, i); }
      PlannedFits(fs, policies, edits[i], plans[i]);
      PlanKeepsEdit(fs, policies, edits[i], plans[i]);
      NoFaultMeansPresent(now, later, plans, i);
    }
  }

  lemma EachAt(fs: Files, policies: Policies, edits: seq<FileEdit>, plans: seq<Prepared>, i: nat)
    requires EachPlanned(fs, policies, edits, plans) && i < |edits|
    ensures |plans| == |edits| && Plan(fs, policies, edits[i], {}) == Ok(plans[i])
  {
  }

  /** Why the second check refuses: the reason that each code gives, for one of the planned edits. */
  predicate FaultReason(fs: Files, policies: Policies, p: Prepared, code: Code) {
    var (e, moved) := (p.edit, p.edit.operation == Rename);
    match code
    case StaleRevision =>
      || policies.resolve(e.path) != Some(p.absPath) || (moved && policies.resolve(e.newPath) != Some(p.absNew))
      || (e.operation != Create && (p.absPath !in fs || fs[p.absPath] != p.original))
    case TargetExists => (e.operation == Create && p.absPath in fs) || (moved && p.absNew in fs)
    case Denied => !policies.allows(p.absPath) || (moved && !policies.allows(p.absNew))
    case _ => false
  }

  lemma {:induction false} FaultHasItsReason(fs: Files, policies: Policies, plans: seq<Prepared>)
    requires FirstFault(fs, policies, plans).Some?
    ensures exists i :: 0 <= i < |plans| && FaultReason(fs, policies, plans[i], FirstFault(fs, policies, plans).value)
  {
    if Recheck(fs, policies, plans[0]).Some? {
      assert FaultReason(fs, policies, plans[0], Recheck(fs, policies, plans[0]).value);
    } else {
      FaultHasItsReason(fs, policies, plans[1..]);
      var i :| 0 <= i < |plans| - 1 && FaultReason(fs, policies, plans[1..][i], FirstFault(fs, policies, plans).value);
      assert plans[1..][i] == plans[i + 1];
    }
  }

  /** A renamed file is no longer under its old path. */
  lemma SourceIsGone(before: Files, plans: seq<Prepared>, after: Files, i: nat)
    requires Updated(before, plans, after) && Separate(plans) && i < |plans| && Renamable(plans[i])
    ensures plans[i].edit.operation == Rename ==> plans[i].absPath !in after
  {
    hide Separate;
    OnlyUser(plans, plans[i].absPath, i);
  }

  lemma FitIsDone(fs: Files, before: Files, after: Files, policies: Policies, e: FileEdit, p: Prepared)
    requires PlanFits(fs, policies, e, p)
    requires e.operation == Create ==> p.absPath !in before
    requires e.operation != Create ==> p.absPath in before && before[p.absPath] == p.original
    requires e.operation == Rename ==> p.absNew !in before && p.absPath !in after
    requires e.operation == Delete ==> p.absPath !in after
    requires e.operation != Delete ==> Target(p) in after && after[Target(p)] == p.proposed
    ensures DoneAt(before, after, policies, e, p.absPath, p.absNew)
  {
    if e.operation == Update { assert UpdatedBy(p.original, e, p.proposed, p.changed); }
    hide Created, CreatedLines, UpdatedBy, AsExpected, ExactContract, Text.TrimSpace, Text.IsBlank, Decoding;
  }

  /** A path that no edit names is no plan's. */
  lemma UnnamedIsUntouched(fs: Files, policies: Policies, edits: seq<FileEdit>, plans: seq<Prepared>,
                           before: Files, after: Files, path: string)
    requires EachPlanned(fs, policies, edits, plans) && Updated(before, plans, after) && Unnamed(policies, edits, path)
    ensures path in after <==> path in before
    ensures path in before ==> after[path] == before[path]
  {
    hide Plan, PlanFits, Text.TrimSpace;
    forall i | 0 <= i < |plans| ensures path !in Uses(plans[i]) {
      PlannedFits(fs, policies, edits[i], plans[i]);
      UsesAreNamed(fs, policies, edits[i], plans[i]);
    }
    UserUses(plans, path);
  }

  lemma UsesAreNamed(fs: Files, policies: Policies, e: FileEdit, p: Prepared)
    requires PlanFits(fs, policies, e, p)
    ensures forall path | path in Uses(p) ::
      policies.resolve(Text.TrimSpace(e.path)) == Some(path)
      || (e.operation == Rename && policies.resolve(Text.TrimSpace(e.newPath)) == Some(path))
  {
  }

  /** A batch that passed its second check and was written is committed as asked. */
  lemma BatchIsCommitted(fs: Files, policies: Policies, later: Policies, edits: seq<FileEdit>, plans: seq<Prepared>,
                         before: Files, after: Files)
    requires PlanAll(fs, policies, edits, {}, 0) == Ok(plans)
    requires FirstFault(before, later, plans) == None && Updated(before, plans, after)
    ensures Committed(before, after, policies, edits)
  {
    hide Plan, Updated, Separate, FirstFault, EachPlanned, CarriedOut, Unnamed;
    AcceptedExactlyWhen(fs, policies, edits, plans);
    forall i | 0 <= i < |edits| ensures CarriedOut(before, after, policies, edits[i]) {
      EditIsDone(fs, policies, later, edits, plans, before, after, i);
    }
    forall path | Unnamed(policies, edits, path)
      ensures (path in after <==> path in before) && (path in before ==> after[path] == before[path])
    {
      UnnamedIsUntouched(fs, policies, edits, plans, before, after, path);
    }
  }

  class Workspace {
    var fs: Files

    constructor (files: Files)
      ensures fs == files
    {
      fs := files;
    }

    /** One write, rename or removal. */
    method Write(p: Prepared)
      modifies this
      ensures fs == Written(old(fs), p)
    {
      match p.edit.operation {
        case Delete => fs := fs - {p.absPath};
        case Rename =>
          if p.absPath in fs {
            var content := fs[p.absPath];
            fs := fs - {p.absPath};
            fs := fs[p.absNew := content];
          }
        case _ => fs := fs[p.absPath := p.proposed];
      }
    }

    /** The write loop makes the simultaneous update of everything planned. */
    method WriteAll(plans: seq<Prepared>)
      requires Separate(plans) && forall i | 0 <= i < |plans| :: Renamable(plans[i]) && Present(fs, plans[i])
      requires forall i | 0 <= i < |plans| && plans[i].edit.operation == Rename :: plans[i].absNew !in fs
      modifies this
      ensures Updated(old(fs), plans, fs)
    {
      hide Updated, Uses, Written, Present;
      ghost var before := fs;
      NothingWritten(fs);
      assert plans[..0] == [];
      for i := 0 to |plans|
        invariant Updated(before, plans[..i], fs)
      {
        ghost var was := fs;
        Write(plans[i]);
        assert forall k | 0 <= k < i :: plans[..i][k] == plans[k];
        WrittenExtends(before, plans[..i], was, plans[i]);
        assert plans[..i + 1] == plans[..i] + [plans[i]];
      }
      assert plans[..|plans|] == plans;
    }

    /** Every target is read back and compared with the planned hash. */
    method ReadBack(plans: seq<Prepared>) returns (matches: bool)
      ensures matches <==> forall i | 0 <= i < |plans| && plans[i].edit.operation != Delete ::
        Target(plans[i]) in fs && Digest(fs[Target(plans[i])]) == Digest(plans[i].proposed)
    {
      for i := 0 to |plans|
        invariant forall k | 0 <= k < i && plans[k].edit.operation != Delete ::
          Target(plans[k]) in fs && Digest(fs[Target(plans[k])]) == Digest(plans[k].proposed)
      {
        var p := plans[i];
        if p.edit.operation == Delete {
          continue;
        }
        var path := if p.edit.operation == Rename then p.absNew else p.absPath;
        assert path == Target(p);
        if path !in fs || Digest(fs[path]) != Digest(p.proposed) {
          return false;
        }
      }
      matches := true;
    }

    /**
     The whole batch.  `outside` and `later` are the files and the policies as the
     pre-write hook and other writers leave them; nobody else writes after that.
     */
    method ApplyBatch(edits: seq<FileEdit>, policies: Policies, dryRun: bool,
                      hookFails: bool, outside: Files, later: Policies)
      returns (result: Result<seq<Prepared>>)
      modifies this
      ensures var plan := PlanAll(old(fs), policies, edits, {}, 0);
        && (edits == [] ==> result == Refused(InvalidInput) && fs == old(fs))
        && (edits != [] && plan.Refused? ==> result == plan && fs == old(fs))
        && (edits != [] && plan.Ok? && dryRun ==> result == plan && fs == old(fs))
        && (edits != [] && plan.Ok? && !dryRun && hookFails ==> result == Refused(HookFailed) && fs == outside)
      ensures edits != [] && PlanAll(old(fs), policies, edits, {}, 0).Ok? && !dryRun && !hookFails ==>
        var plans := PlanAll(old(fs), policies, edits, {}, 0).value;
        var fault := FirstFault(outside, later, plans);
        && (fault.Some? ==> result == Refused(fault.value) && fs == outside)
        && (fault.None? ==> result == Ok(plans) && Updated(outside, plans, fs) && Committed(outside, fs, policies, edits))
        && (fault.None? ==> forall i | 0 <= i < |edits| :: StillAllowed(later, edits[i]))
        && (fault.None? ==> TotalChanged(plans) <= 1000)
    {
      hide Plan, PlanAll, Separate, Updated, FirstFault, Renamable, Committed, StillAllowed;
      if edits == [] {
        return Refused(InvalidInput);
      }
      var plan, total := PrepareAll(fs, policies, edits);
      if plan.Refused? || dryRun {
        return plan;
      }
      fs := outside;
      if hookFails {
        return Refused(HookFailed);
      }
      var plans := plan.value;
      AllPlanned(old(fs), policies, edits, plans);
      var fault := RecheckAll(fs, later, plans);
      if fault.Some? {
        return Refused(fault.value);
      }
      forall i | 0 <= i < |plans|
        ensures Present(fs, plans[i]) && (plans[i].edit.operation == Rename ==> plans[i].absNew !in fs)
      {
        NoFaultMeansPresent(fs, later, plans, i);
      }
      AllStillAllowed(old(fs), policies, later, edits, plans, fs);
      WriteAll(plans);
      BatchIsCommitted(old(fs), policies, later, edits, plans, outside, fs);
      ReadBackMatches(outside, plans, fs);
      var matches := ReadBack(plans);
      if !matches {
        return Refused(ReadbackMismatch);
      }
      result := plan;
    }
  }

  /** Without another writer the read-back always matches. */
  lemma ReadBackMatches(before: Files, plans: seq<Prepared>, after: Files)
    requires Updated(before, plans, after) && Separate(plans) && forall i | 0 <= i < |plans| :: Renamable(plans[i])
    ensures forall i | 0 <= i < |plans| && plans[i].edit.operation != Delete ::
      Target(plans[i]) in after && Digest(after[Target(plans[i])]) == Digest(plans[i].proposed)
  {
    hide Updated, Separate, Uses;
    forall i | 0 <= i < |plans| && plans[i].edit.operation != Delete
      ensures Target(plans[i]) in after && Digest(after[Target(plans[i])]) == Digest(plans[i].proposed)
    {
      TargetsHoldPlannedBytes(before, plans, after, i);
    }
  }

  // ------------------------------------------------------------- any order

  lemma {:induction false} TotalSplits(a: seq<Prepared>, b: seq<Prepared>)
    ensures TotalChanged(a + b) == TotalChanged(a) + TotalChanged(b)
  {
    if a == [] {
      assert a + b == b;
    } else {
      assert (a + b)[1..] == a[1..] + b;
      TotalSplits(a[1..], b);
    }
  }

  /** Where the first edit stands in another order. */
  lemma FirstInOther(edits: seq<FileEdit>, other: seq<FileEdit>) returns (k: nat)
    requires edits != [] && multiset(edits) == multiset(other)
    ensures k < |other| && other[k] == edits[0] && multiset(edits[1..]) == multiset(other[..k] + other[k + 1..])
  {
    assert edits == [edits[0]] + edits[1..];
    assert edits[0] in multiset(other);
    k :| 0 <= k < |other| && other[k] == edits[0];
    assert other == other[..k] + ([other[k]] + other[k + 1..]);
    assert multiset(other[..k] + other[k + 1..]) == multiset(other) - multiset{edits[0]};
  }

  /** Edits in another order have the same plans in that order. */
  lemma {:induction false} PlansFollowEdits(fs: Files, policies: Policies, edits: seq<FileEdit>, plans: seq<Prepared>,
                                            other: seq<FileEdit>)
    returns (plans': seq<Prepared>)
    requires EachPlanned(fs, policies, edits, plans) && multiset(edits) == multiset(other)
    ensures EachPlanned(fs, policies, other, plans')
    ensures multiset(plans') == multiset(plans) && TotalChanged(plans') == TotalChanged(plans)
    decreases |edits|
  {
    hide Plan;
    if edits == [] {
      assert |other| == |multiset(other)| == |multiset(edits)|;
      plans' := [];
    } else {
      var k := FirstInOther(edits, other);
      EachTail(fs, policies, edits, plans);
      var rest := PlansFollowEdits(fs, policies, edits[1..], plans[1..], other[..k] + other[k + 1..]);
      plans' := rest[..k] + ([plans[0]] + rest[k..]);
      InsertedPlans(fs, policies, other, k, rest, plans[0]);
      assert rest == rest[..k] + rest[k..] && plans == [plans[0]] + plans[1..];
      TotalSplits(rest[..k], rest[k..]);
      TotalSplits(rest[..k], [plans[0]] + rest[k..]);
      TotalSplits([plans[0]], rest[k..]);
      TotalSplits([plans[0]], plans[1..]);
    }
  }

  lemma InsertedPlans(fs: Files, policies: Policies, other: seq<FileEdit>, k: nat, rest: seq<Prepared>, p: Prepared)
    requires k < |other| && Plan(fs, policies, other[k], {}) == Ok(p)
    requires EachPlanned(fs, policies, other[..k] + other[k + 1..], rest)
    ensures EachPlanned(fs, policies, other, rest[..k] + ([p] + rest[k..]))
  {
    hide Plan;
    var fewer, plans := other[..k] + other[k + 1..], rest[..k] + ([p] + rest[k..]);
    forall i | 0 <= i < |other| ensures Plan(fs, policies, other[i], {}) == Ok(plans[i]) {
      if i < k {
        assert fewer[i] == other[i] && plans[i] == rest[i];
      } else if i > k {
        assert fewer[i - 1] == other[i] && plans[i] == rest[i - 1];
      }
    }
  }

  /** Plans that use separate paths do so in any order: none of them occurs twice. */
  lemma SeparateInAnyOrder(plans: seq<Prepared>, other: seq<Prepared>)
    requires Separate(plans) && multiset(plans) == multiset(other)
    ensures Separate(other)
  {
    hide Uses;
    forall i, j | 0 <= i < j < |other| ensures Uses(other[i]) !! Uses(other[j]) {
      if other[i] == other[j] {
        Replacements.TwiceInMultiset(other, i, j);
        var k, l := Replacements.RepeatedInPermutation(plans, other[i]);
        assert Uses(plans[k]) !! Uses(plans[l]);
      } else {
        assert other[i] in multiset(plans) && other[j] in multiset(plans);
        var k :| 0 <= k < |plans| && plans[k] == other[i];
        var l :| 0 <= l < |plans| && plans[l] == other[j];
        assert k < l ==> Uses(plans[k]) !! Uses(plans[l]);
        assert l < k ==> Uses(plans[l]) !! Uses(plans[k]);
      }
    }
  }

  /** Any order of the same edits is accepted with the same plans, and makes the same files. */
  lemma BatchOrderDoesNotMatter(fs: Files, policies: Policies, edits: seq<FileEdit>, plans: seq<Prepared>,
                                other: seq<FileEdit>)
    returns (plans': seq<Prepared>)
    requires PlanAll(fs, policies, edits, {}, 0) == Ok(plans) && multiset(edits) == multiset(other)
    ensures PlanAll(fs, policies, other, {}, 0) == Ok(plans') && multiset(plans') == multiset(plans)
    ensures forall before, after :: Updated(before, plans, after) <==> Updated(before, plans', after)
  {
    hide Plan, Uses, Updated, EachPlanned, Separate;
    AcceptedExactlyWhen(fs, policies, edits, plans);
    plans' := PlansFollowEdits(fs, policies, edits, plans, other);
    SeparateInAnyOrder(plans, plans');
    AcceptedExactlyWhen(fs, policies, other, plans');
    forall before, after ensures Updated(before, plans, after) <==> Updated(before, plans', after) {
      if Updated(before, plans, after) { UpdateIgnoresOrder(before, plans, plans', after); }
      if Updated(before, plans', after) { UpdateIgnoresOrder(before, plans', plans, after); }
    }
  }

  // ------------------------------------------------------------- nothing disturbed

  /** The paths of an edit lead where they lead without the blanks around them. */
  predicate PathsAsTrimmed(policies: Policies, e: FileEdit) {
    && policies.resolve(e.path) == policies.resolve(Text.TrimSpace(e.path))
    && (e.operation == Rename ==> policies.resolve(e.newPath) == policies.resolve(Text.TrimSpace(e.newPath)))
  }

  /** What planning has already checked of one edit. */
  lemma PlannedPassesExactlyWhen(fs: Files, policies: Policies, e: FileEdit, p: Prepared)
    requires Plan(fs, policies, e, {}) == Ok(p)
    ensures Recheck(fs, policies, p) == None <==> PathsAsTrimmed(policies, e)
  {
    hide UpdatedText, LogicalOf, Changed, Decoding, FormatMatches, Marked, WrittenBody, EncodeWithFormat, CreateFormat;
    hide Text.TrimSpace, Text.IsBlank;
  }

  /**
   On files and policies that nobody has changed, an accepted batch passes its second
   check if and only if every path leads where its trimmed form leads: planning
   resolves the trimmed paths, the second check the paths as they were given.
   */
  lemma UndisturbedPassesExactlyWhen(fs: Files, policies: Policies, edits: seq<FileEdit>, plans: seq<Prepared>)
    requires PlanAll(fs, policies, edits, {}, 0) == Ok(plans)
    ensures FirstFault(fs, policies, plans) == None <==> forall i | 0 <= i < |edits| :: PathsAsTrimmed(policies, edits[i])
  {
    hide Plan, Recheck, PathsAsTrimmed, Uses;
    AcceptedExactlyWhen(fs, policies, edits, plans);
    forall i | 0 <= i < |plans| ensures Recheck(fs, policies, plans[i]) == None <==> PathsAsTrimmed(policies, edits[i]) {
      PlannedPassesExactlyWhen(fs, policies, edits[i], plans[i]);
    }
    NoFaultExactlyWhen(fs, policies, plans);
  }

  lemma {:induction false} NoFaultExactlyWhen(fs: Files, policies: Policies, plans: seq<Prepared>)
    ensures FirstFault(fs, policies, plans) == None <==> forall i | 0 <= i < |plans| :: Recheck(fs, policies, plans[i]) == None
  {
    hide Recheck;
    if plans != [] {
      NoFaultExactlyWhen(fs, policies, plans[1..]);
      assert forall i | 0 < i < |plans| :: plans[i] == plans[1..][i - 1];
    }
  }

  /** Every path leads to itself, blanks and all. */
  const PLAIN := Policies(path => Some(path), path => true)

  /** A batch that creates one file under a path with a leading blank is accepted and then found stale. */
  lemma PaddedPathIsStale()
    ensures var e := FileEdit(" a", Create, None, "", "", [], None, NoExact, PreservePolicy, None);
      && PlanAll(map[], PLAIN, [e], {}, 0).Ok?
      && FirstFault(map[], PLAIN, PlanAll(map[], PLAIN, [e], {}, 0).value) == Some(StaleRevision)
  {
    var e := FileEdit(" a", Create, None, "", "", [], None, NoExact, PreservePolicy, None);
    TrimSample();
    NoChange();
    hide Text.TrimSpace, Text.IsBlank, Changed, EncodeWithFormat, CreateFormat, Text.StripMark, Text.Logical;
    var p := Plan(map[], PLAIN, e, {}).value;
    assert Plan(map[], PLAIN, e, {}) == Ok(p) && p.absPath == "a" && p.edit == e && p.changed == 0;
    assert TotalChanged([p]) == 0;
    hide Plan;
    AcceptedExactlyWhen(map[], PLAIN, [e], [p]);
  }

  lemma TrimSample()
    ensures Text.TrimSpace(" a") == "a" && !Text.IsBlank(" a") && Text.IsBlank("")
  {
    assert " a"[1..] == "a" && !Text.IsSpace("a"[0]);
    Text.TrimmedAwayWhenBlank(" a");
  }

  lemma NoChange()
    ensures Changed("", "") == 0 && Text.StripMark(Text.Logical("")) == ""
  {
  }
}

/**
 The batch editor of `internal/edit/apply.go`: nothing is written unless the whole
 batch has been planned and checked again, and what is written is one
 simultaneous update of the files.
 */
module Batch {
  import opened OperationCore
  import opened BatchPlan

  // ---------------------------------------------------------------- planning

  /** Plan the edits in order, as long as the changed lines stay within the limit. */
  ghost function PlanAll(fs: Files, policies: Policies, edits: seq<FileEdit>, taken: set<string>, total: nat)
    : Result<seq<Prepared>>
    decreases |edits|
  {
    if edits == [] then Ok([])
    else
      var first := Plan(fs, policies, edits[0], taken);
      if first.Refused? then Refused(first.code)
      else if total + first.value.changed > MAX_CHANGED_LINES then Refused(TooManyChanges)
      else
        var rest := PlanAll(fs, policies, edits[1..], taken + Uses(first.value), total + first.value.changed);
        if rest.Refused? then rest else Ok([first.value] + rest.value)
  }

  function TotalChanged(plans: seq<Prepared>): nat {
    if plans == [] then 0 else plans[0].changed + TotalChanged(plans[1..])
  }

  /** No two planned edits use the same physical path. */
  predicate Separate(plans: seq<Prepared>) {
    forall i, j | 0 <= i < j < |plans| :: Uses(plans[i]) !! Uses(plans[j])
  }

  predicate Avoids(plans: seq<Prepared>, taken: set<string>) { forall i | 0 <= i < |plans| :: Uses(plans[i]) !! taken }

  /** Each edit on its own can be planned, and these are the plans. */
  ghost predicate EachPlanned(fs: Files, policies: Policies, edits: seq<FileEdit>, plans: seq<Prepared>) {
    |plans| == |edits| && forall i | 0 <= i < |edits| :: Plan(fs, policies, edits[i], {}) == Ok(plans[i])
  }

  /** Earlier edits matter to a later one only through the paths they use. */
  lemma TakenMatters(fs: Files, policies: Policies, e: FileEdit, taken: set<string>)
    ensures Plan(fs, policies, e, taken).Ok? <==>
      Plan(fs, policies, e, {}).Ok? && Uses(Plan(fs, policies, e, {}).value) !! taken
    ensures Plan(fs, policies, e, taken).Ok? ==> Plan(fs, policies, e, taken) == Plan(fs, policies, e, {})
  {
    hide PlanCreate, PlanUpdate, PlanDelete, FormatMatches;
    match policies.resolve(Text.TrimSpace(e.path))
    case None =>
    case Some(abs) => PlansKeepTheEdit(fs, e, abs);
  }

  lemma {:induction false} PlansFromEach(fs: Files, policies: Policies, edits: seq<FileEdit>, plans: seq<Prepared>,
                                         taken: set<string>, total: nat)
    requires EachPlanned(fs, policies, edits, plans) && Separate(plans) && Avoids(plans, taken)
    requires total + TotalChanged(plans) <= MAX_CHANGED_LINES
    ensures PlanAll(fs, policies, edits, taken, total) == Ok(plans)
    decreases |edits|
  {
    hide Plan, Uses;
    if edits != [] {
      TakenMatters(fs, policies, edits[0], taken);
      var rest := plans[1..];
      assert Avoids(rest, taken + Uses(plans[0])) by {
        forall i | 0 <= i < |rest| ensures Uses(rest[i]) !! taken + Uses(plans[0]) {
          assert rest[i] == plans[i + 1];
          assert Uses(plans[0]) !! Uses(plans[i + 1]);
        }
      }
      SeparateTail(plans);
      EachTail(fs, policies, edits, plans);
      PlansFromEach(fs, policies, edits[1..], rest, taken + Uses(plans[0]), total + plans[0].changed);
      assert [plans[0]] + rest == plans;
    }
  }

  lemma SeparateTail(plans: seq<Prepared>)
    requires Separate(plans) && plans != []
    ensures Separate(plans[1..])
  {
    hide Uses;
    var rest := plans[1..];
    forall i, j | 0 <= i < j < |rest| ensures Uses(rest[i]) !! Uses(rest[j]) {
      assert rest[i] == plans[i + 1] && rest[j] == plans[j + 1];
    }
  }

  lemma EachTail(fs: Files, policies: Policies, edits: seq<FileEdit>, plans: seq<Prepared>)
    requires EachPlanned(fs, policies, edits, plans) && edits != []
    ensures EachPlanned(fs, policies, edits[1..], plans[1..])
  {
    hide Plan;
    forall i | 0 <= i < |edits| - 1 ensures Plan(fs, policies, edits[1..][i], {}) == Ok(plans[1..][i]) {
      assert edits[1..][i] == edits[i + 1] && plans[1..][i] == plans[i + 1];
    }
  }

  lemma {:induction false} EachFromPlans(fs: Files, policies: Policies, edits: seq<FileEdit>, taken: set<string>, total: nat)
    requires PlanAll(fs, policies, edits, taken, total).Ok? && total <= MAX_CHANGED_LINES
    ensures var plans := PlanAll(fs, policies, edits, taken, total).value;
      && EachPlanned(fs, policies, edits, plans) && Separate(plans) && Avoids(plans, taken)
      && total + TotalChanged(plans) <= MAX_CHANGED_LINES
    decreases |edits|
  {
    hide Plan, Uses;
    if edits != [] {
      TakenMatters(fs, policies, edits[0], taken);
      var first := Plan(fs, policies, edits[0], taken).value;
      EachFromPlans(fs, policies, edits[1..], taken + Uses(first), total + first.changed);
      var rest := PlanAll(fs, policies, edits[1..], taken + Uses(first), total + first.changed).value;
      PlansCons(fs, policies, edits, first, rest, taken);
      assert ([first] + rest)[1..] == rest;
    }
  }

  lemma PlansCons(fs: Files, policies: Policies, edits: seq<FileEdit>, first: Prepared, rest: seq<Prepared>, taken: set<string>)
    requires edits != [] && Plan(fs, policies, edits[0], {}) == Ok(first) && Uses(first) !! taken
    requires EachPlanned(fs, policies, edits[1..], rest) && Separate(rest) && Avoids(rest, taken + Uses(first))
    ensures EachPlanned(fs, policies, edits, [first] + rest) && Separate([first] + rest) && Avoids([first] + rest, taken)
  {
    hide Plan, Uses;
    var plans := [first] + rest;
    assert forall i | 0 < i < |plans| :: plans[i] == rest[i - 1];
    forall i | 0 <= i < |edits| ensures Plan(fs, policies, edits[i], {}) == Ok(plans[i]) {
      if i > 0 { assert edits[i] == edits[1..][i - 1]; }
    }
    forall i, j | 0 <= i < j < |plans| ensures Uses(plans[i]) !! Uses(plans[j]) {
      assert Uses(rest[j - 1]) !! taken + Uses(first);
      if i > 0 { assert Uses(rest[i - 1]) !! Uses(rest[j - 1]); }
    }
    forall i | 0 <= i < |plans| ensures Uses(plans[i]) !! taken {
      if i > 0 { assert Uses(rest[i - 1]) !! taken + Uses(first); }
    }
  }

  /** A batch is accepted exactly when each edit is, on its own, and together they keep apart and within the limit. */
  lemma AcceptedExactlyWhen(fs: Files, policies: Policies, edits: seq<FileEdit>, plans: seq<Prepared>)
    ensures PlanAll(fs, policies, edits, {}, 0) == Ok(plans) <==>
      EachPlanned(fs, policies, edits, plans) && Separate(plans) && TotalChanged(plans) <= MAX_CHANGED_LINES
  {
    hide Plan, Uses, EachPlanned, Separate;
    if PlanAll(fs, policies, edits, {}, 0) == Ok(plans) {
      EachFromPlans(fs, policies, edits, {}, 0);
    }
    if EachPlanned(fs, policies, edits, plans) && Separate(plans) && TotalChanged(plans) <= MAX_CHANGED_LINES {
      PlansFromEach(fs, policies, edits, plans, {}, 0);
    }
  }

  method PrepareAll(fs: Files, policies: Policies, edits: seq<FileEdit>) returns (result: Result<seq<Prepared>>, total: nat)
    ensures result == PlanAll(fs, policies, edits, {}, 0)
    ensures result.Ok? ==> total == TotalChanged(result.value) <= MAX_CHANGED_LINES
  {
    hide Plan, Uses;
    var taken: set<string> := {};
    var plans: seq<Prepared> := [];
    total := 0;
    PlannedAtStart(fs, policies, edits);
    for i := 0 to |edits|
      invariant total == TotalChanged(plans) <= MAX_CHANGED_LINES
      invariant Planned(fs, policies, edits, i, taken, total, plans)
    {
      var r, taken' := PrepareOne(fs, policies, edits[i], taken);
      PlannedStep(fs, policies, edits, i, taken, total, plans);
      if r.Refused? {
        return Refused(r.code), total;
      }
      total := total + r.value.changed;
      if total > MAX_CHANGED_LINES {
        return Refused(TooManyChanges), total;
      }
      TotalAppends(plans, r.value);
      taken, plans := taken', plans + [r.value];
    }
    assert plans + [] == plans;
    result := Ok(plans);
  }

  /** What planning the rest will make of the plans so far. */
  ghost predicate Planned(fs: Files, policies: Policies, edits: seq<FileEdit>, i: nat, taken: set<string>, total: nat,
                          plans: seq<Prepared>)
    requires i <= |edits|
  {
    var rest := PlanAll(fs, policies, edits[i..], taken, total);
    PlanAll(fs, policies, edits, {}, 0) == if rest.Refused? then rest else Ok(plans + rest.value)
  }

  lemma PlannedAtStart(fs: Files, policies: Policies, edits: seq<FileEdit>)
    ensures Planned(fs, policies, edits, 0, {}, 0, [])
  {
    assert edits[0..] == edits;
    var all := PlanAll(fs, policies, edits, {}, 0);
    if all.Ok? { assert [] + all.value == all.value; }
  }

  lemma PlannedStep(fs: Files, policies: Policies, edits: seq<FileEdit>, i: nat, taken: set<string>, total: nat,
                    plans: seq<Prepared>)
    requires i < |edits| && Planned(fs, policies, edits, i, taken, total, plans)
    ensures var r := Plan(fs, policies, edits[i], taken);
      if r.Refused? then PlanAll(fs, policies, edits, {}, 0) == Refused(r.code)
      else if total + r.value.changed > MAX_CHANGED_LINES then PlanAll(fs, policies, edits, {}, 0) == Refused(TooManyChanges)
      else Planned(fs, policies, edits, i + 1, taken + Uses(r.value), total + r.value.changed, plans + [r.value])
  {
    hide Plan, Uses;
    assert edits[i..][1..] == edits[i + 1..];
    var r := Plan(fs, policies, edits[i], taken);
    if r.Ok? && total + r.value.changed <= MAX_CHANGED_LINES {
      var rest := PlanAll(fs, policies, edits[i + 1..], taken + Uses(r.value), total + r.value.changed);
      if rest.Ok? { assert plans + ([r.value] + rest.value) == (plans + [r.value]) + rest.value; }
    }
  }

  lemma {:induction false} TotalAppends(plans: seq<Prepared>, p: Prepared)
    ensures TotalChanged(plans + [p]) == TotalChanged(plans) + p.changed
  {
    if plans == [] {
      assert plans + [p] == [p];
    } else {
      assert (plans + [p])[1..] == plans[1..] + [p];
      TotalAppends(plans[1..], p);
    }
  }
}

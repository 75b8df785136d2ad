/**
 Validation of a submitted operation (`validateSpec` in
 `internal/operation/service.go`): the recursive visiting/visited search accepts
 exactly the acyclic dependency graphs.
 */
module SpecValidation {
  import opened Text
  import OperationCore
  import OperationProtocol
  import OperationSystem

  datatype StepSpec = StepSpec(id: string, tool: string, dependsOn: seq<string>)

  datatype SubmitSpec = SubmitSpec(session: string, workspace: string, steps: seq<StepSpec>)

  datatype Verdict = Accepted | Invalid(reason: Reason)

  datatype Reason = MissingScope | StepCount | MissingIdOrTool | DuplicateId | UnknownDependency | Cycle

  // -------------------------------------------------------------- what is valid

  /** Dependencies by trimmed step id. */
  type Graph = map<string, seq<string>>

  /** Every dependency is a step, and some ranking puts each step above its dependencies. */
  ghost predicate RankedBy(g: Graph, rank: map<string, nat>) {
    && rank.Keys == g.Keys
    && forall id, k | id in g && 0 <= k < |g[id]| :: g[id][k] in g && rank[g[id][k]] < rank[id]
  }

  ghost predicate WellFounded(g: Graph) { exists rank :: RankedBy(g, rank) }

  predicate DistinctIds(steps: seq<StepSpec>) {
    forall i, j | 0 <= i < j < |steps| :: TrimSpace(steps[i].id) != TrimSpace(steps[j].id)
  }

  predicate Named(steps: seq<StepSpec>) {
    forall i | 0 <= i < |steps| :: !IsBlank(steps[i].id) && !IsBlank(steps[i].tool)
  }

  function GraphOf(steps: seq<StepSpec>): (g: Graph)
    ensures forall i | 0 <= i < |steps| :: TrimSpace(steps[i].id) in g
    ensures forall id | id in g :: exists i :: 0 <= i < |steps| && TrimSpace(steps[i].id) == id && g[id] == steps[i].dependsOn
  {
    if steps == [] then map[]
    else
      var last := steps[|steps| - 1];
      var rest := GraphOf(steps[..|steps| - 1]);
      assert forall i | 0 <= i < |steps| - 1 :: steps[..|steps| - 1][i] == steps[i];
      rest[TrimSpace(last.id) := last.dependsOn]
  }

  ghost predicate ValidSpec(spec: SubmitSpec) {
    && !IsBlank(spec.session) && !IsBlank(spec.workspace)
    && 1 <= |spec.steps| <= OperationSystem.MAX_STEPS
    && Named(spec.steps) && DistinctIds(spec.steps) && WellFounded(GraphOf(spec.steps))
  }

  // ------------------------------------------------------------------ the search

  /** `order` lists finished steps, each after its dependencies. */
  predicate Finished(g: Graph, order: seq<string>) {
    && (forall i | 0 <= i < |order| :: order[i] in g)
    && (forall i, k | 0 <= i < |order| && 0 <= k < |g[order[i]]| :: g[order[i]][k] in order[..i])
  }

  predicate Distinct(s: seq<string>) { forall i, j | 0 <= i < j < |s| :: s[i] != s[j] }

  /** A chain of dependencies, from the first step visited to the one being visited. */
  predicate Path(g: Graph, path: seq<string>) {
    && (forall i | 0 <= i < |path| :: path[i] in g)
    && (forall i | 0 <= i < |path| - 1 :: path[i + 1] in g[path[i]])
  }

  function Elements(s: seq<string>): (e: set<string>)
    ensures forall x :: x in e <==> x in s
  {
    set x | x in s
  }

  /** Ranks fall along a chain. */
  lemma {:induction false} RanksFall(g: Graph, rank: map<string, nat>, path: seq<string>, i: nat, j: nat)
    requires RankedBy(g, rank) && Path(g, path) && i <= j < |path|
    ensures path[i] in rank && path[j] in rank && rank[path[j]] + (j - i) <= rank[path[i]]
    decreases j
  {
    if i < j {
      RanksFall(g, rank, path, i, j - 1);
      assert path[(j - 1) + 1] in g[path[j - 1]];
      var k :| 0 <= k < |g[path[j - 1]]| && g[path[j - 1]][k] == path[j];
    }
  }

  /** A step that depends on one already on its path closes a cycle. */
  lemma CycleHasNoRank(g: Graph, path: seq<string>, id: string)
    requires Path(g, path) && path != [] && id in path && id in g[path[|path| - 1]]
    ensures !WellFounded(g)
  {
    if WellFounded(g) {
      var rank :| RankedBy(g, rank);
      var i :| 0 <= i < |path| && path[i] == id;
      RanksFall(g, rank, path, i, |path| - 1);
    }
  }

  lemma UnknownHasNoRank(g: Graph, id: string, k: nat)
    requires id in g && k < |g[id]| && g[id][k] !in g
    ensures !WellFounded(g)
  {
  }

  function PositionIn(order: seq<string>, id: string): (i: nat)
    requires id in order
    ensures i < |order| && order[i] == id
  {
    if order[0] == id then 0 else 1 + PositionIn(order[1..], id)
  }

  /** Once every step is finished, its place in the order is a rank. */
  lemma FinishedIsRanked(g: Graph, order: seq<string>)
    requires Finished(g, order) && Distinct(order) && forall id | id in g :: id in order
    ensures WellFounded(g)
  {
    var rank := map id | id in g :: PositionIn(order, id);
    forall id, k | id in g && 0 <= k < |g[id]| ensures g[id][k] in g && rank[g[id][k]] < rank[id] {
      var i := rank[id];
      var d := g[id][k];
      assert order[i] == id;
      assert d in order[..i];
      var j :| 0 <= j < i && order[..i][j] == d;
      assert order[j] == d;
    }
    assert RankedBy(g, rank);
  }

  /** The two sets of the search, and ghost records of where it stands. */
  class Visitor {
    const g: Graph
    var visiting: set<string>
    var visited: set<string>
    ghost var path: seq<string>
    ghost var order: seq<string>

    constructor (graph: Graph)
      ensures g == graph && Valid() && path == [] && order == []
    {
      g := graph;
      visiting, visited, path, order := {}, {}, [], [];
    }

    ghost predicate Valid()
      reads this
    {
      && visiting == Elements(path) && visited == Elements(order)
      && Path(g, path) && Finished(g, order) && Distinct(order)
      && visiting !! visited
    }

    method Visit(id: string) returns (verdict: Verdict)
      requires Valid() && id in g
      requires path == [] || id in g[path[|path| - 1]]
      modifies this
      ensures verdict.Accepted? ==> Valid() && path == old(path) && old(order) <= order && id in order
      ensures verdict.Invalid? ==> !WellFounded(g)
      ensures verdict.Invalid? ==> verdict.reason == Cycle || verdict.reason == UnknownDependency
      decreases g.Keys - visiting
    {
      hide WellFounded;
      if id in visiting {
        CycleHasNoRank(g, path, id);
        return Invalid(Cycle);
      }
      if id in visited {
        return Accepted;
      }
      Enter(id);
      var i := 0;
      while i < |g[id]|
        invariant 0 <= i <= |g[id]|
        invariant Valid() && path == old(path) + [id] && old(order) <= order && id !in order
        invariant forall k | 0 <= k < i :: g[id][k] in order
        decreases |g[id]| - i
      {
        var dependency := g[id][i];
        if dependency !in g {
          UnknownHasNoRank(g, id, i);
          return Invalid(UnknownDependency);
        }
        verdict := Visit(dependency);
        if verdict.Invalid? {
          return;
        }
        assert id in visiting;
        i := i + 1;
      }
      Leave(id);
      verdict := Accepted;
    }

    method Enter(id: string)
      requires Valid() && id in g && id !in visiting && id !in visited
      requires path == [] || id in g[path[|path| - 1]]
      modifies this
      ensures Valid() && path == old(path) + [id] && order == old(order)
      ensures visiting == old(visiting) + {id} && id !in order
    {
      visiting := visiting + {id};
      path := path + [id];
    }

    method Leave(id: string)
      requires Valid() && path != [] && path[|path| - 1] == id && id !in path[..|path| - 1] && id !in order
      requires forall k | 0 <= k < |g[id]| :: g[id][k] in order
      modifies this
      ensures Valid() && path == old(path)[..|old(path)| - 1] && order == old(order) + [id]
    {
      ghost var before := order;
      visiting := visiting - {id};
      visited := visited + {id};
      path := path[..|path| - 1];
      order := order + [id];
      assert forall i | 0 <= i < |before| :: order[..i] == before[..i];
      assert order[..|before|] == before;
    }
  }

  method SearchCycles(g: Graph) returns (verdict: Verdict)
    ensures verdict.Accepted? <==> WellFounded(g)
    ensures verdict.Invalid? ==> verdict.reason == Cycle || verdict.reason == UnknownDependency
  {
    hide WellFounded;
    var visitor := new Visitor(g);
    var left := g.Keys;
    while left != {}
      invariant left <= g.Keys && visitor.g == g && fresh(visitor)
      invariant visitor.Valid() && visitor.path == []
      invariant forall id | id in g.Keys - left :: id in visitor.order
      decreases |left|
    {
      var id :| id in left;
      ghost var before := visitor.order;
      verdict := visitor.Visit(id);
      if verdict.Invalid? {
        return;
      }
      PrefixMembers(before, visitor.order);
      left := left - {id};
    }
    FinishedIsRanked(g, visitor.order);
    verdict := Accepted;
  }

  lemma PrefixMembers(before: seq<string>, after: seq<string>)
    requires before <= after
    ensures forall x | x in before :: x in after
  {
    forall x | x in before ensures x in after {
      var k :| 0 <= k < |before| && before[k] == x;
      assert after[k] == x;
    }
  }

  method CollectSteps(steps: seq<StepSpec>) returns (verdict: Verdict, byId: Graph)
    ensures verdict.Accepted? <==> Named(steps) && DistinctIds(steps)
    ensures verdict.Accepted? ==> byId == GraphOf(steps)
    ensures verdict == Invalid(MissingIdOrTool) ==> !Named(steps)
    ensures verdict == Invalid(DuplicateId) ==> !DistinctIds(steps)
    ensures verdict.Invalid? ==> verdict.reason == MissingIdOrTool || verdict.reason == DuplicateId
  {
    hide Named, DistinctIds, GraphOf, TrimSpace;
    byId := map[];
    NoStepsYet();
    assert steps[..0] == [];
    for i := 0 to |steps|
      invariant Named(steps[..i]) && DistinctIds(steps[..i]) && byId == GraphOf(steps[..i])
    {
      var id := TrimSpace(steps[i].id);
      OneMoreStep(steps, i);
      TrimmedAwayWhenBlank(steps[i].id);
      TrimmedAwayWhenBlank(steps[i].tool);
      if id == "" || TrimSpace(steps[i].tool) == "" {
        PrefixFails(steps, i + 1);
        return Invalid(MissingIdOrTool), byId;
      }
      if id in byId {
        PrefixFails(steps, i + 1);
        return Invalid(DuplicateId), byId;
      }
      byId := byId[id := steps[i].dependsOn];
    }
    assert steps[..|steps|] == steps;
    verdict := Accepted;
  }

  lemma NoStepsYet()
    ensures Named([]) && DistinctIds([]) && GraphOf([]) == map[]
  {
  }

  lemma NamedMore(before: seq<StepSpec>, step: StepSpec)
    ensures Named(before + [step]) <==> Named(before) && !IsBlank(step.id) && !IsBlank(step.tool)
  {
    hide IsBlank;
    var after := before + [step];
    assert after[|before|] == step && forall k | 0 <= k < |before| :: after[k] == before[k];
  }

  lemma DistinctMore(before: seq<StepSpec>, step: StepSpec)
    ensures DistinctIds(before + [step]) <==> DistinctIds(before) && TrimSpace(step.id) !in GraphOf(before)
  {
    hide TrimSpace, GraphOf;
    var after := before + [step];
    assert after[|before|] == step && forall k | 0 <= k < |before| :: after[k] == before[k];
    if DistinctIds(before) && TrimSpace(step.id) !in GraphOf(before) {
      forall j, k | 0 <= j < k < |after| ensures TrimSpace(after[j].id) != TrimSpace(after[k].id) {
        assert TrimSpace(before[j].id) in GraphOf(before);
      }
    }
    if TrimSpace(step.id) in GraphOf(before) {
      var j :| 0 <= j < |before| && TrimSpace(before[j].id) == TrimSpace(step.id);
      assert TrimSpace(after[j].id) == TrimSpace(after[|before|].id);
    }
    if DistinctIds(after) {
      forall j, k | 0 <= j < k < |before| ensures TrimSpace(before[j].id) != TrimSpace(before[k].id) {
        assert TrimSpace(after[j].id) != TrimSpace(after[k].id);
      }
    }
  }

  lemma GraphMore(before: seq<StepSpec>, step: StepSpec)
    ensures GraphOf(before + [step]) == GraphOf(before)[TrimSpace(step.id) := step.dependsOn]
  {
    assert (before + [step])[..|before|] == before;
  }

  /** What one more step adds to the conditions. */
  lemma OneMoreStep(steps: seq<StepSpec>, i: nat)
    requires i < |steps|
    ensures Named(steps[..i + 1]) <==> Named(steps[..i]) && !IsBlank(steps[i].id) && !IsBlank(steps[i].tool)
    ensures DistinctIds(steps[..i + 1]) <==> DistinctIds(steps[..i]) && TrimSpace(steps[i].id) !in GraphOf(steps[..i])
    ensures GraphOf(steps[..i + 1]) == GraphOf(steps[..i])[TrimSpace(steps[i].id) := steps[i].dependsOn]
  {
    hide *;
    assert steps[..i + 1] == steps[..i] + [steps[i]];
    NamedMore(steps[..i], steps[i]);
    DistinctMore(steps[..i], steps[i]);
    GraphMore(steps[..i], steps[i]);
  }

  lemma PrefixFails(steps: seq<StepSpec>, i: nat)
    requires i <= |steps|
    ensures !Named(steps[..i]) ==> !Named(steps)
    ensures !DistinctIds(steps[..i]) ==> !DistinctIds(steps)
  {
    hide TrimSpace, IsBlank;
    assert forall k | 0 <= k < i :: steps[..i][k] == steps[k];
  }

  /** Each dependency is the id of a step, and ranks below the step that names it. */
  ghost predicate Orders(steps: seq<StepSpec>, rank: map<string, nat>) {
    && (forall i | 0 <= i < |steps| :: TrimSpace(steps[i].id) in rank)
    && forall i, d | 0 <= i < |steps| && d in steps[i].dependsOn ::
         IsStep(steps, d) && d in rank && rank[d] < rank[TrimSpace(steps[i].id)]
  }

  predicate IsStep(steps: seq<StepSpec>, id: string) { exists j :: 0 <= j < |steps| && TrimSpace(steps[j].id) == id }

  /** What a caller has to submit, said of the submission itself. */
  ghost predicate Acceptable(spec: SubmitSpec) {
    && TrimSpace(spec.session) != "" && TrimSpace(spec.workspace) != ""
    && 1 <= |spec.steps| <= 32
    && Nonblank(spec.steps)
    && (forall i, j | 0 <= i < j < |spec.steps| :: TrimSpace(spec.steps[i].id) != TrimSpace(spec.steps[j].id))
    && exists rank :: Orders(spec.steps, rank)
  }

  lemma GraphAt(steps: seq<StepSpec>, i: nat)
    requires DistinctIds(steps) && i < |steps|
    ensures TrimSpace(steps[i].id) in GraphOf(steps) && GraphOf(steps)[TrimSpace(steps[i].id)] == steps[i].dependsOn
  {
    var id := TrimSpace(steps[i].id);
    var j :| 0 <= j < |steps| && TrimSpace(steps[j].id) == id && GraphOf(steps)[id] == steps[j].dependsOn;
    assert i == j;
  }

  /** Ids and tools that are left when blanks are trimmed. */
  predicate Nonblank(steps: seq<StepSpec>) {
    forall i | 0 <= i < |steps| :: TrimSpace(steps[i].id) != "" && TrimSpace(steps[i].tool) != ""
  }

  lemma NonblankIsNamed(steps: seq<StepSpec>)
    ensures Nonblank(steps) <==> Named(steps)
  {
    hide TrimSpace, IsBlank;
    forall i | 0 <= i < |steps|
      ensures TrimSpace(steps[i].id) == "" <==> IsBlank(steps[i].id)
      ensures TrimSpace(steps[i].tool) == "" <==> IsBlank(steps[i].tool)
    {
      TrimmedAwayWhenBlank(steps[i].id);
      TrimmedAwayWhenBlank(steps[i].tool);
    }
  }

  lemma OrderedIsWellFounded(steps: seq<StepSpec>)
    requires DistinctIds(steps)
    ensures WellFounded(GraphOf(steps)) <==> exists rank :: Orders(steps, rank)
  {
    hide Orders, RankedBy, GraphOf, DistinctIds;
    var g := GraphOf(steps);
    if WellFounded(g) {
      var rank :| RankedBy(g, rank);
      RanksAreOrders(steps, g, rank);
    }
    if rank :| Orders(steps, rank) { OrdersAreRanks(steps, g, rank); }
  }

  lemma AcceptableIsValid(spec: SubmitSpec)
    ensures Acceptable(spec) <==> ValidSpec(spec)
  {
    TrimmedAwayWhenBlank(spec.session);
    TrimmedAwayWhenBlank(spec.workspace);
    NonblankIsNamed(spec.steps);
    if DistinctIds(spec.steps) { OrderedIsWellFounded(spec.steps); }
    hide TrimSpace, IsBlank, GraphOf, Orders, WellFounded, Named, Nonblank;
  }

  lemma RanksAreOrders(steps: seq<StepSpec>, g: Graph, rank: map<string, nat>)
    requires DistinctIds(steps) && g == GraphOf(steps) && RankedBy(g, rank)
    ensures Orders(steps, rank)
  {
    hide TrimSpace, GraphOf;
    forall i | 0 <= i < |steps| ensures TrimSpace(steps[i].id) in rank { GraphAt(steps, i); }
    forall i, d | 0 <= i < |steps| && d in steps[i].dependsOn
      ensures IsStep(steps, d) && d in rank && rank[d] < rank[TrimSpace(steps[i].id)]
    {
      GraphAt(steps, i);
      var id := TrimSpace(steps[i].id);
      var k :| 0 <= k < |g[id]| && g[id][k] == d;
      assert g[id][k] in g;
    }
  }

  lemma OrdersAreRanks(steps: seq<StepSpec>, g: Graph, rank: map<string, nat>)
    requires g == GraphOf(steps) && Orders(steps, rank)
    ensures WellFounded(g)
  {
    hide TrimSpace, GraphOf;
    forall id | id in g ensures id in rank {
      var i :| 0 <= i < |steps| && TrimSpace(steps[i].id) == id;
    }
    var own: map<string, nat> := map id | id in g :: rank[id];
    forall id, k | id in g && 0 <= k < |g[id]| ensures g[id][k] in g && own[g[id][k]] < own[id] {
      var i :| 0 <= i < |steps| && TrimSpace(steps[i].id) == id && g[id] == steps[i].dependsOn;
      assert g[id][k] in steps[i].dependsOn && IsStep(steps, g[id][k]);
    }
    assert RankedBy(g, own);
  }

  method ValidateSpec(spec: SubmitSpec) returns (verdict: Verdict)
    ensures verdict.Accepted? <==> ValidSpec(spec)
    ensures verdict.Accepted? <==> Acceptable(spec)
  {
    AcceptableIsValid(spec);
    hide WellFounded, Named, DistinctIds, GraphOf;
    TrimmedAwayWhenBlank(spec.session);
    TrimmedAwayWhenBlank(spec.workspace);
    if TrimSpace(spec.session) == "" || TrimSpace(spec.workspace) == "" {
      return Invalid(MissingScope);
    }
    if |spec.steps| == 0 || |spec.steps| > OperationSystem.MAX_STEPS {
      return Invalid(StepCount);
    }
    var byId;
    verdict, byId := CollectSteps(spec.steps);
    if verdict.Invalid? {
      return;
    }
    verdict := SearchCycles(byId);
  }

  // ----------------------------------------------------- rows of an accepted operation

  /** Positions of the dependencies in a listing of the steps. */
  function Places(ids: seq<string>, deps: seq<string>): (places: seq<nat>)
    requires forall d | d in deps :: d in ids
    ensures |places| == |deps|
    ensures forall k | 0 <= k < |deps| :: places[k] < |ids| && ids[places[k]] == deps[k]
  {
    if deps == [] then [] else [PositionIn(ids, deps[0])] + Places(ids, deps[1..])
  }

  /** The queued rows of the steps, listed in some order. */
  function Rows(g: Graph, ids: seq<string>): (rows: seq<OperationCore.StepRow>)
    requires forall i | 0 <= i < |ids| :: ids[i] in g && forall d | d in g[ids[i]] :: d in ids
    ensures |rows| == |ids|
  {
    seq(|ids|, i requires 0 <= i < |ids| => OperationCore.StepRow(Places(ids, g[ids[i]]), OperationCore.Queued, ""))
  }

  /** The dependency rows of an accepted operation exist and have no cycle, in any listing of its steps. */
  lemma AcceptedRowsAreAcyclic(g: Graph, ids: seq<string>)
    requires WellFounded(g) && forall id :: id in ids <==> id in g
    ensures forall i | 0 <= i < |ids| :: ids[i] in g && forall d | d in g[ids[i]] :: d in ids
    ensures OperationCore.WellFormed(Rows(g, ids)) && OperationCore.Acyclic(Rows(g, ids))
  {
    var rank :| RankedBy(g, rank);
    forall i, d | 0 <= i < |ids| && d in g[ids[i]] ensures d in ids {
      var k :| 0 <= k < |g[ids[i]]| && g[ids[i]][k] == d;
    }
    var rows := Rows(g, ids);
    var ranks := seq(|ids|, i requires 0 <= i < |ids| => rank[ids[i]]);
    forall i, k | 0 <= i < |rows| && 0 <= k < |rows[i].deps|
      ensures rows[i].deps[k] < |rows| && ranks[rows[i].deps[k]] < ranks[i]
    {
      assert ids[rows[i].deps[k]] == g[ids[i]][k];
    }
    assert OperationCore.Ranked(rows, ranks);
    forall i, d | 0 <= i < |rows| && d in rows[i].deps ensures d < |rows| {
      var k :| 0 <= k < |rows[i].deps| && rows[i].deps[k] == d;
    }
  }

  /** The dependencies of the listed steps, as the scheduler knows them. */
  function DepsOf(g: Graph, ids: seq<string>): (deps: seq<seq<nat>>)
    requires forall i | 0 <= i < |ids| :: ids[i] in g && forall d | d in g[ids[i]] :: d in ids
    ensures |deps| == |ids|
  {
    seq(|ids|, i requires 0 <= i < |ids| => Places(ids, g[ids[i]]))
  }

  /** What validation accepts is what the scheduler's runs may submit. */
  lemma AcceptedSpecsCanBeSubmitted(spec: SubmitSpec, ids: seq<string>)
    requires ValidSpec(spec) && |ids| == |spec.steps| && forall id :: id in ids <==> id in GraphOf(spec.steps)
    ensures var g := GraphOf(spec.steps);
      (forall i | 0 <= i < |ids| :: ids[i] in g && forall d | d in g[ids[i]] :: d in ids)
      && OperationSystem.ValidDeps(DepsOf(g, ids))
  {
    hide WellFounded, Places, GraphOf;
    var g := GraphOf(spec.steps);
    AcceptedRowsAreAcyclic(g, ids);
    assert OperationProtocol.Submitted(DepsOf(g, ids)).slice.row.steps == Rows(g, ids);
  }
}

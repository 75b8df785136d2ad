/**
 Exact replacements (`internal/edit/apply.go`): every match must occur exactly
 once, and splicing from right to left is one simultaneous substitution.
 */
module Replacements {
  import opened Text

  datatype Replacement = Replacement(find: string, with: string)

  datatype Code = InvalidInput | MatchNotFound | MatchAmbiguous

  datatype Outcome = Edited(text: string) | Rejected(code: Code, index: nat)

  /** A match: the text from `start` up to `end` becomes `rep`; `index` names the replacement. */
  datatype Hit = Hit(index: nat, start: nat, end: nat, rep: string)

  /** `strings.Count`: occurrences that do not overlap, left to right. */
  function Count(s: string, sub: string): nat
    requires sub != ""
  {
    if s == "" then 0
    else if HasPrefix(s, sub) then 1 + Count(s[|sub|..], sub)
    else Count(s[1..], sub)
  }

  /** `strings.Index`: the first occurrence, or -1. */
  function Index(s: string, sub: string): (i: int)
    requires sub != ""
    ensures -1 <= i < |s|
    ensures i >= 0 ==> HasPrefix(s[i..], sub) && i + |sub| <= |s|
  {
    if s == "" then -1
    else if HasPrefix(s, sub) then assert s[0..] == s; 0
    else
      var i := Index(s[1..], sub);
      if i < 0 then -1 else assert s[1..][i..] == s[1 + i..]; 1 + i
  }

  predicate OccursAt(s: string, sub: string, i: nat) { i <= |s| && HasPrefix(s[i..], sub) }

  /** The count is positive exactly when the text occurs, and the index is its first occurrence. */
  lemma {:induction false} IndexIsFirst(s: string, sub: string)
    requires sub != ""
    ensures Index(s, sub) < 0 <==> Count(s, sub) == 0
    ensures Index(s, sub) < 0 ==> forall i: nat :: !OccursAt(s, sub, i)
    ensures Index(s, sub) >= 0 ==> OccursAt(s, sub, Index(s, sub)) && forall i: nat | i < Index(s, sub) :: !OccursAt(s, sub, i)
  {
    if s != "" && !HasPrefix(s, sub) {
      IndexIsFirst(s[1..], sub);
      forall i: nat | i <= |s| ensures OccursAt(s, sub, i) <==> i > 0 && OccursAt(s[1..], sub, i - 1) {
        if i == 0 { assert s[0..] == s; } else { assert s[i..] == s[1..][i - 1..]; }
      }
    }
  }

  /** Counting goes on behind the first occurrence. */
  lemma {:induction false} CountBehindFirst(s: string, sub: string)
    requires sub != ""
    ensures Count(s, sub) == if Index(s, sub) < 0 then 0 else 1 + Count(s[Index(s, sub) + |sub|..], sub)
  {
    if s != "" && !HasPrefix(s, sub) {
      CountBehindFirst(s[1..], sub);
      var i := Index(s[1..], sub);
      if i >= 0 { assert s[1..][i + |sub|..] == s[1 + i + |sub|..]; }
    }
  }

  /** The text occurs here, and all its occurrences overlap this one from behind. */
  ghost predicate OnlyAt(s: string, sub: string, i: nat) {
    OccursAt(s, sub, i) && forall j: nat | OccursAt(s, sub, j) :: i <= j < i + |sub|
  }

  /** The count is one exactly when the text occurs and never again behind its first occurrence. */
  lemma CountIsOneExactlyWhen(s: string, sub: string)
    requires sub != ""
    ensures Count(s, sub) == 1 <==> exists i: nat :: OnlyAt(s, sub, i)
    ensures Count(s, sub) == 1 ==> Index(s, sub) >= 0 && OnlyAt(s, sub, Index(s, sub))
  {
    IndexIsFirst(s, sub);
    CountBehindFirst(s, sub);
    var i := Index(s, sub);
    if i >= 0 {
      var end := i + |sub|;
      IndexIsFirst(s[end..], sub);
      forall j: nat | end <= j <= |s| ensures OccursAt(s, sub, j) <==> OccursAt(s[end..], sub, j - end) {
        assert s[j..] == s[end..][j - end..];
      }
      if Count(s, sub) == 1 {
        forall j: nat | OccursAt(s, sub, j) ensures i <= j < end {
          assert j <= |s|;
        }
        assert OccursAt(s, sub, i) && OnlyAt(s, sub, i);
      } else {
        var k := Index(s[end..], sub);
        assert OccursAt(s, sub, end + k);
        forall l: nat ensures !OnlyAt(s, sub, l) {
          if OccursAt(s, sub, l) { assert l >= i && OccursAt(s, sub, i); }
        }
      }
    }
  }

  // ------------------------------------------------------------- what is meant

  function HitOf(s: string, r: Replacement, index: nat): Hit
    requires r.find != "" && Count(s, r.find) == 1
  {
    IndexIsFirst(s, r.find);
    var start := Index(s, r.find);
    Hit(index, start, start + |r.find|, r.with)
  }

  predicate Unique(s: string, r: Replacement) { r.find != "" && Count(s, r.find) == 1 }

  predicate AllUnique(s: string, reps: seq<Replacement>) { forall i | 0 <= i < |reps| :: Unique(s, reps[i]) }

  function HitsOf(s: string, reps: seq<Replacement>): (hits: seq<Hit>)
    requires AllUnique(s, reps)
    ensures |hits| == |reps|
  {
    seq(|reps|, i requires 0 <= i < |reps| => HitOf(s, reps[i], i))
  }

  predicate Apart(a: Hit, b: Hit) { a.end <= b.start || b.end <= a.start }

  /** No two hits overlap. */
  predicate Disjoint(hits: seq<Hit>) { forall i, j | 0 <= i < j < |hits| :: Apart(hits[i], hits[j]) }

  predicate Within(s: string, hits: seq<Hit>) { forall i | 0 <= i < |hits| :: hits[i].start < hits[i].end <= |s| }

  datatype Found = Found(hit: Hit) | Nothing

  /** The hit that starts at a position. */
  function StartingAt(hits: seq<Hit>, p: nat): Found {
    if hits == [] then Nothing
    else if hits[0].start == p then Found(hits[0])
    else StartingAt(hits[1..], p)
  }

  /** All hits substituted at once, reading the original text from position `p` on. */
  function Substituted(s: string, hits: seq<Hit>, p: nat): string
    requires Within(s, hits) && p <= |s|
    decreases |s| - p
  {
    if p == |s| then ""
    else
      StartsWithin(s, hits, p);
      var found := StartingAt(hits, p);
      if found.Found? then found.hit.rep + Substituted(s, hits, found.hit.end)
      else [s[p]] + Substituted(s, hits, p + 1)
  }

  lemma {:induction false} StartsWithin(s: string, hits: seq<Hit>, p: nat)
    requires Within(s, hits)
    ensures StartingAt(hits, p).Found? ==>
      var h := StartingAt(hits, p).hit; h in hits && h.start == p && p < h.end <= |s|
    ensures StartingAt(hits, p).Nothing? ==> forall i | 0 <= i < |hits| :: hits[i].start != p
  {
    if hits != [] {
      StartsWithin(s, hits[1..], p);
      if StartingAt(hits, p).Nothing? {
        forall i | 0 <= i < |hits| ensures hits[i].start != p { if i > 0 { assert hits[i] == hits[1..][i - 1]; } }
      }
    }
  }

  /** Among disjoint hits, the one that starts at a position is that position's. */
  lemma StartOf(s: string, hits: seq<Hit>, i: nat)
    requires Within(s, hits) && Disjoint(hits) && i < |hits|
    ensures StartingAt(hits, hits[i].start) == Found(hits[i])
  {
    var p := hits[i].start;
    StartsWithin(s, hits, p);
    var found := StartingAt(hits, p);
    assert found.Found?;
    var j :| 0 <= j < |hits| && hits[j] == found.hit;
  }

  // ------------------------------------------------------------------- the sort

  predicate Descending(hits: seq<Hit>, n: nat) { forall i, j | 0 <= i < j < |hits| && i < n :: hits[i].start >= hits[j].start }

  /** The first `n` hits lie one behind the other, from the right. */
  predicate Stacked(hits: seq<Hit>, n: nat) { forall i | 0 < i < n && i < |hits| :: hits[i].end <= hits[i - 1].start }

  predicate NonEmpty(hits: seq<Hit>) { forall i | 0 <= i < |hits| :: hits[i].start < hits[i].end }

  /** The same hits in another order, which says the same about overlaps. */
  ghost predicate Rearranged(before: seq<Hit>, after: seq<Hit>) {
    && |before| == |after| && multiset(before) == multiset(after)
    && (Disjoint(before) <==> Disjoint(after)) && (NonEmpty(before) <==> NonEmpty(after))
  }

  lemma SwapRearranges(hits: seq<Hit>, i: nat, j: nat)
    requires i < j < |hits|
    ensures Rearranged(hits, hits[i := hits[j]][j := hits[i]])
  {
    var swapped := hits[i := hits[j]][j := hits[i]];
    ApartAfterSwap(hits, swapped, i, j);
    assert swapped[i := swapped[j]][j := swapped[i]] == hits;
    ApartAfterSwap(swapped, hits, i, j);
    NonEmptyAfterSwap(hits, swapped, i, j);
    NonEmptyAfterSwap(swapped, hits, i, j);
  }

  lemma NonEmptyAfterSwap(hits: seq<Hit>, swapped: seq<Hit>, i: nat, j: nat)
    requires i < j < |hits| && swapped == hits[i := hits[j]][j := hits[i]]
    ensures NonEmpty(hits) ==> NonEmpty(swapped)
  {
  }

  lemma RearrangedTwice(a: seq<Hit>, b: seq<Hit>, c: seq<Hit>)
    requires Rearranged(a, b) && Rearranged(b, c)
    ensures Rearranged(a, c)
  {
  }

  lemma ApartAfterSwap(hits: seq<Hit>, swapped: seq<Hit>, i: nat, j: nat)
    requires i < j < |hits| && swapped == hits[i := hits[j]][j := hits[i]]
    ensures Disjoint(hits) ==> Disjoint(swapped)
  {
    if Disjoint(hits) {
      forall k, l | 0 <= k < l < |hits| ensures Apart(swapped[k], swapped[l]) {
        var k' := if k == i then j else if k == j then i else k;
        var l' := if l == i then j else if l == j then i else l;
        assert Apart(hits[if k' < l' then k' else l'], hits[if k' < l' then l' else k']);
      }
    }
  }

  /** Hits stacked from the right are disjoint. */
  lemma StackedIsDisjoint(hits: seq<Hit>)
    requires (forall i | 0 <= i < |hits| :: hits[i].start < hits[i].end) && Stacked(hits, |hits|)
    ensures Disjoint(hits)
  {
    forall i, j | 0 <= i < j < |hits| ensures Apart(hits[i], hits[j]) {
      StackedBelow(hits, i, j);
    }
  }

  lemma {:induction false} StackedBelow(hits: seq<Hit>, i: nat, j: nat)
    requires (forall i | 0 <= i < |hits| :: hits[i].start < hits[i].end) && Stacked(hits, |hits|) && i < j < |hits|
    ensures hits[j].end <= hits[i].start
    decreases j
  {
    if j > i + 1 { StackedBelow(hits, i, j - 1); }
  }

  method Swap(hits: array<Hit>, i: nat, j: nat)
    requires i < j < hits.Length
    modifies hits
    ensures hits[..] == old(hits[..])[i := old(hits[j])][j := old(hits[i])]
  {
    hits[i], hits[j] := hits[j], hits[i];
  }

  /** Everything left of `i` is in place, and position `i` holds the largest start up to `j`. */
  predicate Placed(hits: seq<Hit>, i: nat, j: nat) {
    && i < |hits| && Descending(hits, i)
    && forall k | i < k < j && k < |hits| :: hits[i].start >= hits[k].start
  }

  lemma PlacedNext(before: seq<Hit>, after: seq<Hit>, i: nat, j: nat)
    requires Placed(before, i, j) && i < j < |before|
    requires after == if before[j].start > before[i].start then before[i := before[j]][j := before[i]] else before
    ensures Placed(after, i, j + 1) && after[..i] == before[..i]
  {
  }

  lemma PlacedAll(hits: seq<Hit>, i: nat)
    requires Placed(hits, i, |hits|)
    ensures Descending(hits, i + 1)
  {
  }

  /** One pass of the exchange sort: the largest remaining start comes to position `i`. */
  method Exchange(hits: array<Hit>, i: nat)
    requires i < hits.Length && Descending(hits[..], i)
    modifies hits
    ensures Descending(hits[..], i + 1) && Rearranged(old(hits[..]), hits[..])
    ensures hits[..i] == old(hits[..i])
  {
    ghost var start := hits[..];
    assert Rearranged(start, hits[..]) && Placed(hits[..], i, i + 1);
    hide Descending, Rearranged, Placed;
    for j := i + 1 to hits.Length
      invariant Placed(hits[..], i, j) && Rearranged(start, hits[..])
      invariant hits[..i] == start[..i]
    {
      ghost var before := hits[..];
      if hits[j].start > hits[i].start {
        Swap(hits, i, j);
        SwapRearranges(before, i, j);
        RearrangedTwice(start, before, hits[..]);
      }
      PlacedNext(before, hits[..], i, j);
      assert hits[..i] == hits[..][..i];
    }
    PlacedAll(hits[..], i);
  }

  /** The sort with its overlap check: it succeeds exactly when no two hits overlap. */
  method SortHits(hits: array<Hit>) returns (overlap: int)
    requires NonEmpty(hits[..])
    modifies hits
    ensures Rearranged(old(hits[..]), hits[..])
    ensures overlap < 0 <==> Disjoint(old(hits[..]))
    ensures overlap < 0 ==> Descending(hits[..], hits.Length)
    ensures overlap >= 0 ==> 0 < overlap < hits.Length && !Apart(hits[overlap - 1], hits[overlap])
  {
    overlap := -1;
    ghost var start := hits[..];
    assert Rearranged(start, hits[..]) && Descending(hits[..], 0) && Stacked(hits[..], 0);
    hide Descending, Rearranged, Stacked, Disjoint;
    for i := 0 to hits.Length
      invariant Descending(hits[..], i) && Stacked(hits[..], i) && Rearranged(start, hits[..])
    {
      ghost var before := hits[..];
      Exchange(hits, i);
      RearrangedTwice(start, before, hits[..]);
      assert before[..i] == hits[..][..i];
      StackedPrefix(before, hits[..], i);
      if i > 0 && hits[i - 1].start < hits[i].end {
        StillNonEmpty(start, hits[..]);
        OverlapFound(start, hits[..], i);
        overlap := i;
        return;
      }
      StackedMore(hits[..], i);
    }
    StillNonEmpty(start, hits[..]);
    StackedIsDisjoint(hits[..]);
    SameDisjoint(start, hits[..]);
  }

  lemma StillNonEmpty(before: seq<Hit>, after: seq<Hit>)
    requires Rearranged(before, after) && NonEmpty(before)
    ensures NonEmpty(after)
  {
  }

  lemma SameDisjoint(before: seq<Hit>, after: seq<Hit>)
    requires Rearranged(before, after)
    ensures Disjoint(before) <==> Disjoint(after)
  {
  }

  lemma OverlapFound(before: seq<Hit>, hits: seq<Hit>, i: nat)
    requires Rearranged(before, hits) && NonEmpty(hits) && 0 < i < |hits| && Descending(hits, i + 1)
    requires hits[i - 1].start < hits[i].end
    ensures !Disjoint(before) && !Apart(hits[i - 1], hits[i])
  {
    assert !Apart(hits[i - 1], hits[i]);
  }

  lemma StackedMore(hits: seq<Hit>, i: nat)
    requires i < |hits| && Stacked(hits, i) && (i > 0 ==> hits[i].end <= hits[i - 1].start)
    ensures Stacked(hits, i + 1)
  {
  }

  lemma StackedPrefix(before: seq<Hit>, after: seq<Hit>, i: nat)
    requires |before| == |after| && i <= |before| && before[..i] == after[..i] && Stacked(before, i)
    ensures Stacked(after, i)
  {
    forall k | 0 < k < i ensures after[k].end <= after[k - 1].start {
      assert after[k] == after[..i][k] == before[k] && after[k - 1] == after[..i][k - 1] == before[k - 1];
    }
  }

  // ------------------------------------------------------------------ splicing

  /** Nothing starts between `p` and `q`: the text there is copied. */
  lemma {:induction false} CopiedGap(s: string, hits: seq<Hit>, p: nat, q: nat)
    requires Within(s, hits) && p <= q <= |s|
    requires forall i | 0 <= i < |hits| :: !(p <= hits[i].start < q)
    ensures Substituted(s, hits, p) == s[p..q] + Substituted(s, hits, q)
    decreases q - p
  {
    hide Substituted;
    if p < q {
      StartsWithin(s, hits, p);
      NothingStarts(s, hits, p);
      CopiedGap(s, hits, p + 1, q);
      assert s[p..q] == [s[p]] + s[p + 1..q];
    }
  }

  lemma NothingStarts(s: string, hits: seq<Hit>, p: nat)
    requires Within(s, hits) && p < |s| && forall i | 0 <= i < |hits| :: hits[i].start != p
    ensures Substituted(s, hits, p) == [s[p]] + Substituted(s, hits, p + 1)
  {
    StartsWithin(s, hits, p);
  }

  lemma HitStarts(s: string, hits: seq<Hit>, i: nat)
    requires Within(s, hits) && Disjoint(hits) && i < |hits|
    ensures Substituted(s, hits, hits[i].start) == hits[i].rep + Substituted(s, hits, hits[i].end)
  {
    StartOf(s, hits, i);
  }

  /** Splicing the hits from the right to the left substitutes them all at once. */
  method Splice(logical: string, hits: seq<Hit>) returns (out: string)
    requires Within(logical, hits) && Disjoint(hits) && Descending(hits, |hits|)
    ensures out == Substituted(logical, hits, 0)
  {
    hide Substituted, Disjoint;
    out := logical;
    ghost var q := |logical|;
    assert Substituted(logical, hits, q) == "" by { NothingBehind(logical, hits); }
    for k := 0 to |hits|
      invariant q <= |logical| && q == if k == 0 then |logical| else hits[k - 1].start
      invariant out == logical[..q] + Substituted(logical, hits, q)
    {
      var h := hits[k];
      BehindTheNext(logical, hits, k);
      CopiedGap(logical, hits, h.end, q);
      HitStarts(logical, hits, k);
      assert out[h.end..] == logical[h.end..q] + Substituted(logical, hits, q);
      assert out[..h.start] == logical[..h.start];
      out := out[..h.start] + h.rep + out[h.end..];
      q := h.start;
    }
    assert forall i | 0 <= i < |hits| :: hits[i].start >= q;
    CopiedGap(logical, hits, 0, q);
  }

  lemma NothingBehind(s: string, hits: seq<Hit>)
    requires Within(s, hits)
    ensures Substituted(s, hits, |s|) == ""
  {
  }

  /** Between the end of one hit and the start of the one spliced before it nothing starts. */
  lemma BehindTheNext(s: string, hits: seq<Hit>, k: nat)
    requires Within(s, hits) && Disjoint(hits) && Descending(hits, |hits|) && k < |hits|
    ensures var q := if k == 0 then |s| else hits[k - 1].start;
      hits[k].end <= q && forall i | 0 <= i < |hits| :: !(hits[k].end <= hits[i].start < q)
  {
    if k > 0 { assert Apart(hits[k - 1], hits[k]); }
  }

  /** Substitution depends only on which hits there are, not on their order. */
  lemma {:induction false} OrderDoesNotMatter(s: string, hits: seq<Hit>, other: seq<Hit>, p: nat)
    requires Within(s, hits) && Disjoint(hits) && Within(s, other) && Disjoint(other) && p <= |s|
    requires SameSpans(hits, other)
    ensures Substituted(s, hits, p) == Substituted(s, other, p)
    decreases |s| - p
  {
    hide Disjoint, SameSpans, Within, Substituted, StartingAt;
    SubstitutedStep(s, hits, p);
    SubstitutedStep(s, other, p);
    if p < |s| {
      StartsWithin(s, hits, p);
      StartsWithin(s, other, p);
      SameStart(s, hits, other, p);
      var found := StartingAt(hits, p);
      if found.Found? {
        OrderDoesNotMatter(s, hits, other, found.hit.end);
      } else {
        OrderDoesNotMatter(s, hits, other, p + 1);
      }
    }
  }

  lemma SubstitutedStep(s: string, hits: seq<Hit>, p: nat)
    requires Within(s, hits) && p <= |s|
    ensures p < |s| && StartingAt(hits, p).Found? ==> p < StartingAt(hits, p).hit.end <= |s|
    ensures Substituted(s, hits, p) ==
      if p == |s| then ""
      else if StartingAt(hits, p).Found? then StartingAt(hits, p).hit.rep + Substituted(s, hits, StartingAt(hits, p).hit.end)
      else [s[p]] + Substituted(s, hits, p + 1)
  {
    StartsWithin(s, hits, p);
  }

  predicate SameSpan(a: Hit, b: Hit) { a.start == b.start && a.end == b.end && a.rep == b.rep }

  predicate HasSpan(hits: seq<Hit>, h: Hit) { exists j | 0 <= j < |hits| :: SameSpan(h, hits[j]) }

  predicate Includes(hits: seq<Hit>, other: seq<Hit>) { forall i | 0 <= i < |hits| :: HasSpan(other, hits[i]) }

  /** The same spans with the same replacements, whatever their order. */
  predicate SameSpans(hits: seq<Hit>, other: seq<Hit>) { Includes(hits, other) && Includes(other, hits) }

  lemma SameStart(s: string, hits: seq<Hit>, other: seq<Hit>, p: nat)
    requires Within(s, hits) && Disjoint(hits) && Within(s, other) && Disjoint(other) && SameSpans(hits, other)
    ensures StartingAt(hits, p).Found? == StartingAt(other, p).Found?
    ensures StartingAt(hits, p).Found? ==> SameSpan(StartingAt(hits, p).hit, StartingAt(other, p).hit)
  {
    StartFollows(s, hits, other, p);
    StartFollows(s, other, hits, p);
  }

  lemma StartFollows(s: string, hits: seq<Hit>, other: seq<Hit>, p: nat)
    requires Within(s, hits) && Within(s, other) && Disjoint(other) && Includes(hits, other)
    ensures StartingAt(hits, p).Found? ==>
      StartingAt(other, p).Found? && SameSpan(StartingAt(hits, p).hit, StartingAt(other, p).hit)
  {
    hide Disjoint;
    StartsWithin(s, hits, p);
    if StartingAt(hits, p).Found? {
      var i :| 0 <= i < |hits| && hits[i] == StartingAt(hits, p).hit;
      var j :| 0 <= j < |other| && SameSpan(hits[i], other[j]);
      StartOf(s, other, j);
    }
  }

  // ------------------------------------------------------------ what the text says

  /** Gaps and parts in turn, starting and ending with a gap. */
  function Interleave(gaps: seq<string>, parts: seq<string>): string
    requires |gaps| == |parts| + 1
  {
    if parts == [] then gaps[0] else gaps[0] + parts[0] + Interleave(gaps[1..], parts[1..])
  }

  predicate Indices(order: seq<nat>, n: nat) { forall k | 0 <= k < |order| :: order[k] < n }

  /** Each number below `n` once. */
  predicate OrderOf(order: seq<nat>, n: nat) { |order| == n && Indices(order, n) && forall i: nat | i < n :: i in order }

  function Finds(reps: seq<Replacement>, order: seq<nat>): (parts: seq<string>)
    requires Indices(order, |reps|)
    ensures |parts| == |order|
  {
    seq(|order|, k requires 0 <= k < |order| => reps[order[k]].find)
  }

  function Withs(reps: seq<Replacement>, order: seq<nat>): (parts: seq<string>)
    requires Indices(order, |reps|)
    ensures |parts| == |order|
  {
    seq(|order|, k requires 0 <= k < |order| => reps[order[k]].with)
  }

  /**
   In some order of the replacements the old text is their search texts between
   gaps, and the new text is their new texts between the same gaps.
   */
  ghost predicate Exchanges(before: string, after: string, reps: seq<Replacement>) {
    exists gaps, order :: ExchangesAt(before, after, reps, gaps, order)
  }

  predicate ExchangesAt(before: string, after: string, reps: seq<Replacement>, gaps: seq<string>, order: seq<nat>) {
    && OrderOf(order, |reps|) && |gaps| == |order| + 1
    && before == Interleave(gaps, Finds(reps, order)) && after == Interleave(gaps, Withs(reps, order))
  }

  /** The hits stand on the search texts and carry the new texts. */
  predicate Spells(s: string, hits: seq<Hit>, reps: seq<Replacement>)
    requires Within(s, hits)
  {
    |hits| == |reps| && forall i | 0 <= i < |hits| :: s[hits[i].start..hits[i].end] == reps[i].find && hits[i].rep == reps[i].with
  }

  lemma HitsSpell(s: string, reps: seq<Replacement>)
    requires AllUnique(s, reps)
    ensures Within(s, HitsOf(s, reps)) && Spells(s, HitsOf(s, reps), reps)
  {
    HitsAreWithin(s, reps);
    var hits := HitsOf(s, reps);
    forall i | 0 <= i < |hits| ensures s[hits[i].start..hits[i].end] == reps[i].find && hits[i].rep == reps[i].with {
      assert Unique(s, reps[i]);
      IndexIsFirst(s, reps[i].find);
      var start := Index(s, reps[i].find);
      assert s[start..][..|reps[i].find|] == s[start..start + |reps[i].find|];
    }
  }

  /** From a position on: the hits that start there or later, in the order of the text, each once. */
  predicate From(hits: seq<Hit>, p: nat, order: seq<nat>) {
    && Indices(order, |hits|)
    && (forall k, l | 0 <= k < l < |order| :: order[k] != order[l])
    && (forall i: nat | i < |hits| :: i in order <==> hits[i].start >= p)
  }

  lemma {:induction false} ExchangeFrom(s: string, hits: seq<Hit>, reps: seq<Replacement>, p: nat)
    returns (gaps: seq<string>, order: seq<nat>)
    requires Within(s, hits) && Disjoint(hits) && Spells(s, hits, reps) && p <= |s|
    ensures From(hits, p, order) && Indices(order, |reps|) && |gaps| == |order| + 1
    ensures s[p..] == Interleave(gaps, Finds(reps, order)) && Substituted(s, hits, p) == Interleave(gaps, Withs(reps, order))
    decreases |s| - p
  {
    hide Interleave, Substituted, Disjoint, Spells, From;
    SubstitutedStep(s, hits, p);
    if p == |s| {
      gaps, order := [""], [];
      NothingFrom(s, hits);
      InterleaveOne("", [], []);
      assert Finds(reps, []) == [] && Withs(reps, []) == [] && s[p..] == "";
    } else {
      StartsWithin(s, hits, p);
      if StartingAt(hits, p).Found? {
        var i: nat :| i < |hits| && hits[i] == StartingAt(hits, p).hit;
        var gaps', order' := ExchangeFrom(s, hits, reps, hits[i].end);
        gaps, order := [""] + gaps', [i] + order';
        FromHit(s, hits, p, i, order');
        SpelledAt(s, hits, reps, i);
        assert Indices(order, |reps|);
        InterleaveOne("", gaps', Finds(reps, order'));
        InterleaveOne("", gaps', Withs(reps, order'));
        assert Finds(reps, order) == [reps[i].find] + Finds(reps, order');
        assert Withs(reps, order) == [reps[i].with] + Withs(reps, order');
        assert s[p..] == s[p..hits[i].end] + s[hits[i].end..];
      } else {
        var gaps', order' := ExchangeFrom(s, hits, reps, p + 1);
        gaps, order := [[s[p]] + gaps'[0]] + gaps'[1..], order';
        FromNext(hits, p, order);
        LongerGap(s[p], gaps', Finds(reps, order));
        LongerGap(s[p], gaps', Withs(reps, order));
        assert s[p..] == [s[p]] + s[p + 1..];
      }
    }
  }

  lemma SpelledAt(s: string, hits: seq<Hit>, reps: seq<Replacement>, i: nat)
    requires Within(s, hits) && Spells(s, hits, reps) && i < |hits|
    ensures |hits| == |reps|
    ensures s[hits[i].start..hits[i].end] == reps[i].find && hits[i].rep == reps[i].with
  {
  }

  lemma NothingFrom(s: string, hits: seq<Hit>)
    requires Within(s, hits)
    ensures From(hits, |s|, [])
  {
  }

  lemma FromNext(hits: seq<Hit>, p: nat, order: seq<nat>)
    requires From(hits, p + 1, order) && forall i | 0 <= i < |hits| :: hits[i].start != p
    ensures From(hits, p, order)
  {
  }

  lemma FromHit(s: string, hits: seq<Hit>, p: nat, i: nat, order: seq<nat>)
    requires Within(s, hits) && Disjoint(hits) && i < |hits| && hits[i].start == p && From(hits, hits[i].end, order)
    ensures From(hits, p, [i] + order)
  {
    forall j: nat | j < |hits| ensures j in [i] + order <==> hits[j].start >= p {
      if j < i { assert Apart(hits[j], hits[i]); } else if i < j { assert Apart(hits[i], hits[j]); }
    }
    assert i !in order;
  }

  lemma InterleaveOne(gap: string, gaps: seq<string>, parts: seq<string>)
    ensures Interleave([gap], []) == gap
    ensures |gaps| == |parts| + 1 ==>
      forall part :: Interleave([gap] + gaps, [part] + parts) == gap + part + Interleave(gaps, parts)
  {
    if |gaps| == |parts| + 1 {
      forall part ensures Interleave([gap] + gaps, [part] + parts) == gap + part + Interleave(gaps, parts) {
        assert ([gap] + gaps)[1..] == gaps && ([part] + parts)[1..] == parts;
      }
    }
  }

  lemma LongerGap(c: char, gaps: seq<string>, parts: seq<string>)
    requires |gaps| == |parts| + 1
    ensures Interleave([[c] + gaps[0]] + gaps[1..], parts) == [c] + Interleave(gaps, parts)
  {
    assert ([[c] + gaps[0]] + gaps[1..])[1..] == gaps[1..];
  }

  function UpTo(n: nat): (r: set<nat>)
    ensures |r| == n && forall i: nat :: i in r <==> i < n
  {
    if n == 0 then {} else UpTo(n - 1) + {n - 1}
  }

  function Members(order: seq<nat>): set<nat> { set i | i in order }

  lemma {:induction false} CountDistinct(order: seq<nat>)
    requires forall k, l | 0 <= k < l < |order| :: order[k] != order[l]
    ensures |Members(order)| == |order|
  {
    if order != [] {
      var init, last := order[..|order| - 1], order[|order| - 1];
      CountDistinct(init);
      assert order == init + [last];
      assert last !in init;
      assert Members(order) == Members(init) + {last};
    }
  }

  /** Each number once, and all of them. */
  lemma DistinctAreAll(order: seq<nat>, n: nat)
    requires Indices(order, n) && forall k, l | 0 <= k < l < |order| :: order[k] != order[l]
    requires forall i: nat | i < n :: i in order
    ensures |order| == n
  {
    CountDistinct(order);
    assert Members(order) == UpTo(n);
  }

  /** Substituting all hits exchanges search texts for new texts and keeps everything between. */
  lemma SubstitutionExchanges(s: string, reps: seq<Replacement>)
    requires AllUnique(s, reps) && Disjoint(HitsOf(s, reps))
    ensures Within(s, HitsOf(s, reps)) && Exchanges(s, Substituted(s, HitsOf(s, reps), 0), reps)
  {
    hide Substituted, HitsOf, Disjoint, Interleave, AllUnique, Spells;
    HitsSpell(s, reps);
    var hits := HitsOf(s, reps);
    var gaps, order := ExchangeFrom(s, hits, reps, 0);
    DistinctAreAll(order, |reps|);
    assert s[0..] == s;
    assert ExchangesAt(s, Substituted(s, hits, 0), reps, gaps, order);
  }

  // ------------------------------------------------------------- the operation

  /** Why a replacement cannot be applied. */
  function Refusal(s: string, r: Replacement): Code
    requires !Unique(s, r)
  {
    if r.find == "" then InvalidInput else if Count(s, r.find) == 0 then MatchNotFound else MatchAmbiguous
  }

  /** Why a search text is refused: it is empty, does not occur, or occurs again behind its first occurrence. */
  ghost predicate ReasonIs(s: string, find: string, code: Code) {
    match code
    case InvalidInput => find == ""
    case MatchNotFound => find != "" && forall i: nat :: !OccursAt(s, find, i)
    case MatchAmbiguous => find != "" && exists i: nat, j: nat :: i + |find| <= j && OccursAt(s, find, i) && OccursAt(s, find, j)
  }

  lemma RefusalIsReason(s: string, r: Replacement)
    requires !Unique(s, r)
    ensures ReasonIs(s, r.find, Refusal(s, r))
  {
    if r.find != "" {
      IndexIsFirst(s, r.find);
      if Count(s, r.find) > 1 {
        CountBehindFirst(s, r.find);
        var i := Index(s, r.find);
        var behind := s[i + |r.find|..];
        IndexIsFirst(behind, r.find);
        var j := Index(behind, r.find);
        assert behind[j..] == s[i + |r.find| + j..];
        assert OccursAt(s, r.find, i + |r.find| + j);
      }
    }
  }

  lemma HitsAreWithin(s: string, reps: seq<Replacement>)
    requires AllUnique(s, reps)
    ensures Within(s, HitsOf(s, reps))
  {
    var hits := HitsOf(s, reps);
    forall i | 0 <= i < |hits| ensures hits[i].start < hits[i].end <= |s| { IndexIsFirst(s, reps[i].find); }
  }

  /** Collect the hits, or the first replacement that has none or more than one. */
  method CollectHits(logical: string, reps: seq<Replacement>) returns (refused: int, code: Code, hits: seq<Hit>)
    ensures refused < 0 <==> AllUnique(logical, reps)
    ensures refused < 0 ==> hits == HitsOf(logical, reps)
    ensures refused >= 0 ==>
      && refused < |reps| && !Unique(logical, reps[refused]) && code == Refusal(logical, reps[refused])
      && forall i | 0 <= i < refused :: Unique(logical, reps[i])
  {
    hide Count;
    hits, refused, code := [], -1, InvalidInput;
    for i := 0 to |reps|
      invariant AllUnique(logical, reps[..i]) && |hits| == i
      invariant forall k | 0 <= k < i :: Unique(logical, reps[k]) && hits[k] == HitOf(logical, reps[k], k)
    {
      var r := reps[i];
      if r.find == "" {
        return i, InvalidInput, hits;
      }
      var count := Count(logical, r.find);
      if count == 0 {
        return i, MatchNotFound, hits;
      } else if count == 1 {
        IndexIsFirst(logical, r.find);
        var start := Index(logical, r.find);
        hits := hits + [Hit(i, start, start + |r.find|, r.with)];
      } else {
        return i, MatchAmbiguous, hits;
      }
    }
  }

  /** The hit of this number overlaps another. */
  predicate Overlaps(hits: seq<Hit>, index: nat) {
    index < |hits| && exists k | 0 <= k < |hits| :: k != index && !Apart(hits[index], hits[k])
  }

  /** Two overlapping neighbours are two replacements that overlap. */
  lemma OverlapNamed(hits: seq<Hit>, sorted: seq<Hit>, i: nat)
    requires Rearranged(hits, sorted) && 0 < i < |sorted| && !Apart(sorted[i - 1], sorted[i])
    requires forall k | 0 <= k < |hits| :: hits[k].index == k
    ensures Overlaps(hits, sorted[i].index)
  {
    hide Disjoint, NonEmpty;
    assert sorted[i] in multiset(hits) && sorted[i - 1] in multiset(hits);
    var k :| 0 <= k < |hits| && hits[k] == sorted[i];
    var l :| 0 <= l < |hits| && hits[l] == sorted[i - 1];
    if k == l {
      TwiceInMultiset(sorted, i - 1, i);
      var a, b := RepeatedInPermutation(hits, sorted[i]);
    }
  }

  method ApplyReplacements(logical: string, reps: seq<Replacement>) returns (outcome: Outcome)
    ensures outcome.Edited? <==> AllUnique(logical, reps) && Disjoint(HitsOf(logical, reps))
    ensures outcome.Edited? ==> Within(logical, HitsOf(logical, reps))
    ensures outcome.Edited? ==> outcome.text == Substituted(logical, HitsOf(logical, reps), 0)
    ensures outcome.Edited? ==> Exchanges(logical, outcome.text, reps)
    ensures outcome.Rejected? && AllUnique(logical, reps) ==>
      outcome.code == InvalidInput && Overlaps(HitsOf(logical, reps), outcome.index)
    ensures !AllUnique(logical, reps) ==>
      && outcome.index < |reps| && !Unique(logical, reps[outcome.index])
      && outcome.code == Refusal(logical, reps[outcome.index])
      && ReasonIs(logical, reps[outcome.index].find, outcome.code)
      && forall i | 0 <= i < outcome.index :: Unique(logical, reps[i])
  {
    hide ReasonIs, Disjoint, Substituted, Unique, Rearranged, Descending, AllUnique, Refusal, Exchanges, Overlaps;
    var refused, code, collected := CollectHits(logical, reps);
    if refused >= 0 {
      RefusalIsReason(logical, reps[refused]);
      return Rejected(code, refused);
    }
    HitsAreWithin(logical, reps);
    var hits := new Hit[|collected|](i requires 0 <= i < |collected| => collected[i]);
    assert hits[..] == collected;
    WithinIsNonEmpty(logical, collected);
    var overlap := SortHits(hits);
    if overlap >= 0 {
      OverlapNamed(collected, hits[..], overlap);
      return Rejected(InvalidInput, hits[overlap].index);
    }
    SameDisjoint(collected, hits[..]);
    RearrangedIsSame(logical, collected, hits[..]);
    var out := Splice(logical, hits[..]);
    OrderDoesNotMatter(logical, collected, hits[..], 0);
    SubstitutionExchanges(logical, reps);
    outcome := Edited(out);
  }

  lemma WithinIsNonEmpty(s: string, hits: seq<Hit>)
    requires Within(s, hits)
    ensures NonEmpty(hits)
  {
  }

  lemma RearrangedIsSame(s: string, hits: seq<Hit>, other: seq<Hit>)
    requires Rearranged(hits, other) && Within(s, hits)
    ensures Within(s, other) && SameSpans(hits, other)
  {
    hide Disjoint, NonEmpty, Within, Includes;
    SameMembers(hits, other);
    SameMembers(other, hits);
    IncludesMembers(hits, other);
    IncludesMembers(other, hits);
    WithinMembers(s, hits, other);
  }

  lemma WithinMembers(s: string, hits: seq<Hit>, other: seq<Hit>)
    requires Within(s, hits) && forall i | 0 <= i < |other| :: other[i] in hits
    ensures Within(s, other)
  {
    forall i | 0 <= i < |other| ensures other[i].start < other[i].end <= |s| {
      var j :| 0 <= j < |hits| && hits[j] == other[i];
    }
  }

  lemma IncludesMembers(hits: seq<Hit>, other: seq<Hit>)
    requires forall i | 0 <= i < |hits| :: hits[i] in other
    ensures Includes(hits, other)
  {
    forall i | 0 <= i < |hits| ensures HasSpan(other, hits[i]) {
      var j :| 0 <= j < |other| && other[j] == hits[i];
      assert SameSpan(hits[i], other[j]);
    }
  }

  // -------------------------------------------------------------- permutations

  /** A value that a permutation repeats was repeated before. */
  lemma {:induction false} RepeatedInPermutation<T>(s: seq<T>, x: T) returns (i: nat, j: nat)
    requires multiset(s)[x] >= 2
    ensures i < j < |s| && s[i] == x == s[j]
  {
    var last := |s| - 1;
    assert s == s[..last] + [s[last]];
    if s[last] == x {
      assert x in multiset(s[..last]);
      i :| 0 <= i < last && s[..last][i] == x;
      j := last;
    } else {
      i, j := RepeatedInPermutation(s[..last], x);
    }
  }

  lemma TwiceInMultiset<T>(s: seq<T>, i: nat, j: nat)
    requires i < j < |s| && s[i] == s[j]
    ensures multiset(s)[s[i]] >= 2
  {
    assert s == s[..j] + [s[j]] + s[j + 1..];
    assert s[i] in s[..j] by { assert s[..j][i] == s[i]; }
    assert s[i] in multiset(s[..j]);
  }

  /** Any order of the same replacements succeeds with the same text. */
  lemma PermutedReplacementsAgree(s: string, reps: seq<Replacement>, other: seq<Replacement>)
    requires multiset(reps) == multiset(other)
    requires AllUnique(s, reps) && Disjoint(HitsOf(s, reps))
    ensures AllUnique(s, other) && Disjoint(HitsOf(s, other))
    ensures Within(s, HitsOf(s, reps)) && Within(s, HitsOf(s, other))
    ensures Substituted(s, HitsOf(s, other), 0) == Substituted(s, HitsOf(s, reps), 0)
  {
    hide Substituted, Count;
    SameMembers(reps, other);
    forall i | 0 <= i < |other| ensures Unique(s, other[i]) {
      var k :| 0 <= k < |reps| && reps[k] == other[i];
    }
    HitsAreWithin(s, reps);
    HitsAreWithin(s, other);
    PermutedIsDisjoint(s, reps, other);
    SameMembers(other, reps);
    IncludedHits(s, reps, other);
    IncludedHits(s, other, reps);
    OrderDoesNotMatter(s, HitsOf(s, reps), HitsOf(s, other), 0);
  }

  lemma SameMembers<T>(s: seq<T>, t: seq<T>)
    requires multiset(s) == multiset(t)
    ensures forall i | 0 <= i < |t| :: t[i] in s
  {
    forall i | 0 <= i < |t| ensures t[i] in s { assert t[i] in multiset(t); }
  }

  lemma IncludedHits(s: string, reps: seq<Replacement>, other: seq<Replacement>)
    requires AllUnique(s, reps) && AllUnique(s, other) && forall i | 0 <= i < |reps| :: reps[i] in other
    ensures Includes(HitsOf(s, reps), HitsOf(s, other))
  {
    hide Count;
    forall i | 0 <= i < |reps| ensures HasSpan(HitsOf(s, other), HitsOf(s, reps)[i]) {
      var j :| 0 <= j < |other| && other[j] == reps[i];
      assert SameSpan(HitsOf(s, reps)[i], HitsOf(s, other)[j]);
    }
  }

  lemma PermutedIsDisjoint(s: string, reps: seq<Replacement>, other: seq<Replacement>)
    requires multiset(reps) == multiset(other) && AllUnique(s, reps) && AllUnique(s, other)
    requires Disjoint(HitsOf(s, reps))
    ensures Disjoint(HitsOf(s, other))
  {
    hide Count;
    SameMembers(reps, other);
    HitsAreWithin(s, reps);
    var hits, moved := HitsOf(s, reps), HitsOf(s, other);
    forall i, j | 0 <= i < j < |moved| ensures Apart(moved[i], moved[j]) {
      var k: nat, l: nat;
      if other[i] == other[j] {
        TwiceInMultiset(other, i, j);
        k, l := RepeatedInPermutation(reps, other[i]);
      } else {
        k :| k < |reps| && reps[k] == other[i];
        l :| l < |reps| && reps[l] == other[j];
      }
      assert Apart(hits[if k < l then k else l], hits[if k < l then l else k]);
      assert SameSpan(moved[i], hits[k]) && SameSpan(moved[j], hits[l]);
    }
  }
}

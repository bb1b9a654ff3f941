/** Which of a sorted list of booked courts to give back.

    Courts with consecutive numbers stand next to each other, so a release should leave as few
    separate blocks of courts as possible.  The service drains the shortest block first, one court
    at a time and from its high end.  This module models that greedy loop and proves that no other
    choice of the same size leaves fewer blocks. */
module CourtSelection {

  import opened Basics

  // ---------------------------------------------------------------- vocabulary

  /** The courts at which a block of neighbouring courts begins. */
  ghost function Starts(courts: set<int>): set<int> {
    set x {:trigger x in courts} | x in courts && x - 1 !in courts
  }

  /** The number of maximal blocks of neighbouring courts. */
  ghost function Blocks(courts: set<int>): nat {
    |Starts(courts)|
  }

  ghost predicate Consecutive(g: seq<int>) {
    forall k :: 0 <= k < |g| ==> g[k] == g[0] + k
  }

  function Last(g: seq<int>): int
    requires g != []
  {
    g[|g| - 1]
  }

  function Init(g: seq<int>): seq<int>
    requires g != []
  {
    g[..|g| - 1]
  }

  ghost function Flatten(groups: seq<seq<int>>): seq<int> {
    if groups == [] then [] else Flatten(groups[..|groups| - 1]) + groups[|groups| - 1]
  }

  /** `groups` cuts `s` into its maximal runs of consecutive numbers. */
  ghost predicate AreRuns(groups: seq<seq<int>>, s: seq<int>) {
    && Flatten(groups) == s
    && (forall i :: 0 <= i < |groups| ==> groups[i] != [] && Consecutive(groups[i]))
    && (forall i :: 0 < i < |groups| ==> groups[i][0] != Last(groups[i - 1]) + 1)
  }

  // ---------------------------------------------------------------- cutting into runs

  /** The first `i` courts are cut into `groups` and the run under way. */
  ghost predicate CutSoFar(sorted: seq<int>, i: nat, groups: seq<seq<int>>, cur: seq<int>)
    requires i <= |sorted|
  {
    cur != [] && AreRuns(groups + [cur], sorted[..i])
  }

  lemma CutStarts(sorted: seq<int>)
    requires sorted != []
    ensures CutSoFar(sorted, 1, [], [sorted[0]])
  {
    SingleRun(sorted[0]);
    assert [] + [[sorted[0]]] == [[sorted[0]]] && sorted[..1] == [sorted[0]];
  }

  lemma CutNext(sorted: seq<int>, i: nat, groups: seq<seq<int>>, cur: seq<int>)
    requires i < |sorted| && CutSoFar(sorted, i, groups, cur)
    ensures if sorted[i] == Last(cur) + 1 then CutSoFar(sorted, i + 1, groups, cur + [sorted[i]])
            else CutSoFar(sorted, i + 1, groups + [cur], [sorted[i]])
  {
    RunsGrow(groups, cur, sorted[i], sorted[..i]);
    assert sorted[..i + 1] == sorted[..i] + [sorted[i]];
  }

  lemma CutDone(sorted: seq<int>, groups: seq<seq<int>>, cur: seq<int>)
    requires CutSoFar(sorted, |sorted|, groups, cur)
    ensures AreRuns(groups + [cur], sorted)
  {
    assert sorted[..|sorted|] == sorted;
  }

  method BuildConsecutiveGroups(sorted: seq<int>) returns (groups: seq<seq<int>>)
    ensures AreRuns(groups, sorted)
  {
    if sorted == [] {
      return [];
    }
    groups := [];
    var cur := [sorted[0]];
    CutStarts(sorted);
    for i := 1 to |sorted|
      invariant CutSoFar(sorted, i, groups, cur)
    {
      var v := sorted[i];
      CutNext(sorted, i, groups, cur);
      if v == Last(cur) + 1 {
        cur := cur + [v];
      } else {
        groups := groups + [cur];
        cur := [v];
      }
    }
    CutDone(sorted, groups, cur);
    groups := groups + [cur];
  }

  lemma SingleRun(v: int)
    ensures AreRuns([[v]], [v])
  {
    var runs := [[v]];
    assert runs[..0] == [] && runs[0] == [v];
    assert Consecutive(runs[0]);
  }

  /** How the cut changes when one more court is appended to the list. */
  lemma RunsGrow(groups: seq<seq<int>>, cur: seq<int>, v: int, s: seq<int>)
    requires cur != [] && AreRuns(groups + [cur], s)
    ensures v == Last(cur) + 1 ==> AreRuns(groups + [cur + [v]], s + [v])
    ensures v != Last(cur) + 1 ==> AreRuns(groups + [cur] + [[v]], s + [v])
  {
    if v == Last(cur) + 1 {
      LastRunReplaced(groups, cur, cur + [v], s);
      assert Flatten(groups) + (cur + [v]) == s + [v];
    } else {
      assert (groups + [cur])[|groups|] == cur;
      LastRunAdded(groups + [cur], [v], s);
    }
  }

  lemma LastRunReplaced(groups: seq<seq<int>>, cur: seq<int>, longer: seq<int>, s: seq<int>)
    requires cur != [] && cur <= longer && AreRuns(groups + [cur], s)
    ensures Consecutive(longer) ==> AreRuns(groups + [longer], Flatten(groups) + longer)
    ensures Consecutive(cur) && s == Flatten(groups) + cur
  {
    var prior, grown := groups + [cur], groups + [longer];
    assert prior[..|groups|] == groups && grown[..|groups|] == groups;
    assert forall i :: 0 <= i < |groups| ==> grown[i] == prior[i];
    assert prior[|groups|] == cur && grown[|groups|] == longer;
  }

  lemma LastRunAdded(groups: seq<seq<int>>, cur: seq<int>, s: seq<int>)
    requires groups != [] && groups[|groups| - 1] != [] && cur != [] && AreRuns(groups, s) && Consecutive(cur)
    ensures cur[0] != Last(groups[|groups| - 1]) + 1 ==> AreRuns(groups + [cur], s + cur)
  {
    var grown := groups + [cur];
    assert grown[..|groups|] == groups;
    assert forall i :: 0 <= i < |groups| ==> grown[i] == groups[i];
  }

  /** A list has only one cut into maximal runs. */
  lemma {:induction false} RunsUnique(a: seq<seq<int>>, b: seq<seq<int>>, s: seq<int>)
    requires AreRuns(a, s) && AreRuns(b, s)
    ensures a == b
    decreases |a|
  {
    FlattenNonEmpty(a);
    FlattenNonEmpty(b);
    if s != [] {
      LastRunNotLonger(a, b, s);
      LastRunNotLonger(b, a, s);
      DropLastRun(a, s);
      DropLastRun(b, s);
      RunsUnique(a[..|a| - 1], b[..|b| - 1], s[..|s| - |a[|a| - 1]|]);
      assert a == a[..|a| - 1] + [a[|a| - 1]] && b == b[..|b| - 1] + [b[|b| - 1]];
    }
  }

  lemma DropLastRun(a: seq<seq<int>>, s: seq<int>)
    requires AreRuns(a, s) && a != []
    ensures |a[|a| - 1]| <= |s|
    ensures var at := |s| - |a[|a| - 1]|; AreRuns(a[..|a| - 1], s[..at]) && a[|a| - 1] == s[at..]
  {
    var front, g := a[..|a| - 1], a[|a| - 1];
    assert s == Flatten(front) + g;
    forall i | 0 < i < |front| ensures front[i][0] != Last(front[i - 1]) + 1 {
      assert front[i] == a[i] && front[i - 1] == a[i - 1];
    }
  }

  lemma FlattenNonEmpty(a: seq<seq<int>>)
    requires forall i :: 0 <= i < |a| ==> a[i] != []
    ensures a != [] ==> Flatten(a) != []
  {
    if a != [] {
      assert a[|a| - 1] != [];
    }
  }

  lemma LastBoundary(a: seq<seq<int>>, s: seq<int>)
    requires AreRuns(a, s) && a != []
    ensures var at := |Flatten(a[..|a| - 1])|; 0 < at ==> s[at] != s[at - 1] + 1
  {
    var front := a[..|a| - 1];
    if front != [] {
      assert front[|front| - 1] == a[|a| - 2];
      assert s[|Flatten(front)|] == a[|a| - 1][0];
      assert s[|Flatten(front)| - 1] == Last(a[|a| - 2]);
    }
  }

  lemma LastRunNotLonger(a: seq<seq<int>>, b: seq<seq<int>>, s: seq<int>)
    requires AreRuns(a, s) && AreRuns(b, s) && s != []
    ensures a != [] && b != [] && |b[|b| - 1]| <= |a[|a| - 1]|
  {
    var la, lb := a[|a| - 1], b[|b| - 1];
    var at := |s| - |la|;
    assert at == |Flatten(a[..|a| - 1])|;
    if |la| < |lb| {
      var k := |lb| - |la|;
      assert lb[k] == s[at] && lb[k - 1] == s[at - 1];
      assert lb[k] == lb[k - 1] + 1;
      LastBoundary(a, s);
    }
  }

  // ---------------------------------------------------------------- the greedy drain

  /** The run the loop drains next: the shortest non-empty one, and of equally short ones the one
      with the lowest first court. */
  ghost predicate IsBest(groups: seq<seq<int>>, b: int) {
    && 0 <= b < |groups|
    && groups[b] != []
    && forall j :: 0 <= j < |groups| && groups[j] != [] ==> NotAfter(groups, b, j)
  }

  ghost predicate NotAfter(groups: seq<seq<int>>, b: int, j: int)
    requires 0 <= b < |groups| && 0 <= j < |groups| && groups[b] != [] && groups[j] != []
  {
    || |groups[b]| < |groups[j]|
    || (|groups[b]| == |groups[j]| && groups[b][0] < groups[j][0])
    || (|groups[b]| == |groups[j]| && groups[b][0] == groups[j][0] && b <= j)
  }

  /** Draining `groups` court by court yields `selected` in order and leaves `rest`. */
  ghost predicate Picks(groups: seq<seq<int>>, selected: seq<int>, rest: seq<seq<int>>)
    decreases |selected|
  {
    if selected == [] then rest == groups
    else exists mid, b ::
      && Picks(groups, Init(selected), mid)
      && IsBest(mid, b)
      && Last(selected) == Last(mid[b])
      && rest == mid[b := Init(mid[b])]
  }

  ghost predicate AllEmpty(groups: seq<seq<int>>) {
    forall i :: 0 <= i < |groups| ==> groups[i] == []
  }

  /** The specification of the selection: as many courts as asked for, or all of them, drained from
      the maximal runs in greedy order. */
  ghost predicate GreedySelection(sorted: seq<int>, n: int, selected: seq<int>) {
    && |selected| == (if n <= 0 then 0 else if n < |sorted| then n else |sorted|)
    && GreedyDrain(sorted, selected)
  }

  ghost predicate GreedyDrain(sorted: seq<int>, selected: seq<int>) {
    exists groups, rest :: AreRuns(groups, sorted) && Picks(groups, selected, rest)
  }

  method FindBest(groups: seq<seq<int>>) returns (best: int)
    ensures best == -1 ==> AllEmpty(groups)
    ensures best != -1 ==> IsBest(groups, best)
  {
    best := -1;
    for i := 0 to |groups|
      invariant best == -1 ==> forall j :: 0 <= j < i ==> groups[j] == []
      invariant best != -1 ==> 0 <= best < i && groups[best] != []
      invariant best != -1 ==> forall j :: 0 <= j < i && groups[j] != [] ==> NotAfter(groups, best, j)
    {
      var g := groups[i];
      if g == [] {
        continue;
      }
      if best == -1 {
        best := i;
        continue;
      }
      if |g| < |groups[best]| || (|g| == |groups[best]| && g[0] < groups[best][0]) {
        best := i;
      }
    }
  }

  method SelectCourtsToCancel(sortedCourtIDs: seq<int>, n: int) returns (selected: seq<int>)
    ensures GreedySelection(sortedCourtIDs, n, selected)
    ensures multiset(selected) <= multiset(sortedCourtIDs)
    ensures StrictlyIncreasing(sortedCourtIDs) ==> OptimalChoice(sortedCourtIDs, selected)
  {
    if n <= 0 || sortedCourtIDs == [] {
      selected := [];
      ghost var runs := BuildRuns(sortedCourtIDs);
      assert Picks(runs, selected, runs);
      DrainContract(sortedCourtIDs, runs, selected, runs);
      return;
    }
    var groups := BuildConsecutiveGroups(sortedCourtIDs);
    ghost var runs := groups;
    selected := [];
    while |selected| < n
      invariant |selected| <= n
      invariant Picks(runs, selected, groups)
      invariant |Flatten(groups)| + |selected| == |sortedCourtIDs|
      decreases |Flatten(groups)|
    {
      var best := FindBest(groups);
      if best == -1 {
        AllEmptyFlat(groups);
        break;
      }
      FlattenTake(groups, best);
      PicksStep(runs, selected, groups, best);
      var g := groups[best];
      selected, groups := selected + [Last(g)], groups[best := Init(g)];
    }
    DrainContract(sortedCourtIDs, runs, selected, groups);
  }

  lemma {:induction false} BuildRuns(s: seq<int>) returns (runs: seq<seq<int>>)
    ensures AreRuns(runs, s)
  {
    if s == [] {
      runs := [];
    } else if |s| == 1 {
      runs := [[s[0]]];
      SingleRun(s[0]);
    } else {
      var front := BuildRuns(Init(s));
      FlattenNonEmpty(front);
      var n, v := |front| - 1, Last(s);
      assert s == Init(s) + [v] && front == front[..n] + [front[n]];
      RunsGrow(front[..n], front[n], v, Init(s));
      runs := if v == Last(front[n]) + 1 then front[..n] + [front[n] + [v]] else front + [[v]];
    }
  }

  lemma {:induction false} AllEmptyFlat(groups: seq<seq<int>>)
    requires AllEmpty(groups)
    ensures Flatten(groups) == []
  {
    if groups != [] {
      AllEmptyFlat(groups[..|groups| - 1]);
    }
  }

  lemma {:induction false} FlattenConcat(a: seq<seq<int>>, b: seq<seq<int>>)
    ensures Flatten(a + b) == Flatten(a) + Flatten(b)
  {
    if b == [] {
      assert a + b == a;
    } else {
      var n := |b| - 1;
      FlattenConcat(a, b[..n]);
      assert (a + b)[..|a + b| - 1] == a + b[..n];
    }
  }

  lemma FlattenAround(front: seq<seq<int>>, g: seq<int>, tail: seq<seq<int>>)
    ensures Flatten(front + [g] + tail) == Flatten(front) + g + Flatten(tail)
  {
    FlattenConcat(front + [g], tail);
    FlattenConcat(front, [g]);
    assert [g][..0] == [];
  }

  lemma MultisetAround(a: seq<int>, g: seq<int>, c: seq<int>)
    ensures multiset(a + g + c) == multiset(a) + multiset(g) + multiset(c)
  {
  }

  /** Taking the last court of one run takes exactly that court out of the whole. */
  lemma FlattenTake(groups: seq<seq<int>>, b: int)
    requires 0 <= b < |groups| && groups[b] != []
    ensures multiset(Flatten(groups)) == multiset(Flatten(groups[b := Init(groups[b])])) + multiset{Last(groups[b])}
    ensures |Flatten(groups)| == |Flatten(groups[b := Init(groups[b])])| + 1
  {
    var front, g, tail := groups[..b], groups[b], groups[b + 1..];
    assert groups == front + [g] + tail;
    assert groups[b := Init(g)] == front + [Init(g)] + tail;
    FlattenAround(front, g, tail);
    FlattenAround(front, Init(g), tail);
    MultisetAround(Flatten(front), g, Flatten(tail));
    MultisetAround(Flatten(front), Init(g), Flatten(tail));
    assert g == Init(g) + [Last(g)];
  }

  lemma PicksStep(runs: seq<seq<int>>, selected: seq<int>, groups: seq<seq<int>>, b: int)
    requires Picks(runs, selected, groups) && IsBest(groups, b)
    ensures Picks(runs, selected + [Last(groups[b])], groups[b := Init(groups[b])])
  {
    var longer := selected + [Last(groups[b])];
    assert Init(longer) == selected && Last(longer) == Last(groups[b]);
  }

  // ---------------------------------------------------------------- shape of what is left

  /** Every run keeps a prefix of itself; at most one run is partly consumed; and no run that lost a
      court is longer than another run that still has one. */
  ghost predicate GreedyShape(runs: seq<seq<int>>, rest: seq<seq<int>>) {
    && |rest| == |runs|
    && (forall i :: 0 <= i < |runs| ==> rest[i] <= runs[i])
    && (forall i, j :: 0 <= i < |runs| && 0 <= j < |runs| && PartlyConsumed(runs[i], rest[i])
          && PartlyConsumed(runs[j], rest[j])
          ==> i == j)
    && (forall i, j :: 0 <= i < |runs| && 0 <= j < |runs| && i != j && rest[i] != runs[i] && rest[j] != [] ==>
          |runs[i]| <= |runs[j]|)
  }

  ghost predicate PartlyConsumed(run: seq<int>, left: seq<int>) {
    left != [] && left != run
  }

  lemma {:induction false} PicksShape(runs: seq<seq<int>>, selected: seq<int>, rest: seq<seq<int>>)
    requires Picks(runs, selected, rest)
    ensures GreedyShape(runs, rest)
    decreases |selected|
  {
    if selected != [] {
      var mid, b :| Picks(runs, Init(selected), mid) && IsBest(mid, b)
        && Last(selected) == Last(mid[b]) && rest == mid[b := Init(mid[b])];
      PicksShape(runs, Init(selected), mid);
      ShapeStep(runs, mid, b);
    }
  }

  /** The drain neither loses nor invents a court. */
  lemma {:induction false} PicksConserve(runs: seq<seq<int>>, selected: seq<int>, rest: seq<seq<int>>)
    requires Picks(runs, selected, rest)
    ensures multiset(Flatten(rest)) + multiset(selected) == multiset(Flatten(runs))
    decreases |selected|
  {
    if selected != [] {
      var mid, b :| Picks(runs, Init(selected), mid) && IsBest(mid, b)
        && Last(selected) == Last(mid[b]) && rest == mid[b := Init(mid[b])];
      PicksConserve(runs, Init(selected), mid);
      FlattenTake(mid, b);
      MultisetSnoc(selected);
    }
  }

  lemma MultisetSnoc(s: seq<int>)
    requires s != []
    ensures multiset(s) == multiset(Init(s)) + multiset{Last(s)}
  {
    assert s == Init(s) + [Last(s)];
  }

  lemma ShapeStep(runs: seq<seq<int>>, mid: seq<seq<int>>, b: int)
    requires GreedyShape(runs, mid) && IsBest(mid, b)
    ensures GreedyShape(runs, mid[b := Init(mid[b])])
  {
    var rest := mid[b := Init(mid[b])];
    forall i, j | 0 <= i < |runs| && 0 <= j < |runs| && i != j && rest[i] != runs[i] && rest[j] != []
      ensures |runs[i]| <= |runs[j]|
    {
      assert mid[j] != [];
      if i == b {
        assert NotAfter(mid, b, j);
        assert |mid[b]| <= |mid[j]| <= |runs[j]|;
      }
    }
    forall i, j | 0 <= i < |runs| && 0 <= j < |runs| && PartlyConsumed(runs[i], rest[i])
        && PartlyConsumed(runs[j], rest[j])
      ensures i == j
    {
      if i != j && i == b {
        NoOtherPartial(runs, mid, b, j);
      } else if i != j && j == b {
        NoOtherPartial(runs, mid, b, i);
      }
    }
  }

  lemma NoOtherPartial(runs: seq<seq<int>>, mid: seq<seq<int>>, b: int, q: int)
    requires GreedyShape(runs, mid) && IsBest(mid, b)
    requires 0 <= q < |runs| && q != b
    ensures !PartlyConsumed(runs[q], mid[q])
  {
    assert mid[q] != [] ==> NotAfter(mid, b, q);
    assert mid[q] != runs[q] && mid[b] != [] ==> |runs[q]| <= |runs[b]|;
  }

  // ---------------------------------------------------------------- counting against a threshold

  /** The courts of one run that a candidate set keeps. */
  ghost function KeptIn(keep: set<int>, run: seq<int>): set<int> {
    set x | x in run && x in keep
  }

  ghost function Kept(keep: set<int>, runs: seq<seq<int>>): nat {
    if runs == [] then 0 else Kept(keep, runs[..|runs| - 1]) + |KeptIn(keep, runs[|runs| - 1])|
  }

  /** The number of runs of which a candidate set keeps at least one court. */
  ghost function Touched(keep: set<int>, runs: seq<seq<int>>): nat {
    if runs == [] then 0
    else Touched(keep, runs[..|runs| - 1]) + (if KeptIn(keep, runs[|runs| - 1]) == {} then 0 else 1)
  }

  ghost function Live(rest: seq<seq<int>>): nat {
    if rest == [] then 0 else Live(rest[..|rest| - 1]) + (if rest[|rest| - 1] == [] then 0 else 1)
  }

  /** Charging each run in use the length `theta` of the pivot run `p`, no set of courts scores above
      what the greedy drain leaves, up to what the pivot already lost. */
  lemma {:induction false} ThresholdBound(runs: seq<seq<int>>, rest: seq<seq<int>>, keep: set<int>, p: int, theta: nat)
    requires |runs| == |rest|
    requires forall i :: 0 <= i < |runs| && i != p ==>
               (rest[i] == runs[i] && |runs[i]| >= theta) || (rest[i] == [] && |runs[i]| <= theta)
    requires 0 <= p < |runs| ==> |runs[p]| == theta && rest[p] != [] && |rest[p]| <= theta
    ensures Kept(keep, runs) - theta * Touched(keep, runs)
            <= |Flatten(rest)| - theta * Live(rest) + (if 0 <= p < |runs| then theta - |rest[p]| else 0)
  {
    if runs != [] {
      var n := |runs| - 1;
      ThresholdBound(runs[..n], rest[..n], keep, p, theta);
      KeptInBound(keep, runs[n]);
      assert theta * (Touched(keep, runs[..n]) + 1) == theta * Touched(keep, runs[..n]) + theta;
      assert theta * (Live(rest[..n]) + 1) == theta * Live(rest[..n]) + theta;
    }
  }

  lemma {:induction false} KeptInBound(keep: set<int>, run: seq<int>)
    ensures |KeptIn(keep, run)| <= |run|
  {
    if run != [] {
      KeptInBound(keep, Init(run));
      assert run == Init(run) + [Last(run)];
      assert KeptIn(keep, run) <= KeptIn(keep, Init(run)) + {Last(run)};
      CardSubset(KeptIn(keep, run), KeptIn(keep, Init(run)) + {Last(run)});
    }
  }

  // ---------------------------------------------------------------- blocks versus runs

  lemma {:induction false} FlattenSplit(groups: seq<seq<int>>, i: int) returns (tail: seq<int>)
    requires 0 <= i < |groups|
    ensures Flatten(groups) == Flatten(groups[..i]) + groups[i] + tail
  {
    var n := |groups| - 1;
    if i == n {
      tail := [];
    } else {
      var t := FlattenSplit(groups[..n], i);
      assert groups[..n][..i] == groups[..i];
      tail := t + groups[n];
    }
  }

  lemma HeadHasNoPredecessor(s: seq<int>, groups: seq<seq<int>>, i: int)
    requires StrictlyIncreasing(s) && AreRuns(groups, s) && 0 <= i < |groups|
    ensures groups[i][0] - 1 !in s
  {
    var tail := FlattenSplit(groups, i);
    var pos := |Flatten(groups[..i])|;
    assert s[pos] == groups[i][0];
    if i > 0 {
      var front := groups[..i];
      assert front[|front| - 1] == groups[i - 1];
      assert s[pos - 1] == Last(groups[i - 1]);
    }
  }

  /** A set that keeps some court of a run begins a block inside that run. */
  lemma RunHasStart(s: seq<int>, groups: seq<seq<int>>, i: int, keep: set<int>) returns (x: int)
    requires StrictlyIncreasing(s) && AreRuns(groups, s) && 0 <= i < |groups|
    requires keep <= Elems(s) && KeptIn(keep, groups[i]) != {}
    ensures x in groups[i] && x in Starts(keep)
  {
    var g := groups[i];
    var y :| y in KeptIn(keep, g);
    var k := y - g[0];
    assert Consecutive(g);
    while k > 0 && g[k - 1] in keep
      invariant 0 <= k < |g| && g[k] in keep
    {
      k := k - 1;
    }
    x := g[k];
    if k == 0 {
      HeadHasNoPredecessor(s, groups, i);
    }
  }

  /** A run that is touched contributes a start that no earlier run contains. */
  lemma NewStart(s: seq<int>, groups: seq<seq<int>>, i: int, keep: set<int>) returns (x: int)
    requires StrictlyIncreasing(s) && AreRuns(groups, s) && 0 <= i < |groups|
    requires keep <= Elems(s) && KeptIn(keep, groups[i]) != {}
    ensures x in groups[i] && x in Starts(keep) && x !in Flatten(groups[..i])
  {
    x := RunHasStart(s, groups, i, keep);
    EarlierRunsDisjoint(s, groups, i);
  }

  lemma EarlierRunsDisjoint(s: seq<int>, groups: seq<seq<int>>, i: int)
    requires StrictlyIncreasing(s) && Flatten(groups) == s && 0 <= i < |groups|
    ensures forall x | x in groups[i] :: x !in Flatten(groups[..i])
  {
    var tail := FlattenSplit(groups, i);
    PartsDisjoint(Flatten(groups[..i]), groups[i], tail);
  }

  lemma PartsDisjoint(front: seq<int>, g: seq<int>, tail: seq<int>)
    requires StrictlyIncreasing(front + g + tail)
    ensures forall x | x in g :: x !in front
  {
    var s := front + g + tail;
    forall m, k | 0 <= m < |front| && 0 <= k < |g| ensures front[m] != g[k] {
      assert s[m] == front[m] && s[|front| + k] == g[k];
    }
  }

  /** A set of courts has at least one block in every run it touches. */
  lemma {:induction false} TouchedAtMostBlocks(s: seq<int>, groups: seq<seq<int>>, n: nat, keep: set<int>)
    requires StrictlyIncreasing(s) && AreRuns(groups, s) && n <= |groups| && keep <= Elems(s)
    ensures Touched(keep, groups[..n]) <= |KeptIn(Starts(keep), Flatten(groups[..n]))|
  {
    if n > 0 {
      TouchedAtMostBlocks(s, groups, n - 1, keep);
      var front, g := Flatten(groups[..n - 1]), groups[n - 1];
      assert groups[..n][..n - 1] == groups[..n - 1];
      var earlier, now := KeptIn(Starts(keep), front), KeptIn(Starts(keep), front + g);
      if KeptIn(keep, g) == {} {
        CardSubset(earlier, now);
      } else {
        var x := NewStart(s, groups, n - 1, keep);
        CardSubset(earlier + {x}, now);
      }
    }
  }

  lemma {:induction false} KeptIsIntersection(s: seq<int>, groups: seq<seq<int>>, n: nat, keep: set<int>)
    requires StrictlyIncreasing(s) && Flatten(groups) == s && n <= |groups|
    ensures Kept(keep, groups[..n]) == |KeptIn(keep, Flatten(groups[..n]))|
  {
    if n > 0 {
      KeptIsIntersection(s, groups, n - 1, keep);
      assert groups[..n][..n - 1] == groups[..n - 1];
      EarlierRunsDisjoint(s, groups, n - 1);
      KeptInDisjoint(keep, Flatten(groups[..n - 1]), groups[n - 1]);
    }
  }

  lemma KeptInDisjoint(keep: set<int>, a: seq<int>, b: seq<int>)
    requires forall x | x in b :: x !in a
    ensures |KeptIn(keep, a + b)| == |KeptIn(keep, a)| + |KeptIn(keep, b)|
  {
    assert KeptIn(keep, a + b) == KeptIn(keep, a) + KeptIn(keep, b);
    assert KeptIn(keep, a) !! KeptIn(keep, b) by {
      forall x | x in KeptIn(keep, b) ensures x !in KeptIn(keep, a) {
        assert x in b;
      }
    }
  }

  lemma HeadOrFollows(g: seq<int>, x: int)
    requires Consecutive(g) && x in g
    ensures x == g[0] || x - 1 in g
  {
    var k :| 0 <= k < |g| && g[k] == x;
    assert k > 0 ==> g[k - 1] == x - 1;
  }

  /** What the drain leaves has at most one block for every run that is not used up. */
  lemma {:induction false} BlocksAtMostLive(rest: seq<seq<int>>) returns (heads: set<int>)
    requires forall i :: 0 <= i < |rest| ==> Consecutive(rest[i])
    ensures |heads| <= Live(rest)
    ensures forall x | x in Flatten(rest) :: x in heads || x - 1 in Flatten(rest)
  {
    if rest == [] {
      heads := {};
    } else {
      var n := |rest| - 1;
      var front := BlocksAtMostLive(rest[..n]);
      var g := rest[n];
      heads := if g == [] then front else front + {g[0]};
      forall x | x in Flatten(rest) ensures x in heads || x - 1 in Flatten(rest) {
        if x in g {
          HeadOrFollows(g, x);
        } else {
          assert x in Flatten(rest[..n]);
        }
      }
    }
  }

  // ---------------------------------------------------------------- optimality

  lemma SplitDistinct(s: seq<int>, a: seq<int>, b: seq<int>)
    requires StrictlyIncreasing(s) && multiset(a) + multiset(b) == multiset(s)
    ensures |Elems(a)| == |a| && |Elems(b)| == |b| && Elems(a) == Elems(s) - Elems(b) && Elems(b) <= Elems(s)
  {
    assert Distinct(s);
    SubMultisetDistinct(a, s);
    SubMultisetDistinct(b, s);
    ElemsCard(a);
    ElemsCard(b);
    DistinctIffOnce(s);
    forall x ensures x in s <==> (x in a || x in b) {
      assert x in multiset(s) <==> x in multiset(a) || x in multiset(b);
    }
    forall x | x in a ensures x !in b {
      assert multiset(s)[x] == multiset(a)[x] + multiset(b)[x];
      assert x in s && x in multiset(a);
    }
  }

  /** A pivot for the threshold argument: the partly consumed run, or else the shortest live one. */
  lemma FindPivot(runs: seq<seq<int>>, rest: seq<seq<int>>, alive: int) returns (p: int)
    requires GreedyShape(runs, rest) && 0 <= alive < |rest| && rest[alive] != []
    ensures 0 <= p < |runs| && rest[p] != []
    ensures forall i :: 0 <= i < |runs| && i != p ==>
              (rest[i] == runs[i] && |runs[i]| >= |runs[p]|) || (rest[i] == [] && |runs[i]| <= |runs[p]|)
  {
    if q :| 0 <= q < |runs| && PartlyConsumed(runs[q], rest[q]) {
      p := q;
    } else {
      p := alive;
      for k := 0 to |runs|
        invariant 0 <= p < |runs| && rest[p] != []
        invariant forall i :: 0 <= i < k && rest[i] != [] ==> |runs[p]| <= |runs[i]|
      {
        if rest[k] != [] && |runs[k]| < |runs[p]| {
          p := k;
        }
      }
      assert forall i :: 0 <= i < |runs| ==> !PartlyConsumed(runs[i], rest[i]);
    }
  }

  lemma ProductMonotone(theta: nat, a: int, b: int)
    requires a <= b
    ensures theta * a <= theta * b
  {
  }

  lemma ScoreComparison(kept: int, left: int, theta: nat, t: nat, m: nat, pivot: int)
    requires kept == left && 0 < pivot <= theta
    requires kept - theta * t <= left - theta * m + (theta - pivot)
    ensures m <= t
  {
    assert theta * (m - 1) == theta * m - theta;
    if t < m {
      ProductMonotone(theta, t, m - 1);
    }
  }

  /** Any set of as many courts as the drain leaves touches at least as many runs. */
  lemma TouchesAsManyRuns(runs: seq<seq<int>>, rest: seq<seq<int>>, keep: set<int>)
    requires GreedyShape(runs, rest)
    requires Kept(keep, runs) == |Flatten(rest)|
    ensures Live(rest) <= Touched(keep, runs)
  {
    if AllEmpty(rest) {
      NoneLive(rest);
    } else {
      var alive :| 0 <= alive < |rest| && rest[alive] != [];
      var p := FindPivot(runs, rest, alive);
      assert rest[p] <= runs[p];
      ThresholdBound(runs, rest, keep, p, |runs[p]|);
      ScoreComparison(Kept(keep, runs), |Flatten(rest)|, |runs[p]|, Touched(keep, runs), Live(rest), |rest[p]|);
    }
  }

  lemma {:induction false} NoneLive(rest: seq<seq<int>>)
    requires AllEmpty(rest)
    ensures Live(rest) == 0
  {
    if rest != [] {
      NoneLive(rest[..|rest| - 1]);
    }
  }

  /** Any set of as many courts as the drain leaves has at least one block per run still in use. */
  lemma KeepHasBlocks(s: seq<int>, runs: seq<seq<int>>, rest: seq<seq<int>>, keep: set<int>)
    requires StrictlyIncreasing(s) && AreRuns(runs, s) && GreedyShape(runs, rest)
    requires keep <= Elems(s) && |keep| == |Flatten(rest)|
    ensures Live(rest) <= Blocks(keep)
  {
    assert runs[..|runs|] == runs;
    KeptIsIntersection(s, runs, |runs|, keep);
    assert KeptIn(keep, s) == keep;
    TouchesAsManyRuns(runs, rest, keep);
    TouchedAtMostBlocks(s, runs, |runs|, keep);
    assert KeptIn(Starts(keep), s) == Starts(keep);
  }

  lemma DrainHasFewBlocks(runs: seq<seq<int>>, rest: seq<seq<int>>)
    requires GreedyShape(runs, rest) && forall i :: 0 <= i < |runs| ==> Consecutive(runs[i])
    ensures Blocks(Elems(Flatten(rest))) <= Live(rest)
  {
    forall i | 0 <= i < |rest| ensures Consecutive(rest[i]) {
      assert rest[i] <= runs[i] && Consecutive(runs[i]);
    }
    var heads := BlocksAtMostLive(rest);
    CardSubset(Starts(Elems(Flatten(rest))), heads);
  }

  /** `selected` names distinct courts of `s`, and no other choice of as many courts leaves fewer
      blocks of neighbouring courts. */
  ghost predicate OptimalChoice(s: seq<int>, selected: seq<int>) {
    && |Elems(selected)| == |selected|
    && Elems(selected) <= Elems(s)
    && forall other | other <= Elems(s) && |other| == |selected| ::
         Blocks(Elems(s) - Elems(selected)) <= Blocks(Elems(s) - other)
  }

  /** The optimality of the greedy drain. */
  lemma GreedyIsOptimal(s: seq<int>, runs: seq<seq<int>>, selected: seq<int>, rest: seq<seq<int>>)
    requires StrictlyIncreasing(s) && AreRuns(runs, s) && Picks(runs, selected, rest)
    ensures OptimalChoice(s, selected)
  {
    PicksShape(runs, selected, rest);
    PicksConserve(runs, selected, rest);
    SplitDistinct(s, Flatten(rest), selected);
    DrainHasFewBlocks(runs, rest);
    ElemsCard(s);
    forall other | other <= Elems(s) && |other| == |selected|
      ensures Blocks(Elems(s) - Elems(selected)) <= Blocks(Elems(s) - other)
    {
      KeepHasBlocks(s, runs, rest, Elems(s) - other);
    }
  }

  lemma DrainContract(s: seq<int>, runs: seq<seq<int>>, selected: seq<int>, rest: seq<seq<int>>)
    requires AreRuns(runs, s) && Picks(runs, selected, rest)
    ensures GreedyDrain(s, selected) && multiset(selected) <= multiset(s)
    ensures StrictlyIncreasing(s) ==> OptimalChoice(s, selected)
  {
    PicksConserve(runs, selected, rest);
    if StrictlyIncreasing(s) {
      GreedyIsOptimal(s, runs, selected, rest);
    }
  }

  /** The specification admits one answer only. */
  lemma BestUnique(groups: seq<seq<int>>, i: int, j: int)
    requires IsBest(groups, i) && IsBest(groups, j)
    ensures i == j
  {
    assert NotAfter(groups, i, j) && NotAfter(groups, j, i);
  }

  lemma LastPick(runs: seq<seq<int>>, selected: seq<int>, rest: seq<seq<int>>) returns (mid: seq<seq<int>>, b: int)
    requires selected != [] && Picks(runs, selected, rest)
    ensures Picks(runs, Init(selected), mid) && IsBest(mid, b)
    ensures selected == Init(selected) + [Last(mid[b])] && rest == mid[b := Init(mid[b])]
  {
    mid, b :| Picks(runs, Init(selected), mid) && IsBest(mid, b) && Last(selected) == Last(mid[b])
              && rest == mid[b := Init(mid[b])];
  }

  lemma {:induction false} PicksDeterministic(runs: seq<seq<int>>, a: seq<int>, ra: seq<seq<int>>, b: seq<int>,
      rb: seq<seq<int>>)
    requires Picks(runs, a, ra) && Picks(runs, b, rb) && |a| == |b|
    ensures a == b && ra == rb
    decreases |a|
  {
    if a != [] {
      var ma, i := LastPick(runs, a, ra);
      var mb, j := LastPick(runs, b, rb);
      PicksDeterministic(runs, Init(a), ma, Init(b), mb);
      BestUnique(ma, i, j);
    }
  }

  lemma SelectionUnique(sorted: seq<int>, n: int, a: seq<int>, b: seq<int>)
    requires GreedySelection(sorted, n, a) && GreedySelection(sorted, n, b)
    ensures a == b
  {
    var ga, ra :| AreRuns(ga, sorted) && Picks(ga, a, ra);
    var gb, rb :| AreRuns(gb, sorted) && Picks(gb, b, rb);
    RunsUnique(ga, gb, sorted);
    PicksDeterministic(ga, a, ra, b, rb);
  }
}

/** How the dashboard groups rows into experiments. */
module Grouping {
  import opened Rows
  import opened Sorting
  import opened Experiments
  import opened App

  /** Rows without an experiment have the empty key. */
  function ExperimentKey(run: Run): string {
    if run.experimentId == "" then ""
    else run.experimentId + "|" + run.operation + "|" + run.routeMode
  }

  /** The rows with a given key, in order. */
  function WithKey(runs: seq<Run>, key: string): seq<Run> {
    if runs == [] then []
    else
      var last := runs[|runs| - 1];
      WithKey(runs[..|runs| - 1], key) + if ExperimentKey(last) == key then [last] else []
  }

  /** Descending sample index. */
  const NEWEST_FIRST: Run -> real := (run: Run) => -(run.sampleIndex as real)

  /** The rows of one group as the dashboard shows them. */
  function GroupOf(runs: seq<Run>, key: string): seq<Run> {
    SortBy(NEWEST_FIRST, WithKey(runs, key))
  }

  /** The map holds exactly the non-empty groups of the rows read so far. */
  ghost predicate Filled(groups: map<string, seq<Run>>, runs: seq<Run>) {
    && (forall key :: key in groups <==> key != "" && WithKey(runs, key) != [])
    && (forall key :: key in groups ==> groups[key] == WithKey(runs, key))
  }

  lemma WithKeySnoc(runs: seq<Run>, run: Run, key: string)
    ensures WithKey(runs + [run], key) == WithKey(runs, key) + if ExperimentKey(run) == key then [run] else []
  {
    assert (runs + [run])[..|runs|] == runs;
  }

  lemma FilledSnoc(groups: map<string, seq<Run>>, runs: seq<Run>, run: Run)
    requires Filled(groups, runs)
    ensures var key := ExperimentKey(run);
            var before := if key in groups then groups[key] else [];
      && (key != "" ==> Filled(groups[key := before + [run]], runs + [run]))
      && (key == "" ==> Filled(groups, runs + [run]))
  {
    hide ExperimentKey, WithKey;
    var key := ExperimentKey(run);
    forall k: string
      ensures WithKey(runs + [run], k) == if k == key then WithKey(runs, k) + [run] else WithKey(runs, k)
    {
      WithKeySnoc(runs, run, k);
    }
  }

  /** One pass fills the map and the list of single rows; a second sorts each group. */
  method GroupRuns(runs: seq<Run>) returns (groups: map<string, seq<Run>>, singles: seq<Run>)
    ensures singles == WithKey(runs, "")
    ensures forall key :: key in groups <==> key != "" && WithKey(runs, key) != []
    ensures forall key :: key in groups ==> groups[key] == GroupOf(runs, key)
  {
    hide SortBy, WithKey;
    groups, singles := FillGroups(runs);
    groups := SortGroups(groups);
  }

  method FillGroups(runs: seq<Run>) returns (groups: map<string, seq<Run>>, singles: seq<Run>)
    ensures singles == WithKey(runs, "") && Filled(groups, runs)
  {
    hide ExperimentKey, WithKey, Filled;
    NothingFilled();
    groups, singles := map[], [];
    var i := 0;
    assert runs[..0] == [];
    while i < |runs|
      invariant 0 <= i <= |runs|
      invariant singles == WithKey(runs[..i], "") && Filled(groups, runs[..i])
    {
      assert runs[..i + 1] == runs[..i] + [runs[i]];
      groups, singles := AddRow(groups, singles, runs[i], runs[..i]);
      i := i + 1;
    }
    assert runs[..i] == runs;
  }

  lemma NothingFilled()
    ensures WithKey([], "") == [] && Filled(map[], [])
  {
  }

  method AddRow(groups: map<string, seq<Run>>, singles: seq<Run>, run: Run, ghost before: seq<Run>)
    returns (groups': map<string, seq<Run>>, singles': seq<Run>)
    requires singles == WithKey(before, "") && Filled(groups, before)
    ensures singles' == WithKey(before + [run], "") && Filled(groups', before + [run])
  {
    FilledSnoc(groups, before, run);
    WithKeySnoc(before, run, "");
    hide ExperimentKey, WithKey, Filled;
    groups', singles' := groups, singles;
    var key := ExperimentKey(run);
    if key == "" {
      singles' := singles + [run];
    } else if key !in groups {
      groups' := groups[key := [] + [run]];
    } else {
      groups' := groups[key := groups[key] + [run]];
    }
  }

  method SortGroups(groups: map<string, seq<Run>>) returns (sorted: map<string, seq<Run>>)
    ensures sorted.Keys == groups.Keys
    ensures forall key :: key in groups ==> sorted[key] == SortBy(NEWEST_FIRST, groups[key])
  {
    hide SortBy;
    sorted := groups;
    var left := groups.Keys;
    while left != {}
      invariant left <= groups.Keys == sorted.Keys
      invariant forall key :: key in groups ==>
                  sorted[key] == if key in left then groups[key] else SortBy(NEWEST_FIRST, groups[key])
      decreases |left|
    {
      var key :| key in left;
      var samples := sorted[key];
      var a := new Run[|samples|](k requires 0 <= k < |samples| => samples[k]);
      assert a[..] == samples;
      SortInPlace(NEWEST_FIRST, a);
      sorted := sorted[key := a[..]];
      left := left - {key};
    }
  }

  // ----- nothing is lost or shown twice

  lemma {:induction false} WithKeyCounts(runs: seq<Run>, key: string, x: Run)
    ensures multiset(WithKey(runs, key))[x] == if ExperimentKey(x) == key then multiset(runs)[x] else 0
    decreases |runs|
  {
    hide ExperimentKey;
    if runs != [] {
      var init, last := runs[..|runs| - 1], runs[|runs| - 1];
      WithKeyCounts(init, key, x);
      assert runs == init + [last];
      CountSnoc(init, last, x);
      CountSnoc(WithKey(init, key), last, x);
      assert WithKey(init, key) + [] == WithKey(init, key);
    }
  }

  lemma CountSnoc(s: seq<Run>, y: Run, x: Run)
    ensures multiset(s + [y])[x] == multiset(s)[x] + if x == y then 1 else 0
  {
  }

  /**
   Grouping partitions the rows: each row is found under its own key exactly as often as it occurs, and under no other.
   The empty key stands for the single rows.
   */
  lemma GroupsPartition(runs: seq<Run>, key: string, x: Run)
    ensures multiset(GroupOf(runs, key))[x] == if key == ExperimentKey(x) then multiset(runs)[x] else 0
  {
    hide ExperimentKey;
    SortBySorts(NEWEST_FIRST, WithKey(runs, key));
    WithKeyCounts(runs, key, x);
  }

  /** Within a group the sample index never increases, and rows with the same index keep the order they had. */
  lemma GroupsDescendStably(runs: seq<Run>, key: string, index: int)
    ensures forall i, j :: 0 <= i < j < |GroupOf(runs, key)| ==>
              GroupOf(runs, key)[i].sampleIndex >= GroupOf(runs, key)[j].sampleIndex
    ensures OfRank(NEWEST_FIRST, GroupOf(runs, key), -(index as real))
         == OfRank(NEWEST_FIRST, WithKey(runs, key), -(index as real))
  {
    hide ExperimentKey, SortBy, WithKey;
    SortBySorts(NEWEST_FIRST, WithKey(runs, key));
    SortByStable(NEWEST_FIRST, WithKey(runs, key), -(index as real));
    var g := GroupOf(runs, key);
    forall i, j | 0 <= i < j < |g|
      ensures g[i].sampleIndex >= g[j].sampleIndex
    {
      assert NEWEST_FIRST(g[i]) <= NEWEST_FIRST(g[j]);
    }
  }

  // ----- one experiment, operation and route per group

  /** On rows the server writes, equal keys mean the same experiment, operation and route. */
  lemma KeysSeparate(a: Run, b: Run)
    requires ValidKey(a) && ValidKey(b)
    ensures ExperimentKey(a) == ExperimentKey(b) <==>
              || (a.experimentId == "" && b.experimentId == "")
              || (a.experimentId, a.operation, a.routeMode) == (b.experimentId, b.operation, b.routeMode)
    ensures ExperimentKey(a) == "" <==> a.experimentId == ""
  {
    hide ValidExperimentId, ValidRouteMode;
    ValidatedHaveNoBar(a.experimentId, a.operation);
    ValidatedHaveNoBar(b.experimentId, b.operation);
    KeyText(a);
    KeyText(b);
    if ExperimentKey(a) == ExperimentKey(b) && a.experimentId != "" && b.experimentId != "" {
      JoinedEqual(a.experimentId, a.operation + "|" + a.routeMode, b.experimentId, b.operation + "|" + b.routeMode);
      JoinedEqual(a.operation, a.routeMode, b.operation, b.routeMode);
    }
  }

  lemma KeyText(a: Run)
    ensures a.experimentId != "" ==> ExperimentKey(a) == a.experimentId + "|" + (a.operation + "|" + a.routeMode)
    ensures ExperimentKey(a) == "" <==> a.experimentId == ""
  {
  }

  lemma {:induction false} WithKeyOnly(runs: seq<Run>, key: string, i: nat)
    requires i < |WithKey(runs, key)|
    ensures WithKey(runs, key)[i] in runs && ExperimentKey(WithKey(runs, key)[i]) == key
    decreases |runs|
  {
    hide ExperimentKey;
    var init := runs[..|runs| - 1];
    if i < |WithKey(init, key)| {
      WithKeyOnly(init, key, i);
    }
  }

  /** All rows of a group share one experiment, operation and route. */
  lemma GroupIsHomogeneous(runs: seq<Run>, key: string, i: nat, j: nat)
    requires ValidRows(runs) && key != ""
    requires i < |GroupOf(runs, key)| && j < |GroupOf(runs, key)|
    ensures var a, b := GroupOf(runs, key)[i], GroupOf(runs, key)[j];
      (a.experimentId, a.operation, a.routeMode) == (b.experimentId, b.operation, b.routeMode)
  {
    hide ExperimentKey, SortBy, WithKey, ValidKey;
    var a, b := GroupOf(runs, key)[i], GroupOf(runs, key)[j];
    GroupMember(runs, key, i);
    GroupMember(runs, key, j);
    KeysSeparate(a, b);
  }

  lemma GroupMember(runs: seq<Run>, key: string, i: nat)
    requires i < |GroupOf(runs, key)|
    ensures GroupOf(runs, key)[i] in runs && ExperimentKey(GroupOf(runs, key)[i]) == key
  {
    hide ExperimentKey, SortBy, WithKey;
    var s, g := WithKey(runs, key), GroupOf(runs, key);
    SortBySorts(NEWEST_FIRST, s);
    assert g[i] in multiset(g);
    assert g[i] in multiset(s);
    var k :| 0 <= k < |s| && s[k] == g[i];
    WithKeyOnly(runs, key, k);
  }
}

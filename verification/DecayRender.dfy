/**
 Choosing the tiers of a rendered history (crates/mc-module/src/decay_render.rs): the curve applied
 to the v2 rows, and the drift guard that demotes oldest-first until the body fits its budget.
 */
module DecayRender {
  import opened Decay
  import opened DecayBudget
  import opened DecayRuns
  import opened Wrappers

  // What tier selection reads of a compartment. A legacy row has flat content and is exempt from
  // the curve; hasUserLine says whether some line of the content starts with "U:".
  datatype Row = Row(importance: Option<int>, legacy: bool, hasUserLine: bool)

  function Importance(row: Row): int {
    if row.importance.Some? then row.importance.value else 50
  }

  function LegacyTier(row: Row): Tier {
    if row.hasUserLine then 3 else 4
  }

  // The history the curve sees: the v2 rows alone.
  function V2History(rows: seq<Row>): (history: seq<int>)
    ensures |history| == Rank(rows)
  {
    if rows == [] then []
    else
      var row := rows[|rows| - 1];
      V2History(rows[..|rows| - 1]) + (if row.legacy then [] else [Clamp(Importance(row), 1, 100)])
  }

  function Rank(rows: seq<Row>): (r: nat)
    ensures r <= |rows|
  {
    if rows == [] then 0
    else Rank(rows[..|rows| - 1]) + (if rows[|rows| - 1].legacy then 0 else 1)
  }

  lemma {:induction false} V2HistoryAt(rows: seq<Row>, i: nat)
    requires i < |rows| && !rows[i].legacy
    ensures Rank(rows[..i]) < Rank(rows)
    ensures V2History(rows)[Rank(rows[..i])] == Clamp(Importance(rows[i]), 1, 100)
    decreases |rows|
  {
    var shorter := rows[..|rows| - 1];
    if i < |rows| - 1 {
      V2HistoryAt(shorter, i);
      assert shorter[..i] == rows[..i];
    }
  }

  // Every v2 row gets the tier the curve gives it in the history without the legacy rows; legacy
  // rows neither move it nor contribute to the pressure.
  function RowTier(rows: seq<Row>, i: nat, budget: real): Tier
    requires i < |rows|
  {
    if rows[i].legacy then LegacyTier(rows[i])
    else
      V2HistoryAt(rows, i);
      TierInPass(V2History(rows), Rank(rows[..i]), budget, 0.0)
  }

  // at lists the positions of the v2 rows, oldest first.
  ghost predicate ListsV2(rows: seq<Row>, at: seq<nat>) {
    && (forall k :: 0 <= k < |at| ==> at[k] < |rows| && !rows[at[k]].legacy)
    && (forall j, k :: 0 <= j < k < |at| ==> at[j] < at[k])
    && (forall i: nat :: i < |rows| && !rows[i].legacy ==> i in at)
  }

  lemma PrefixV2(rows: seq<Row>, at: seq<nat>, n: nat, l: nat)
    requires ListsV2(rows, at) && n <= |rows| && l <= |at|
    requires (l < |at| ==> n <= at[l]) && (0 < l ==> at[l - 1] < n)
    ensures ListsV2(rows[..n], at[..l])
  {
    forall i: nat | i < n && !rows[..n][i].legacy
      ensures i in at[..l]
    {
      assert !rows[i].legacy && i in at;
      var k :| 0 <= k < |at| && at[k] == i;
      assert k < l;
      assert at[..l][k] == i;
    }
    forall k | 0 <= k < l
      ensures at[k] < n
    {
      assert at[k] <= at[l - 1];
    }
  }

  lemma {:induction false} Spread(rows: seq<Row>, at: seq<nat>, i: nat, j: nat)
    requires ListsV2(rows, at) && i <= j < |at|
    ensures at[i] + (j - i) <= at[j] < |rows|
  {
    if i < j {
      Spread(rows, at, i, j - 1);
      assert at[j - 1] < at[j];
    }
  }

  lemma AtMostAllRows(rows: seq<Row>, at: seq<nat>)
    requires ListsV2(rows, at)
    ensures |at| <= |rows|
  {
    if at != [] {
      Spread(rows, at, 0, |at| - 1);
    }
  }

  lemma {:induction false} RankTotal(rows: seq<Row>, at: seq<nat>)
    requires ListsV2(rows, at)
    ensures Rank(rows) == |at|
    decreases |rows|
  {
    AtMostAllRows(rows, at);
    if rows != [] {
      var n := |rows| - 1;
      assert Rank(rows) == Rank(rows[..n]) + (if rows[n].legacy then 0 else 1);
      hide Rank;
      if rows[n].legacy {
        assert forall k :: 0 <= k < |at| ==> at[k] != n;
        PrefixV2(rows, at, n, |at|);
        assert at[..|at|] == at;
        RankTotal(rows[..n], at);
      } else {
        assert n in at;
        var l :| 0 <= l < |at| && at[l] == n;
        Spread(rows, at, l, |at| - 1);
        PrefixV2(rows, at, n, l);
        RankTotal(rows[..n], at[..l]);
      }
    }
  }

  lemma RankOf(rows: seq<Row>, at: seq<nat>)
    requires ListsV2(rows, at)
    ensures Rank(rows) == |at|
    ensures forall k :: 0 <= k < |at| ==> Rank(rows[..at[k]]) == k
  {
    RankTotal(rows, at);
    forall k | 0 <= k < |at|
      ensures Rank(rows[..at[k]]) == k
    {
      PrefixV2(rows, at, at[k], k);
      RankTotal(rows[..at[k]], at[..k]);
    }
  }

  lemma {:induction false} ClampedCost(history: seq<int>, clamped: seq<int>, pressure: real)
    requires |history| == |clamped| && forall j :: 0 <= j < |history| ==> clamped[j] == Clamp(history[j], 1, 100)
    ensures RenderedCost(clamped, pressure) == RenderedCost(history, pressure)
  {
    if history != [] {
      ClampedImportance(|history|, history[0], pressure);
      hide RenderedTier, Clamp;
      ClampedCost(history[1..], clamped[1..], pressure);
    }
  }

  // A legacy row is tier 3 if it holds a user line and tier 4 otherwise, whatever the other rows.
  lemma LegacyRowTier(rows: seq<Row>, i: nat, budget: real)
    requires i < |rows| && rows[i].legacy
    ensures RowTier(rows, i, budget) == if rows[i].hasUserLine then 3 else 4
  {
  }

  // The k-th v2 row gets the tier it has in the history of the v2 rows' importances, 50 where none is
  // given; the legacy rows are as if they were not there.
  lemma V2RowTier(rows: seq<Row>, at: seq<nat>, history: seq<int>, k: nat, budget: real)
    requires ListsV2(rows, at) && |history| == |at| && k < |at|
    requires forall m :: 0 <= m < |at| ==>
               history[m] == match rows[at[m]].importance { case None => 50 case Some(v) => v }
    ensures RowTier(rows, at[k], budget) == TierInPass(history, k, budget, 0.0)
  {
    var clamped := V2History(rows);
    RankOf(rows, at);
    forall m | 0 <= m < |at|
      ensures clamped[m] == Clamp(history[m], 1, 100)
    {
      V2HistoryAt(rows, at[m]);
    }
    ClampedCost(history, clamped, 1.0);
    hide RenderedTier, RenderedCost, NaturalCost, Inputs, Clamp;
    NaturalIsRenderedAtOne(history);
    NaturalIsRenderedAtOne(clamped);
    ClampedImportance(|at| - k, history[k], HistoryPressure(history, budget));
  }

  // Where the v2 rows are, oldest first.
  method CollectV2(rows: seq<Row>) returns (v2Indices: seq<nat>)
    ensures |v2Indices| == Rank(rows)
    ensures forall k :: 0 <= k < |v2Indices| ==>
      v2Indices[k] < |rows| && !rows[v2Indices[k]].legacy && Rank(rows[..v2Indices[k]]) == k
    ensures forall m :: 0 <= m < |rows| && !rows[m].legacy ==> m in v2Indices
  {
    v2Indices := [];
    for i := 0 to |rows|
      invariant |v2Indices| == Rank(rows[..i])
      invariant forall k :: 0 <= k < |v2Indices| ==>
        v2Indices[k] < i && !rows[v2Indices[k]].legacy && Rank(rows[..v2Indices[k]]) == k
      invariant forall m :: 0 <= m < i && !rows[m].legacy ==> m in v2Indices
    {
      assert rows[..i + 1][..i] == rows[..i];
      if !rows[i].legacy {
        v2Indices := v2Indices + [i];
        assert v2Indices[|v2Indices| - 1] == i;
      }
    }
    assert rows[..|rows|] == rows;
  }

  // The curve index of every v2 row, and the inputs of the pressure computation.
  method CurveInputs(rows: seq<Row>, v2Indices: seq<nat>)
    returns (curveIndex: map<nat, nat>, inputs: seq<DecayInput>)
    requires |v2Indices| == Rank(rows)
    requires forall k :: 0 <= k < |v2Indices| ==>
      v2Indices[k] < |rows| && !rows[v2Indices[k]].legacy && Rank(rows[..v2Indices[k]]) == k
    ensures inputs == Inputs(V2History(rows))
    ensures forall i :: i in v2Indices ==> i in curveIndex
    ensures forall i :: i in curveIndex ==> i < |rows| && curveIndex[i] == Rank(rows) - Rank(rows[..i])
  {
    hide V2History, Rank, Inputs;
    ghost var expected := Inputs(V2History(rows));
    var v2Total := |v2Indices|;
    curveIndex, inputs := map[], [];
    for k := 0 to v2Total
      invariant |inputs| == k
      invariant forall m :: 0 <= m < k ==> inputs[m] == expected[m]
      invariant forall m :: 0 <= m < k ==> v2Indices[m] in curveIndex
      invariant forall i :: i in curveIndex ==> i < |rows| && curveIndex[i] == Rank(rows) - Rank(rows[..i])
    {
      var index := v2Indices[k];
      V2HistoryAt(rows, index);
      curveIndex := curveIndex[index := v2Total - k];
      inputs := inputs + [DecayInput(v2Total - k, Clamp(Importance(rows[index]), 1, 100))];
    }
  }

  method ComputeTiers(rows: seq<Row>, budget: real) returns (tiers: seq<Tier>)
    ensures |tiers| == |rows|
    ensures forall i :: 0 <= i < |rows| ==> tiers[i] == RowTier(rows, i, budget)
  {
    hide RenderedTier, NaturalCost, Inputs;
    var v2Indices := CollectV2(rows);
    var curveIndex, inputs := CurveInputs(rows, v2Indices);
    var pressure := 1.0;
    if 0.0 < budget {
      pressure := ComputeBudgetPressure(inputs, budget);
    }
    tiers := [];
    for i := 0 to |rows|
      invariant |tiers| == i
      invariant forall m :: 0 <= m < i ==> tiers[m] == RowTier(rows, m, budget)
    {
      if rows[i].legacy {
        tiers := tiers + [LegacyTier(rows[i])];
      } else {
        V2HistoryAt(rows, i);
        ClampedImportance(curveIndex[i], Importance(rows[i]), pressure);
        tiers := tiers + [RenderedTier(curveIndex[i], Importance(rows[i]), pressure, 0.0)];
      }
    }
  }

  lemma ClampedImportance(index: nat, importance: int, pressure: real)
    ensures RenderedTier(index, Clamp(importance, 1, 100), pressure, 0.0) ==
            RenderedTier(index, importance, pressure, 0.0)
  {
  }

  // ----- The drift guard -----

  predicate AllArchived(tiers: seq<Tier>) {
    forall i :: 0 <= i < |tiers| ==> tiers[i] == 5
  }

  // Demotes the oldest row that is not archived yet.
  function Demote(tiers: seq<Tier>): (r: seq<Tier>)
    ensures |r| == |tiers|
  {
    if tiers == [] then []
    else if tiers[0] < 5 then [tiers[0] + 1] + tiers[1..]
    else [tiers[0]] + Demote(tiers[1..])
  }

  // How many demotions are left before everything is archived.
  function Slack(tiers: seq<Tier>): nat {
    if tiers == [] then 0 else 5 - tiers[0] + Slack(tiers[1..])
  }

  lemma {:induction false} DemoteUsesSlack(tiers: seq<Tier>)
    ensures Slack(tiers) <= 4 * |tiers|
    ensures AllArchived(tiers) <==> Slack(tiers) == 0
    ensures !AllArchived(tiers) ==> Slack(Demote(tiers)) == Slack(tiers) - 1
  {
    if tiers != [] {
      DemoteUsesSlack(tiers[1..]);
      if tiers[0] < 5 {
        assert Demote(tiers)[1..] == tiers[1..];
      } else {
        assert Demote(tiers)[1..] == Demote(tiers[1..]);
        assert AllArchived(tiers[1..]) ==> AllArchived(tiers);
      }
    }
  }

  // A demotion moves the oldest row that is not archived by one tier, and no other.
  lemma {:induction false} DemoteInFields(tiers: seq<Tier>)
    ensures (forall i :: 0 <= i < |tiers| ==> tiers[i] == 5) ==> Demote(tiers) == tiers
    ensures forall c :: 0 <= c < |tiers| && tiers[c] < 5 && (forall i :: 0 <= i < c ==> tiers[i] == 5) ==>
              Demote(tiers) == tiers[c := tiers[c] + 1]
  {
    if forall i :: 0 <= i < |tiers| ==> tiers[i] == 5 {
      DemoteOfArchived(tiers);
    }
    forall c | 0 <= c < |tiers| && tiers[c] < 5 && (forall i :: 0 <= i < c ==> tiers[i] == 5)
      ensures Demote(tiers) == tiers[c := tiers[c] + 1]
    {
      DemoteAt(tiers, c);
    }
  }

  lemma {:induction false} DemoteAt(tiers: seq<Tier>, c: nat)
    requires c < |tiers| && tiers[c] < 5 && AllArchived(tiers[..c])
    ensures Demote(tiers) == tiers[c := tiers[c] + 1]
  {
    if c > 0 {
      assert tiers[0] == tiers[..c][0];
      assert AllArchived(tiers[1..][..c - 1]) by {
        assert tiers[1..][..c - 1] == tiers[..c][1..];
      }
      DemoteAt(tiers[1..], c - 1);
    }
  }

  // Rendering and the token estimator are parameters: estimate gives the tokens of the body that a
  // choice of tiers renders to. A budget of zero or less disables the guard.
  predicate Fits(tiers: seq<Tier>, budget: real, estimate: seq<Tier> -> nat) {
    budget <= 0.0 || estimate(tiers) as real <= budget
  }

  // Demoting oldest-first until the body fits or nothing is left to demote.
  function Settled(tiers: seq<Tier>, budget: real, estimate: seq<Tier> -> nat): seq<Tier>
    decreases Slack(tiers)
  {
    if Fits(tiers, budget, estimate) || AllArchived(tiers) then tiers
    else
      DemoteUsesSlack(tiers);
      Settled(Demote(tiers), budget, estimate)
  }

  method DemoteOldest(tiers: array<Tier>) returns (demoted: bool)
    modifies tiers
    ensures demoted <==> !AllArchived(old(tiers[..]))
    ensures demoted ==> tiers[..] == Demote(old(tiers[..]))
    ensures !demoted ==> tiers[..] == old(tiers[..])
  {
    ghost var before := tiers[..];
    for i := 0 to tiers.Length
      invariant tiers[..] == before
      invariant AllArchived(before[..i])
    {
      if tiers[i] < 5 {
        DemoteAt(before, i);
        assert before[i] < 5;
        tiers[i] := tiers[i] + 1;
        return true;
      }
      assert before[..i + 1] == before[..i] + [5];
    }
    assert before[..tiers.Length] == before;
    demoted := false;
  }

  // The source bounds its loop by five iterations per compartment; the postcondition has no such
  // bound, so the counter never cuts the demotion short.
  lemma SettledStep(tiers: seq<Tier>, budget: real, estimate: seq<Tier> -> nat)
    ensures Slack(tiers) <= 4 * |tiers|
    ensures Slack(tiers) == 0 ==> AllArchived(tiers)
    ensures Fits(tiers, budget, estimate) || AllArchived(tiers) ==> Settled(tiers, budget, estimate) == tiers
    ensures !Fits(tiers, budget, estimate) && !AllArchived(tiers) ==>
              && Slack(Demote(tiers)) == Slack(tiers) - 1
              && Settled(tiers, budget, estimate) == Settled(Demote(tiers), budget, estimate)
  {
    DemoteUsesSlack(tiers);
  }

  method DemoteUntilFits(tiers: array<Tier>, budget: real, estimate: seq<Tier> -> nat)
    modifies tiers
    ensures tiers[..] == Settled(old(tiers[..]), budget, estimate)
  {
    hide Settled, Slack, Demote, AllArchived;
    ghost var result := Settled(tiers[..], budget, estimate);
    var tokens := estimate(tiers[..]);
    var guard := tiers.Length * 5;
    SettledStep(tiers[..], budget, estimate);
    while 0.0 < budget && budget < tokens as real && 0 < guard
      invariant tokens == estimate(tiers[..])
      invariant Slack(tiers[..]) <= guard
      invariant Settled(tiers[..], budget, estimate) == result
      decreases guard
    {
      SettledStep(tiers[..], budget, estimate);
      var demoted := DemoteOldest(tiers);
      if !demoted {
        break;
      }
      tokens := estimate(tiers[..]);
      guard := guard - 1;
    }
    SettledStep(tiers[..], budget, estimate);
  }

  ghost function DemoteBy(tiers: seq<Tier>, steps: nat): (r: seq<Tier>)
    ensures |r| == |tiers|
    decreases steps
  {
    if steps == 0 then tiers else DemoteBy(Demote(tiers), steps - 1)
  }

  // The result fits or is empty, and it is the first to do so: no smaller number of oldest-first
  // demotions would have been enough.
  lemma {:induction false} SettledIsFirstFit(tiers: seq<Tier>, budget: real, estimate: seq<Tier> -> nat)
    returns (steps: nat)
    ensures Settled(tiers, budget, estimate) == DemoteBy(tiers, steps)
    ensures budget <= 0.0 ==> steps == 0
    ensures 0.0 < budget ==> estimate(DemoteBy(tiers, steps)) as real <= budget ||
                             forall i :: 0 <= i < |tiers| ==> DemoteBy(tiers, steps)[i] == 5
    ensures forall k :: 0 <= k < steps ==> budget < estimate(DemoteBy(tiers, k)) as real
    ensures steps <= Slack(tiers)
    decreases Slack(tiers)
  {
    if Fits(tiers, budget, estimate) || AllArchived(tiers) {
      steps := 0;
    } else {
      DemoteUsesSlack(tiers);
      var rest := SettledIsFirstFit(Demote(tiers), budget, estimate);
      steps := rest + 1;
      forall k | 0 <= k < steps
        ensures budget < estimate(DemoteBy(tiers, k)) as real
      {
        if k > 0 {
          assert DemoteBy(tiers, k) == DemoteBy(Demote(tiers), k - 1);
        }
      }
    }
  }

  // Demotion is strictly oldest-first: behind the cut everything is archived, past it nothing has
  // changed, and the row at the cut is demoted at most.
  ghost predicate CutAt(tiers: seq<Tier>, r: seq<Tier>, cut: nat) {
    && |r| == |tiers|
    && (forall i :: 0 <= i < |tiers| && i < cut ==> r[i] == 5)
    && (forall i :: 0 <= i < |tiers| && cut < i ==> r[i] == tiers[i])
    && (cut < |tiers| ==> tiers[cut] <= r[cut])
  }

  lemma {:induction false} DemoteAdvancesCut(tiers: seq<Tier>, r: seq<Tier>, cut: nat) returns (cut': nat)
    requires CutAt(tiers, r, cut)
    ensures CutAt(tiers, Demote(r), cut')
  {
    cut' := cut;
    while cut' < |r| && r[cut'] == 5
      invariant CutAt(tiers, r, cut')
      decreases |r| - cut'
    {
      cut' := cut' + 1;
    }
    if cut' < |r| {
      DemoteAt(r, cut');
    } else {
      assert AllArchived(r);
      DemoteOfArchived(r);
    }
  }

  lemma {:induction false} DemoteOfArchived(tiers: seq<Tier>)
    requires AllArchived(tiers)
    ensures Demote(tiers) == tiers
  {
    if tiers != [] {
      DemoteOfArchived(tiers[1..]);
    }
  }

  lemma {:induction false} SettledIsOldestFirst(
      tiers: seq<Tier>, r: seq<Tier>, budget: real, estimate: seq<Tier> -> nat, cut: nat) returns (cut': nat)
    requires CutAt(tiers, r, cut)
    ensures CutAt(tiers, Settled(r, budget, estimate), cut')
    decreases Slack(r)
  {
    cut' := cut;
    if !Fits(r, budget, estimate) && !AllArchived(r) {
      DemoteUsesSlack(r);
      cut' := DemoteAdvancesCut(tiers, r, cut);
      cut' := SettledIsOldestFirst(tiers, Demote(r), budget, estimate, cut');
    }
  }
}

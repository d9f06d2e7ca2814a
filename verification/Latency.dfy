/**
 Nearest-rank percentiles and the cold/warm split of embedding timings
 (scripts/ctx-search-benchmark.ts), before display rounding.
 */
module Latency {
  import opened StableSort
  import opened Wrappers

  datatype Sample = Sample(project: string, milliseconds: real, ok: bool)

  function Ceil(x: real): int {
    -((-x).Floor)
  }

  function Identity(v: real): real {
    v
  }

  function Ascending(values: seq<real>): seq<real> {
    SortBy(values, Identity)
  }

  // The source looks up the sorted sample at this index; outside (0, 1] there is none.
  function NearestRank(quantile: real, n: nat): (i: int)
    ensures 0.0 < quantile <= 1.0 && 0 < n ==> 0 <= i < n && i as real < quantile * n as real <= (i + 1) as real
  {
    var x := quantile * n as real;
    assert 0.0 < quantile <= 1.0 && 0 < n ==> 0.0 < x <= n as real;
    Ceil(x) - 1
  }

  function Percentile(values: seq<real>, quantile: real): Option<real>
    requires 0.0 < quantile <= 1.0
  {
    if values == [] then None
    else
      SortOrders(values, Identity);
      Some(Ascending(values)[NearestRank(quantile, |values|)])
  }

  function CountAtMost(values: seq<real>, v: real): nat {
    if values == [] then 0 else (if values[0] <= v then 1 else 0) + CountAtMost(values[1..], v)
  }

  lemma {:induction false} InsertCounts(x: real, s: seq<real>, v: real)
    ensures CountAtMost(Insert(x, s, Identity), v) == (if x <= v then 1 else 0) + CountAtMost(s, v)
  {
    if s == [] || x <= s[0] {
      assert Insert(x, s, Identity) == [x] + s && ([x] + s)[1..] == s;
    } else {
      InsertCounts(x, s[1..], v);
      assert Insert(x, s, Identity)[1..] == Insert(x, s[1..], Identity);
    }
  }

  lemma {:induction false} SortCounts(values: seq<real>, v: real)
    ensures CountAtMost(Ascending(values), v) == CountAtMost(values, v)
  {
    if values != [] {
      SortCounts(values[1..], v);
      InsertCounts(values[0], Ascending(values[1..]), v);
    }
  }

  // In an ordered sequence the count splits at any position.
  lemma {:induction false} OrderedCount(s: seq<real>, i: nat, v: real)
    requires Ordered(s, Identity) && i < |s|
    ensures s[i] <= v ==> i + 1 <= CountAtMost(s, v)
    ensures v < s[i] ==> CountAtMost(s, v) <= i
    decreases |s|
  {
    if i == 0 {
      if v < s[0] {
        NoneAtMost(s, v);
      }
    } else {
      assert s[0] <= s[i];
      OrderedCount(s[1..], i - 1, v);
    }
  }

  lemma {:induction false} NoneAtMost(s: seq<real>, v: real)
    requires forall i :: 0 <= i < |s| ==> v < s[i]
    ensures CountAtMost(s, v) == 0
  {
    if s != [] {
      NoneAtMost(s[1..], v);
    }
  }

  lemma PositionIsLeast(values: seq<real>, i: nat)
    requires i < |values|
    ensures |Ascending(values)| == |values|
    ensures var v := Ascending(values)[i];
            && v in values && i + 1 <= CountAtMost(values, v)
            && forall w :: w < v ==> CountAtMost(values, w) <= i
  {
    SortOrders(values, Identity);
    SortKeepsElements(values, Identity);
    var sorted := Ascending(values);
    var v := sorted[i];
    assert v in multiset(sorted);
    SortCounts(values, v);
    OrderedCount(sorted, i, v);
    forall w | w < v
      ensures CountAtMost(values, w) <= i
    {
      SortCounts(values, w);
      OrderedCount(sorted, i, w);
    }
  }

  // The picked value is the least sample that at least quantile * n samples do not exceed.
  lemma PercentileIsLeast(values: seq<real>, quantile: real)
    requires 0.0 < quantile <= 1.0 && values != []
    ensures var v := Percentile(values, quantile).value;
            && v in values
            && quantile * |values| as real <= CountAtMost(values, v) as real
            && forall w :: w < v ==> (CountAtMost(values, w) as real) < quantile * |values| as real
  {
    hide CountAtMost, Ascending;
    PositionIsLeast(values, NearestRank(quantile, |values|));
  }

  // ----- Cold and warm samples -----

  function Projects(samples: seq<Sample>): set<string> {
    set s | s in samples :: s.project
  }

  // The first sample of each project, and all the others, in order.
  function Cold(samples: seq<Sample>): seq<real> {
    if samples == [] then []
    else
      var earlier, s := samples[..|samples| - 1], samples[|samples| - 1];
      Cold(earlier) + (if s.project in Projects(earlier) then [] else [s.milliseconds])
  }

  function Warm(samples: seq<Sample>): seq<real> {
    if samples == [] then []
    else
      var earlier, s := samples[..|samples| - 1], samples[|samples| - 1];
      Warm(earlier) + (if s.project in Projects(earlier) then [s.milliseconds] else [])
  }

  datatype Summary = Summary(n: nat, p50: Option<real>, p95: Option<real>)

  function Summarize(values: seq<real>): Summary {
    Summary(|values|, Percentile(values, 0.5), Percentile(values, 0.95))
  }

  function Succeeded(samples: seq<Sample>): nat {
    if samples == [] then 0
    else Succeeded(samples[..|samples| - 1]) + (if samples[|samples| - 1].ok then 1 else 0)
  }

  lemma {:induction false} SucceededCounts(samples: seq<Sample>)
    ensures Succeeded(samples) == |set i: nat | i < |samples| && samples[i].ok|
  {
    var all := set i: nat | i < |samples| && samples[i].ok;
    if samples == [] {
      assert all == {};
    } else {
      var n := |samples| - 1;
      var earlier := set i: nat | i < n && samples[..n][i].ok;
      SucceededCounts(samples[..n]);
      assert earlier == set i: nat | i < n && samples[i].ok;
      assert all == earlier + (if samples[n].ok then {n} else {});
    }
  }

  method LatencySummary(samples: seq<Sample>) returns (totalN: nat, succeeded: nat, cold: Summary, warm: Summary)
    ensures totalN == |samples| && succeeded == |set i: nat | i < |samples| && samples[i].ok|
    ensures cold == Summary(|Cold(samples)|, Percentile(Cold(samples), 0.5), Percentile(Cold(samples), 0.95))
    ensures warm == Summary(|Warm(samples)|, Percentile(Warm(samples), 0.5), Percentile(Warm(samples), 0.95))
  {
    assert samples[..0] == [];
    assert Projects([]) == {} && Cold([]) == [] && Warm([]) == [];
    hide Projects, Cold, Warm, Succeeded, Percentile;
    var firstByProject: set<string> := {};
    var coldTimes: seq<real>, warmTimes: seq<real> := [], [];
    for i := 0 to |samples|
      invariant firstByProject == Projects(samples[..i])
      invariant coldTimes == Cold(samples[..i]) && warmTimes == Warm(samples[..i])
    {
      var sample := samples[i];
      AppendSample(samples[..i], sample);
      assert samples[..i + 1] == samples[..i] + [sample];
      if sample.project !in firstByProject {
        firstByProject := firstByProject + {sample.project};
        coldTimes := coldTimes + [sample.milliseconds];
      } else {
        warmTimes := warmTimes + [sample.milliseconds];
      }
    }
    assert samples[..|samples|] == samples;
    SucceededCounts(samples);
    totalN, succeeded := |samples|, Succeeded(samples);
    cold, warm := Summarize(coldTimes), Summarize(warmTimes);
  }

  lemma AppendSample(samples: seq<Sample>, s: Sample)
    ensures Projects(samples + [s]) == Projects(samples) + {s.project}
    ensures Cold(samples + [s]) == Cold(samples) + (if s.project in Projects(samples) then [] else [s.milliseconds])
    ensures Warm(samples + [s]) == Warm(samples) + (if s.project in Projects(samples) then [s.milliseconds] else [])
  {
    assert (samples + [s])[..|samples|] == samples;
    forall p
      ensures p in Projects(samples + [s]) <==> p in Projects(samples) + {s.project}
    {
      if p in Projects(samples) {
        var x :| x in samples && x.project == p;
        assert x in samples + [s];
      }
      if p == s.project {
        assert s in samples + [s];
      }
    }
  }

  // A sample is cold when no earlier one has its project.
  predicate IsCold(samples: seq<Sample>, i: nat)
    requires i < |samples|
  {
    forall j :: 0 <= j < i ==> samples[j].project != samples[i].project
  }

  ghost predicate ListsExactly(positions: seq<nat>, samples: seq<Sample>, cold: bool) {
    && (forall j, k :: 0 <= j < k < |positions| ==> positions[j] < positions[k])
    && (forall i: nat :: i in positions <==> i < |samples| && IsCold(samples, i) == cold)
  }

  ghost predicate AreTimesAt(times: seq<real>, samples: seq<Sample>, positions: seq<nat>) {
    && |times| == |positions|
    && forall k :: 0 <= k < |times| ==> positions[k] < |samples| && times[k] == samples[positions[k]].milliseconds
  }

  lemma InProjects(samples: seq<Sample>, project: string)
    ensures project in Projects(samples) <==> exists i :: 0 <= i < |samples| && samples[i].project == project
  {
    if i :| 0 <= i < |samples| && samples[i].project == project {
      assert samples[i] in samples;
    }
  }

  lemma ColdStaysCold(samples: seq<Sample>, s: Sample)
    ensures forall i: nat :: i < |samples| ==> IsCold(samples + [s], i) == IsCold(samples, i)
    ensures IsCold(samples + [s], |samples|) <==> s.project !in Projects(samples)
  {
    InProjects(samples, s.project);
    var all := samples + [s];
    forall i: nat | i < |samples|
      ensures IsCold(all, i) == IsCold(samples, i)
    {
      assert forall j :: 0 <= j <= i ==> all[j] == samples[j];
    }
    assert forall j :: 0 <= j < |samples| ==> all[j] == samples[j];
  }

  lemma AppendPosition(positions: seq<nat>, times: seq<real>, samples: seq<Sample>, s: Sample, cold: bool)
    requires ListsExactly(positions, samples, cold) && AreTimesAt(times, samples, positions)
    ensures var here := IsCold(samples + [s], |samples|) == cold;
            && ListsExactly(positions + (if here then [|samples|] else []), samples + [s], cold)
            && AreTimesAt(times + (if here then [s.milliseconds] else []), samples + [s],
                          positions + (if here then [|samples|] else []))
  {
    ColdStaysCold(samples, s);
    var here := IsCold(samples + [s], |samples|) == cold;
    var positions' := positions + (if here then [|samples|] else []);
    hide IsCold;
    forall i: nat
      ensures i in positions' <==> i < |samples + [s]| && IsCold(samples + [s], i) == cold
    {
      assert i in positions' <==> i in positions || (here && i == |samples|);
    }
    forall k | 0 <= k < |positions|
      ensures positions[k] < |samples|
    {
      assert positions[k] in positions;
    }
  }

  // The positions of the cold samples, or of the others, in order.
  function Positions(samples: seq<Sample>, cold: bool): seq<nat> {
    if samples == [] then []
    else
      var last := |samples| - 1;
      Positions(samples[..last], cold) + (if IsCold(samples, last) == cold then [last] else [])
  }

  // The cold times are those of exactly the cold positions, in order, and the warm times those of all
  // the others.
  lemma {:induction false} ColdAndWarmPartition(samples: seq<Sample>)
    ensures ListsExactly(Positions(samples, true), samples, true)
    ensures ListsExactly(Positions(samples, false), samples, false)
    ensures AreTimesAt(Cold(samples), samples, Positions(samples, true))
    ensures AreTimesAt(Warm(samples), samples, Positions(samples, false))
  {
    if samples != [] {
      var earlier, s := samples[..|samples| - 1], samples[|samples| - 1];
      assert samples == earlier + [s];
      ColdAndWarmPartition(earlier);
      AppendSample(earlier, s);
      ColdStaysCold(earlier, s);
      hide Cold, Warm, Projects, IsCold, ListsExactly, AreTimesAt;
      AppendPosition(Positions(earlier, true), Cold(earlier), earlier, s, true);
      AppendPosition(Positions(earlier, false), Warm(earlier), earlier, s, false);
    }
  }

  // Every project has exactly one cold sample.
  lemma OneColdPerProject(samples: seq<Sample>, project: string)
    ensures project in Projects(samples) <==>
            exists i: nat :: i < |samples| && samples[i].project == project && IsCold(samples, i)
    ensures forall i: nat, j: nat | i < |samples| && j < |samples| && IsCold(samples, i) && IsCold(samples, j) ::
              samples[i].project == samples[j].project ==> i == j
  {
    InProjects(samples, project);
    if i: nat :| i < |samples| && samples[i].project == project && !IsCold(samples, i) {
      var first: nat := i;
      while !IsCold(samples, first)
        invariant first < |samples| && samples[first].project == project
        decreases first
      {
        var j :| 0 <= j < first && samples[j].project == samples[first].project;
        first := j;
      }
    }
  }
}

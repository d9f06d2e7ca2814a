/**
 The generic forward/backward checker (scripts/audit-transform-wire-parity.py) against itself and
 against the Responses scan.
 */
module ToolRegrouping {
  import opened ToolAdjacency
  import opened ToolRuns
  import opened Wrappers

  // ----- Forward and backward passes agree -----

  // Position k lies in the run of results directly after message i.
  ghost predicate InRunAfter(m: seq<Message>, i: nat, k: nat) {
    i < k < |m| && forall j :: i < j <= k ==> HasResults(m, j)
  }

  lemma CollectedFromRun(m: seq<Message>, i: nat, id: Id)
    requires i < |m|
    ensures id in Collected(m, i) <==> exists k: nat :: InRunAfter(m, i, k) && id in m[k].results
  {
    var e := ResultEnd(m, i + 1);
    var run := m[i + 1..e];
    InAllResults(run, id);
    if id in Collected(m, i) {
      var k :| 0 <= k < |run| && id in run[k].results;
      assert InRunAfter(m, i, i + 1 + k);
    }
    if k: nat :| InRunAfter(m, i, k) && id in m[k].results {
      assert !HasResults(m, e);
      assert run[k - i - 1] == m[k];
    }
  }

  // Every message of the run has the same owner.
  lemma {:induction false} RunSharesOwner(m: seq<Message>, i: nat, k: nat)
    requires InRunAfter(m, i, k)
    ensures OwnerCalls(m, k) == OwnerCalls(m, i + 1)
    decreases k
  {
    if i + 1 < k {
      assert HasResults(m, k - 1);
      RunSharesOwner(m, i, k - 1);
    }
  }

  ghost predicate OrphanInRun(m: seq<Message>, i: nat, id: Id) {
    exists k: nat :: InRunAfter(m, i, k) && id in Orphans(m, k)
  }

  lemma OrphansOfRun(m: seq<Message>, i: nat, id: Id)
    requires i < |m|
    ensures OrphanInRun(m, i, id) <==> id in Collected(m, i) && id !in OwnerCalls(m, i + 1)
  {
    CollectedFromRun(m, i, id);
    if k: nat :| InRunAfter(m, i, k) && id in Orphans(m, k) {
      RunSharesOwner(m, i, k);
    }
    if id in Collected(m, i) && id !in OwnerCalls(m, i + 1) {
      var k: nat :| InRunAfter(m, i, k) && id in m[k].results;
      RunSharesOwner(m, i, k);
      assert id in Orphans(m, k);
    }
  }

  // An id is reported unexpected at a calling message iff it is an orphan at some message of the
  // result run directly after it. What this needs of the calling message is that it carries no
  // results itself; in particular it holds when no message carries both.
  lemma Duality(m: seq<Message>, i: nat, id: Id)
    requires HasCalls(m, i) && !HasResults(m, i)
    ensures id in Without(Collected(m, i), m[i].calls) <==> OrphanInRun(m, i, id)
  {
    OrphansOfRun(m, i, id);
  }

  // The two passes agree about the run after message i.
  ghost predicate PassesAgree(m: seq<Message>, i: nat)
    requires i < |m|
  {
    forall id :: id in Without(Collected(m, i), m[i].calls) <==> OrphanInRun(m, i, id)
  }

  lemma {:induction false} OwnerCallsOfPrefix(m: seq<Message>, t: seq<Message>, i: nat)
    requires i <= |m|
    ensures OwnerCalls(m + t, i) == OwnerCalls(m, i)
  {
    if 0 < i {
      OwnerCallsOfPrefix(m, t, i - 1);
    }
  }

  // Following the last message with one result that only one of the two passes knows sets them apart.
  lemma OneResultSeparates(m: seq<Message>, id: Id)
    requires m != [] && PassesAgree(m + [Message("tool", [], [id])], |m| - 1)
    ensures id in m[|m| - 1].calls <==> id in OwnerCalls(m, |m|)
  {
    var i, result := |m| - 1, Message("tool", [], [id]);
    var all := m + [result];
    ResultEndIs(all, i + 1, i + 2);
    assert all[i + 1..i + 2] == [result];
    AppendMessage([], result);
    assert AllResults([]) == [] && [] + [result] == [result];
    assert Collected(all, i) == [id];
    OrphansOfRun(all, i, id);
    OwnerCallsOfPrefix(m, [result], |m|);
  }

  lemma SameIdsAgree(m: seq<Message>, t: seq<Message>)
    requires m != [] && ToSet(m[|m| - 1].calls) == ToSet(OwnerCalls(m, |m|))
    ensures PassesAgree(m + t, |m| - 1)
  {
    var i, all := |m| - 1, m + t;
    OwnerCallsOfPrefix(m, t, |m|);
    var calls, owner := m[i].calls, OwnerCalls(m, |m|);
    assert all[i] == m[i];
    assert forall id :: id in calls <==> id in ToSet(calls);
    assert forall id :: id in owner <==> id in ToSet(owner);
    hide OwnerCalls, OrphanInRun, Collected, ToSet;
    forall id
      ensures id in Without(Collected(all, i), calls) <==> OrphanInRun(all, i, id)
    {
      OrphansOfRun(all, i, id);
    }
  }

  // Whatever follows a last message, the two passes agree about the results after it exactly when it
  // and the message its results are traced back to call the same ids. The latter is itself unless it
  // carries results too.
  lemma DualityExactly(m: seq<Message>)
    requires m != []
    ensures (forall t: seq<Message> :: PassesAgree(m + t, |m| - 1)) <==>
            ToSet(m[|m| - 1].calls) == ToSet(OwnerCalls(m, |m|))
  {
    hide PassesAgree, OwnerCalls;
    if ToSet(m[|m| - 1].calls) == ToSet(OwnerCalls(m, |m|)) {
      forall t: seq<Message>
        ensures PassesAgree(m + t, |m| - 1)
      {
        SameIdsAgree(m, t);
      }
    }
    if forall t: seq<Message> :: PassesAgree(m + t, |m| - 1) {
      forall id
        ensures id in m[|m| - 1].calls <==> id in OwnerCalls(m, |m|)
      {
        OneResultSeparates(m, id);
      }
    }
  }

  // The permission for external owners does not reach those orphans: they have an owner.
  lemma OwnedOrphansAreReported(m: seq<Message>, i: nat, k: nat, allowExternal: bool)
    requires HasCalls(m, i) && !HasResults(m, i) && InRunAfter(m, i, k)
    ensures BackwardReport(m, k, allowExternal) ==
            if Orphans(m, k) == [] then [] else [Orphaned(k, Orphans(m, k), PrecedingRoles(m, k))]
  {
    OwnerCallsFrom(m, i + 1, k);
  }

  // When the calling message does carry results, the backward walk passes it by, and the two passes
  // can disagree: here the forward pass accepts message 1 and the backward pass rejects message 2.
  lemma DualityFailsOnMixedMessages()
    ensures var m := [Message("assistant", ["a"], []), Message("assistant", ["b"], ["a"]), Message("tool", [], ["b"])];
            Without(Collected(m, 1), m[1].calls) == [] && "b" in Orphans(m, 2)
  {
    var m := [Message("assistant", ["a"], []), Message("assistant", ["b"], ["a"]), Message("tool", [], ["b"])];
    ResultEndIs(m, 2, 3);
    assert m[2..3] == [m[2]];
    assert AllResults([m[2]]) == AllResults([]) + ["b"];
    assert AllResults(m[2..3]) == ["b"];
    assert Without(["b"], ["b"]) == [];
    assert OwnerCalls(m, 1) == ["a"] && OwnerCalls(m, 2) == ["a"];
  }

  // ----- Regrouping -----

  function MergedCalls(m: seq<Message>, i: nat): Message
    requires i < |m|
  {
    Message(m[i].role, AllCalls(m[i..CallEnd(m, i)]), [])
  }

  // Merges each maximal run of calling messages from position i on into one message.
  function Group(m: seq<Message>, i: nat): seq<Message>
    requires i <= |m|
    decreases |m| - i
  {
    if i == |m| then []
    else if HasCalls(m, i) then [MergedCalls(m, i)] + Group(m, CallEnd(m, i))
    else [m[i]] + Group(m, i + 1)
  }

  lemma {:induction false} GroupKeepsResults(m: seq<Message>, e: nat, r: nat)
    requires Exclusive(m) && e <= r <= |m| && forall k :: e <= k < r ==> HasResults(m, k)
    ensures Group(m, e) == m[e..r] + Group(m, r)
    decreases r - e
  {
    if e < r {
      assert HasResults(m, e) && !HasCalls(m, e);
      GroupKeepsResults(m, e + 1, r);
      ConcatAssociates([m[e]], m[e + 1..r], Group(m, r));
      assert m[e..r] == [m[e]] + m[e + 1..r];
    }
  }

  lemma GroupStartsLike(m: seq<Message>, i: nat)
    requires Exclusive(m) && i <= |m| && !HasResults(m, i)
    ensures !HasResults(Group(m, i), 0)
  {
  }

  // Where the merged messages from position i on begin in the grouped messages g.
  function GroupedAt(m: seq<Message>, g: seq<Message>, i: nat): int
    requires i <= |m|
  {
    |g| - |Group(m, i)|
  }

  // Unless it is inside a run of calls, a position and what follows it are found there.
  lemma {:induction false} GroupedAtIs(m: seq<Message>, i: nat, k: nat)
    requires i <= k <= |m| && !(HasCalls(m, k - 1) && HasCalls(m, k))
    ensures var p := GroupedAt(m, Group(m, i), k);
            0 <= p && Group(m, i)[p..] == Group(m, k)
    decreases k - i
  {
    if i < k {
      var next := if HasCalls(m, i) then CallEnd(m, i) else i + 1;
      assert next <= k;
      GroupedAtIs(m, next, k);
      assert Group(m, i)[1..] == Group(m, next);
      var p := GroupedAt(m, Group(m, next), k);
      assert Group(m, i)[p + 1..] == Group(m, i)[1..][p..];
    }
  }

  // A report about calls: where its owner is in the grouped messages, and the two id sets.
  type OwnerReport = (int, set<Id>, set<Id>)

  function ScanSet(m: seq<Message>, g: seq<Message>, v: Violation): seq<OwnerReport> {
    if v.orphans == {} && v.messageIndex <= |m|
    then [(GroupedAt(m, g, v.messageIndex), v.missing, v.unexpected)]
    else []
  }

  function ScanSets(m: seq<Message>, g: seq<Message>, violations: seq<Violation>): seq<OwnerReport> {
    if violations == [] then [] else ScanSet(m, g, violations[0]) + ScanSets(m, g, violations[1..])
  }

  function ForwardSet(r: Report): seq<OwnerReport> {
    if r.Unmatched? then [(r.messageIndex, ToSet(r.missing), ToSet(r.unexpected))] else []
  }

  function ForwardSets(reports: seq<Report>): seq<OwnerReport> {
    if reports == [] then [] else ForwardSet(reports[0]) + ForwardSets(reports[1..])
  }

  lemma {:induction false} ScanSetsConcat(m: seq<Message>, g: seq<Message>, a: seq<Violation>, b: seq<Violation>)
    ensures ScanSets(m, g, a + b) == ScanSets(m, g, a) + ScanSets(m, g, b)
  {
    hide ScanSet;
    if a == [] {
      assert a + b == b;
    } else {
      assert (a + b)[1..] == a[1..] + b;
      ScanSetsConcat(m, g, a[1..], b);
      ConcatAssociates(ScanSet(m, g, a[0]), ScanSets(m, g, a[1..]), ScanSets(m, g, b));
    }
  }

  lemma {:induction false} ForwardSetsConcat(a: seq<Report>, b: seq<Report>)
    ensures ForwardSets(a + b) == ForwardSets(a) + ForwardSets(b)
  {
    hide ForwardSet;
    if a == [] {
      assert a + b == b;
    } else {
      assert (a + b)[1..] == a[1..] + b;
      ForwardSetsConcat(a[1..], b);
      ConcatAssociates(ForwardSet(a[0]), ForwardSets(a[1..]), ForwardSets(b));
    }
  }

  lemma ResultsInGroup(m: seq<Message>, e: nat, r: nat, g: seq<Message>, j: nat)
    requires Exclusive(m) && e <= r <= |m| && j + (r - e) <= |g| && g[j..j + (r - e)] == m[e..r]
    requires forall k :: e <= k < r ==> HasResults(m, k)
    ensures forall k :: j <= k < j + (r - e) ==> HasResults(g, k) && !HasCalls(g, k)
  {
    forall k | j <= k < j + (r - e)
      ensures HasResults(g, k) && !HasCalls(g, k)
    {
      assert g[k] == g[j..j + (r - e)][k - j] == m[e..r][k - j] == m[e + k - j];
      assert HasResults(m, e + k - j);
    }
  }

  // Position j of g is a calling message without results, with these calls; up to j' only results
  // follow, with these ids.
  ghost predicate BlockAt(g: seq<Message>, j: nat, j': nat, calls: seq<Id>, results: seq<Id>) {
    && j < j' <= |g| && g[j].calls == calls != [] && g[j].results == []
    && Collected(g, j) == results && ResultEnd(g, j + 1) == j'
    && forall k :: j < k < j' ==> !HasCalls(g, k)
  }

  // How the block of calls [i, e) and results [e, r) of m shows up in the grouped messages g from
  // position j on.
  lemma BlockInGroup(m: seq<Message>, i: nat, e: nat, r: nat, g: seq<Message>, j: nat, j': nat)
    requires Exclusive(m) && HasCalls(m, i) && j <= |g| && g[j..] == Group(m, i)
    requires e == CallEnd(m, i) && r == ResultEnd(m, e) && j' == j + 1 + (r - e)
    ensures BlockAt(g, j, j', AllCalls(m[i..e]), AllResults(m[e..r]))
    ensures g[j'..] == Group(m, r)
  {
    var merged := MergedCalls(m, i);
    assert g[j..] == [merged] + Group(m, e);
    assert merged.calls == AllCalls(m[i..e]) && merged.results == [];
    hide Group, MergedCalls, AllCalls, AllResults, CallEnd, ResultEnd, BlockAt;
    RunHasIds(m, i, e);
    GroupKeepsResults(m, e, r);
    SplitAt(g, j, merged, m[e..r], Group(m, r));
    GroupHeadWithoutResults(m, r, g, j');
    ResultsFollow(m, e, r, g, j, j');
  }

  lemma ResultsFollow(m: seq<Message>, e: nat, r: nat, g: seq<Message>, j: nat, j': nat)
    requires Exclusive(m) && e <= r <= |m| && j' == j + 1 + (r - e) <= |g| && g[j + 1..j'] == m[e..r]
    requires !HasResults(g, j') && g[j].calls != [] && g[j].results == []
    requires forall k :: e <= k < r ==> HasResults(m, k)
    ensures BlockAt(g, j, j', g[j].calls, AllResults(m[e..r]))
  {
    hide AllResults;
    ResultsInGroup(m, e, r, g, j + 1);
    ResultEndIs(g, j + 1, j');
  }

  lemma RunHasIds(m: seq<Message>, i: nat, e: nat)
    requires i < e <= |m| && HasCalls(m, i)
    ensures AllCalls(m[i..e]) != []
  {
    InAllCalls(m[i..e], m[i].calls[0]);
    assert m[i] == m[i..e][0];
  }

  lemma GroupHeadWithoutResults(m: seq<Message>, i: nat, g: seq<Message>, j: nat)
    requires Exclusive(m) && i <= |m| && !HasResults(m, i) && j <= |g| && g[j..] == Group(m, i)
    ensures !HasResults(g, j)
  {
    GroupStartsLike(m, i);
    assert j < |g| ==> g[j] == g[j..][0];
  }

  lemma SplitAt<T>(g: seq<T>, j: nat, head: T, block: seq<T>, rest: seq<T>)
    requires j <= |g| && g[j..] == [head] + (block + rest)
    ensures j < |g| && g[j] == head && j + 1 + |block| <= |g|
    ensures g[j + 1..j + 1 + |block|] == block && g[j + 1 + |block|..] == rest
  {
    var tail := g[j..];
    assert g[j] == tail[0];
    assert g[j + 1..] == tail[1..] == block + rest;
    assert g[j + 1..j + 1 + |block|] == g[j + 1..][..|block|];
    assert g[j + 1 + |block|..] == g[j + 1..][|block|..];
  }

  // Stretches without reports can be skipped.
  lemma {:induction false} ForwardSkips(g: seq<Message>, j: nat, j': nat)
    requires j <= j' <= |g| && forall k :: j <= k < j' ==> ForwardReport(g, k) == []
    ensures Forward(g, j) == Forward(g, j')
    decreases j' - j
  {
    hide ForwardReport;
    if j < j' {
      assert Forward(g, j) == ForwardReport(g, j) + Forward(g, j + 1);
      ForwardSkips(g, j + 1, j');
    }
  }

  lemma {:induction false} BackwardSkips(g: seq<Message>, j: nat, j': nat, allowExternal: bool)
    requires j <= j' <= |g| && forall k :: j <= k < j' ==> BackwardReport(g, k, allowExternal) == []
    ensures Backward(g, j, allowExternal) == Backward(g, j', allowExternal)
    decreases j' - j
  {
    hide BackwardReport;
    if j < j' {
      assert Backward(g, j, allowExternal) == BackwardReport(g, j, allowExternal) + Backward(g, j + 1, allowExternal);
      BackwardSkips(g, j + 1, j', allowExternal);
    }
  }

  // Result messages are silent in the forward pass ...
  lemma SilentForward(g: seq<Message>, k: nat)
    requires k < |g| && !HasCalls(g, k)
    ensures ForwardReport(g, k) == []
  {
  }

  // ... and in the backward pass when their owner has all their ids.
  lemma SilentBackward(g: seq<Message>, k: nat, allowExternal: bool)
    requires k < |g| && Orphans(g, k) == []
    ensures BackwardReport(g, k, allowExternal) == []
  {
  }

  lemma WithoutIsDifference(ids: seq<Id>, excluded: seq<Id>)
    ensures ToSet(Without(ids, excluded)) == ToSet(ids) - ToSet(excluded)
    ensures Without(ids, excluded) == [] <==> ToSet(ids) - ToSet(excluded) == {}
  {
    var w := Without(ids, excluded);
    if w != [] {
      assert w[0] in ToSet(ids) - ToSet(excluded);
    }
  }

  // For one calling message the forward report says the same as a comparison of id sets.
  lemma ForwardReportIsMismatch(m: seq<Message>, g: seq<Message>, j: nat, index: nat)
    requires HasCalls(g, j) && index <= |m| && GroupedAt(m, g, index) == j
    ensures var report := Mismatch(index, ToSet(g[j].calls), ToSet(Collected(g, j)));
            && (ForwardReport(g, j) == [] <==> report == [])
            && ForwardSets(ForwardReport(g, j)) == ScanSets(m, g, report)
  {
    var calls, collected := g[j].calls, Collected(g, j);
    WithoutIsDifference(calls, collected);
    WithoutIsDifference(collected, calls);
    EqualByDifference(ToSet(calls), ToSet(collected));
    hide Without, ToSet, Collected, GroupedAt;
    var report := Mismatch(index, ToSet(calls), ToSet(collected));
    var missing, unexpected := ToSet(calls) - ToSet(collected), ToSet(collected) - ToSet(calls);
    if report != [] {
      assert ScanSets(m, g, report) == [(j, missing, unexpected)] + ScanSets(m, g, []);
      assert ForwardSets(ForwardReport(g, j)) == [(j, missing, unexpected)] + ForwardSets([]);
    }
  }

  lemma MatchedRunHasNoOrphans(g: seq<Message>, j: nat)
    requires HasCalls(g, j) && !HasResults(g, j) && ToSet(Collected(g, j)) <= ToSet(g[j].calls)
    ensures forall k :: j <= k < ResultEnd(g, j + 1) ==> Orphans(g, k) == []
  {
    forall k | j < k < ResultEnd(g, j + 1)
      ensures Orphans(g, k) == []
    {
      assert InRunAfter(g, j, k);
      OwnerCallsFrom(g, j + 1, k);
      forall id | id in g[k].results
        ensures id in g[j].calls
      {
        CollectedFromRun(g, j, id);
        assert id in ToSet(Collected(g, j));
      }
      NothingWithout(g[k].results, g[j].calls);
    }
  }

  lemma NothingWithout(ids: seq<Id>, excluded: seq<Id>)
    requires forall id :: id in ids ==> id in excluded
    ensures Without(ids, excluded) == []
  {
    WithoutIsDifference(ids, excluded);
    assert ToSet(ids) - ToSet(excluded) == {};
  }

  // One block of calls and results: both checkers report the same mismatch ...
  lemma BlockForward(
      m: seq<Message>, g: seq<Message>, j: nat, j': nat, calls: seq<Id>, results: seq<Id>, index: nat)
    requires BlockAt(g, j, j', calls, results) && index <= |m| && GroupedAt(m, g, index) == j
    ensures Forward(g, j) == ForwardReport(g, j) + Forward(g, j')
    ensures ForwardReport(g, j) == [] <==> Mismatch(index, ToSet(calls), ToSet(results)) == []
    ensures ForwardSets(ForwardReport(g, j)) == ScanSets(m, g, Mismatch(index, ToSet(calls), ToSet(results)))
  {
    hide Forward, ForwardReport, Mismatch, ForwardSets, ScanSets, ToSet, Collected, ResultEnd, GroupedAt;
    ForwardReportIsMismatch(m, g, j, index);
    forall k | j < k < j' {
      SilentForward(g, k);
    }
    ForwardSkips(g, j + 1, j');
    ForwardUnfolds(g, j);
  }

  lemma ForwardUnfolds(g: seq<Message>, j: nat)
    requires j < |g|
    ensures Forward(g, j) == ForwardReport(g, j) + Forward(g, j + 1)
  {
    hide ForwardReport;
  }

  // ... and when there is none the backward pass has nothing to say about the block either.
  lemma BlockBackward(
      g: seq<Message>, j: nat, j': nat, calls: seq<Id>, results: seq<Id>, index: nat, allowExternal: bool)
    requires BlockAt(g, j, j', calls, results)
    ensures Mismatch(index, ToSet(calls), ToSet(results)) == [] ==>
              Backward(g, j, allowExternal) == Backward(g, j', allowExternal)
  {
    if Mismatch(index, ToSet(calls), ToSet(results)) == [] {
      MatchedRunHasNoOrphans(g, j);
      forall k | j <= k < j' {
        SilentBackward(g, k, allowExternal);
      }
      BackwardSkips(g, j, j', allowExternal);
    }
  }

  // Any other message, outside the result run of a calling message: if it carries results they are
  // orphans in both views, tolerated in both when external owners are allowed.
  lemma OtherAgrees(m: seq<Message>, i: nat, g: seq<Message>, j: nat, allowExternal: bool)
    requires i < |m| && !HasCalls(m, i) && j < |g| && g[j] == m[i]
    requires HasResults(m, i) ==> OwnerCalls(g, j) == []
    ensures ForwardReport(g, j) == []
    ensures ScanSets(m, g, OrphanReport(i, m[i].results, allowExternal)) == []
    ensures OrphanReport(i, m[i].results, allowExternal) == [] <==> BackwardReport(g, j, allowExternal) == []
    ensures OwnerCalls(g, j + 1) == []
  {
    WithoutIsDifference(m[i].results, []);
    if m[i].results != [] {
      assert m[i].results[0] in ToSet(m[i].results) - ToSet([]);
    }
  }

  lemma CombineBlock(
      m: seq<Message>, g: seq<Message>, report: seq<Violation>, rest: seq<Violation>,
      forward: seq<Report>, forward': seq<Report>, backward: seq<Report>, backward': seq<Report>)
    requires ScanSets(m, g, report) == ForwardSets(forward) && (report == [] <==> forward == [])
    requires ScanSets(m, g, rest) == ForwardSets(forward') && (rest == [] <==> forward' == [] && backward' == [])
    requires report == [] ==> backward == backward'
    ensures ScanSets(m, g, report + rest) == ForwardSets(forward + forward')
    ensures report + rest == [] <==> forward + forward' == [] && backward == []
  {
    hide ScanSets, ForwardSets;
    ScanSetsConcat(m, g, report, rest);
    ForwardSetsConcat(forward, forward');
  }

  lemma CombineOther(
      m: seq<Message>, g: seq<Message>, report: seq<Violation>, rest: seq<Violation>,
      forward': seq<Report>, backward: seq<Report>, backward': seq<Report>)
    requires ScanSets(m, g, report) == [] && (report == [] <==> backward == [])
    requires ScanSets(m, g, rest) == ForwardSets(forward') && (rest == [] <==> forward' == [] && backward' == [])
    ensures ScanSets(m, g, report + rest) == ForwardSets([] + forward')
    ensures report + rest == [] <==> [] + forward' == [] && backward + backward' == []
  {
    hide ScanSets, ForwardSets;
    ScanSetsConcat(m, g, report, rest);
    assert [] + forward' == forward';
  }

  // From position i of m and j of g on the two checkers accept alike and report the same about calls.
  predicate AgreeFrom(m: seq<Message>, i: nat, g: seq<Message>, j: nat, allowExternal: bool)
    requires i <= |m| && j <= |g|
  {
    && ScanSets(m, g, Scan(m, i, allowExternal)) == ForwardSets(Forward(g, j))
    && (Scan(m, i, allowExternal) == [] <==> Forward(g, j) == [] && Backward(g, j, allowExternal) == [])
  }

  lemma AgreeOnBlock(
      m: seq<Message>, i: nat, e: nat, r: nat, g: seq<Message>, j: nat, j': nat, allowExternal: bool)
    requires Exclusive(m) && HasCalls(m, i) && j <= |g| && g[j..] == Group(m, i)
    requires e == CallEnd(m, i) && r == ResultEnd(m, e) && j' == j + 1 + (r - e)
    requires j' <= |g| && AgreeFrom(m, r, g, j', allowExternal)
    requires BlockAt(g, j, j', AllCalls(m[i..e]), AllResults(m[e..r]))
    ensures AgreeFrom(m, i, g, j, allowExternal)
  {
    assert GroupedAt(m, g, i) == j;
    hide ScanSets, ForwardSets, ForwardReport, Mismatch, Forward, Backward, BlockAt, Group, GroupedAt;
    hide AllCalls, AllResults, ToSet, CallEnd, ResultEnd;
    var calls, results := AllCalls(m[i..e]), AllResults(m[e..r]);
    BlockForward(m, g, j, j', calls, results, i);
    BlockBackward(g, j, j', calls, results, i, allowExternal);
    CombineBlock(
      m, g, Mismatch(i, ToSet(calls), ToSet(results)), Scan(m, r, allowExternal),
      ForwardReport(g, j), Forward(g, j'), Backward(g, j, allowExternal), Backward(g, j', allowExternal));
  }

  lemma AgreeOnOther(m: seq<Message>, i: nat, g: seq<Message>, j: nat, allowExternal: bool)
    requires i < |m| && !HasCalls(m, i) && j < |g| && g[j] == m[i]
    requires HasResults(m, i) ==> OwnerCalls(g, j) == []
    requires AgreeFrom(m, i + 1, g, j + 1, allowExternal)
    ensures AgreeFrom(m, i, g, j, allowExternal)
  {
    OtherAgrees(m, i, g, j, allowExternal);
    hide ScanSets, ForwardSets, ForwardReport, BackwardReport, OrphanReport, Mismatch;
    CombineOther(
      m, g, OrphanReport(i, m[i].results, allowExternal), Scan(m, i + 1, allowExternal),
      Forward(g, j + 1), BackwardReport(g, j, allowExternal), Backward(g, j + 1, allowExternal));
  }

  lemma {:induction false} Regroup(m: seq<Message>, i: nat, g: seq<Message>, j: nat, allowExternal: bool)
    requires Exclusive(m) && i <= |m| && j <= |g| && g[j..] == Group(m, i)
    requires HasResults(m, i) ==> OwnerCalls(g, j) == []
    ensures AgreeFrom(m, i, g, j, allowExternal)
    decreases |m| - i
  {
    if HasCalls(m, i) {
      var e := CallEnd(m, i);
      var r := ResultEnd(m, e);
      var j' := j + 1 + (r - e);
      hide AgreeFrom, AllCalls, AllResults, CallEnd, ResultEnd;
      BlockInGroup(m, i, e, r, g, j, j');
      Regroup(m, r, g, j', allowExternal);
      AgreeOnBlock(m, i, e, r, g, j, j', allowExternal);
    } else if i < |m| {
      assert g[j] == g[j..][0] && g[j + 1..] == g[j..][1..];
      hide AgreeFrom;
      OtherAgrees(m, i, g, j, allowExternal);
      Regroup(m, i + 1, g, j + 1, allowExternal);
      AgreeOnOther(m, i, g, j, allowExternal);
    }
  }

  // Merging each run of calls into one message makes the generic checker accept exactly what the
  // Responses scan accepts, with or without external owners, and report the same sets of missing and
  // unexpected ids at the same owners.
  lemma CheckersAgreeUnderRegrouping(m: seq<Message>, allowExternal: bool)
    requires Exclusive(m)
    ensures var g := Group(m, 0);
            && (Scan(m, 0, allowExternal) == [] <==> Forward(g, 0) + Backward(g, 0, allowExternal) == [])
            && ScanSets(m, g, Scan(m, 0, allowExternal)) == ForwardSets(Forward(g, 0))
  {
    var g := Group(m, 0);
    Regroup(m, 0, g, 0, allowExternal);
  }
}

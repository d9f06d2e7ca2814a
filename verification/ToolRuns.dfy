/**
 What the Responses tool-adjacency scan (scripts/audit-transform-wire-parity.py) reports, in terms of
 maximal runs of calls and results.
 */
module ToolRuns {
  import opened ToolAdjacency

  // [i, e) is a maximal run of calling messages and [e, r) the possibly empty maximal run of
  // result-bearing messages directly after it.
  ghost predicate CallBlock(m: seq<Message>, i: nat, e: nat, r: nat) {
    && i < e <= r <= |m|
    && !HasCalls(m, i - 1) && (forall k :: i <= k < e ==> HasCalls(m, k)) && !HasCalls(m, e)
    && (forall k :: e <= k < r ==> HasResults(m, k)) && !HasResults(m, r)
  }

  ghost predicate Matched(m: seq<Message>, i: nat, e: nat, r: nat)
    requires i <= e <= r <= |m|
  {
    ToSet(AllCalls(m[i..e])) == ToSet(AllResults(m[e..r]))
  }

  // The messages from s to i all carry results and directly follow a call.
  ghost predicate OwnedFrom(m: seq<Message>, s: nat, i: nat) {
    && 1 <= s <= i && HasCalls(m, s - 1) && !HasResults(m, s - 1)
    && forall k :: s <= k <= i ==> HasResults(m, k)
  }

  ghost predicate Owned(m: seq<Message>, i: nat) {
    exists s :: OwnedFrom(m, s, i)
  }

  lemma {:induction false} CallEndIs(m: seq<Message>, i: nat, e: nat)
    requires i <= e <= |m| && (forall k :: i <= k < e ==> HasCalls(m, k)) && !HasCalls(m, e)
    ensures CallEnd(m, i) == e
    decreases e - i
  {
    if i < e {
      CallEndIs(m, i + 1, e);
    }
  }

  lemma {:induction false} ResultEndIs(m: seq<Message>, i: nat, e: nat)
    requires i <= e <= |m| && (forall k :: i <= k < e ==> HasResults(m, k)) && !HasResults(m, e)
    ensures ResultEnd(m, i) == e
    decreases e - i
  {
    if i < e {
      ResultEndIs(m, i + 1, e);
    }
  }

  // Walking back over results finds the owning calls, if there are any.
  lemma {:induction false} OwnerCallsFrom(m: seq<Message>, s: nat, i: nat)
    requires 1 <= s <= i <= |m| && !HasResults(m, s - 1)
    requires forall k :: s <= k < i ==> HasResults(m, k)
    ensures OwnerCalls(m, i) == m[s - 1].calls
    decreases i
  {
    if s < i {
      assert HasResults(m, i - 1);
      OwnerCallsFrom(m, s, i - 1);
    }
  }

  lemma {:induction false} OwnedIffOwnerCalls(m: seq<Message>, i: nat)
    requires HasResults(m, i)
    ensures Owned(m, i) <==> OwnerCalls(m, i) != []
  {
    if Owned(m, i) {
      var s :| OwnedFrom(m, s, i);
      OwnerCallsFrom(m, s, i);
    }
    if OwnerCalls(m, i) != [] {
      var s := i;
      while HasResults(m, s - 1)
        invariant 1 <= s <= i && OwnerCalls(m, s) == OwnerCalls(m, i)
        invariant forall k :: s <= k <= i ==> HasResults(m, k)
        decreases s
      {
        s := s - 1;
      }
      assert OwnedFrom(m, s, i);
    }
  }

  // ----- What the scan says about each position -----

  ghost function Verdict(m: seq<Message>, i: nat, allowExternal: bool): seq<Violation>
    requires i < |m|
  {
    if HasCalls(m, i) then
      if HasCalls(m, i - 1) then []
      else
        var e := CallEnd(m, i);
        Mismatch(i, ToSet(AllCalls(m[i..e])), ToSet(AllResults(m[e..ResultEnd(m, e)])))
    else if HasResults(m, i) && !Owned(m, i) then OrphanReport(i, m[i].results, allowExternal)
    else []
  }

  ghost function Verdicts(m: seq<Message>, i: nat, allowExternal: bool): seq<Violation>
    requires i <= |m|
    decreases |m| - i
  {
    if i == |m| then [] else Verdict(m, i, allowExternal) + Verdicts(m, i + 1, allowExternal)
  }

  // Where the scan can start a new block.
  ghost predicate BlockStart(m: seq<Message>, i: nat) {
    && (HasCalls(m, i) ==> !HasCalls(m, i - 1))
    && (HasResults(m, i) ==> !Owned(m, i))
  }

  lemma {:induction false} SkipSilent(m: seq<Message>, i: nat, j: nat, allowExternal: bool)
    requires i <= j <= |m|
    requires forall k :: i <= k < j ==> Verdict(m, k, allowExternal) == []
    ensures Verdicts(m, i, allowExternal) == Verdicts(m, j, allowExternal)
    decreases j - i
  {
    hide Verdict;
    if i < j {
      SkipSilent(m, i + 1, j, allowExternal);
    }
  }

  lemma BlockEnds(m: seq<Message>, i: nat)
    requires Exclusive(m) && HasCalls(m, i)
    ensures var r := ResultEnd(m, CallEnd(m, i)); i < r && BlockStart(m, r)
  {
    hide Owned;
    var e := CallEnd(m, i);
    var r := ResultEnd(m, e);
    assert HasCalls(m, e - 1);
    assert e < r ==> HasResults(m, r - 1);
  }

  lemma BlockIsSilent(m: seq<Message>, i: nat, allowExternal: bool)
    requires Exclusive(m) && HasCalls(m, i)
    ensures var r := ResultEnd(m, CallEnd(m, i));
            && i < r && BlockStart(m, r)
            && Verdicts(m, i + 1, allowExternal) == Verdicts(m, r, allowExternal)
  {
    hide Verdict, Verdicts, BlockStart, CallEnd, ResultEnd;
    var r := ResultEnd(m, CallEnd(m, i));
    BlockEnds(m, i);
    forall k | i < k < r {
      SilentInBlock(m, i, k, allowExternal);
    }
    SkipSilent(m, i + 1, r, allowExternal);
  }

  lemma SilentInBlock(m: seq<Message>, i: nat, k: nat, allowExternal: bool)
    requires Exclusive(m) && HasCalls(m, i) && i < k < ResultEnd(m, CallEnd(m, i))
    ensures Verdict(m, k, allowExternal) == []
  {
    var e := CallEnd(m, i);
    if k < e {
      assert HasCalls(m, k) && HasCalls(m, k - 1);
    } else {
      assert HasCalls(m, e - 1) && HasResults(m, k);
      assert OwnedFrom(m, e, k);
    }
  }

  // The block-by-block scan reports exactly the verdict of each position, in order.
  lemma {:induction false} ScanIsVerdicts(m: seq<Message>, i: nat, allowExternal: bool)
    requires Exclusive(m) && i <= |m| && BlockStart(m, i)
    ensures Scan(m, i, allowExternal) == Verdicts(m, i, allowExternal)
    decreases |m| - i
  {
    if HasCalls(m, i) {
      BlockIsSilent(m, i, allowExternal);
      ScanIsVerdicts(m, ResultEnd(m, CallEnd(m, i)), allowExternal);
    } else if i < |m| {
      if HasResults(m, i + 1) {
        OwnedIffOwnerCalls(m, i + 1);
        if HasResults(m, i) { OwnedIffOwnerCalls(m, i); }
      }
      ScanIsVerdicts(m, i + 1, allowExternal);
    }
  }

  // ----- Main results about the scan -----

  lemma VerdictIsItsOwn(m: seq<Message>, i: nat, allowExternal: bool)
    requires i < |m|
    ensures |Verdict(m, i, allowExternal)| <= 1
    ensures forall v :: v in Verdict(m, i, allowExternal) ==> v.messageIndex == i
  {
  }

  lemma {:induction false} VerdictsFrom(m: seq<Message>, i: nat, allowExternal: bool)
    requires i <= |m|
    ensures forall v :: v in Verdicts(m, i, allowExternal) <==>
              i <= v.messageIndex < |m| && v in Verdict(m, v.messageIndex, allowExternal)
    decreases |m| - i
  {
    if i < |m| {
      VerdictIsItsOwn(m, i, allowExternal);
      hide Verdict;
      VerdictsFrom(m, i + 1, allowExternal);
      var first, later := Verdict(m, i, allowExternal), Verdicts(m, i + 1, allowExternal);
      assert forall v :: v in first + later <==> v in first || v in later;
    }
  }

  ghost predicate OrderedByIndex(violations: seq<Violation>) {
    forall j, k :: 0 <= j < k < |violations| ==> violations[j].messageIndex < violations[k].messageIndex
  }

  lemma PrependKeepsOrder(first: seq<Violation>, later: seq<Violation>, i: nat)
    requires |first| <= 1 && forall v :: v in first ==> v.messageIndex == i
    requires OrderedByIndex(later) && forall v :: v in later ==> i < v.messageIndex
    ensures OrderedByIndex(first + later)
  {
    var all := first + later;
    forall j, k | 0 <= j < k < |all|
      ensures all[j].messageIndex < all[k].messageIndex
    {
      assert all[k] in later;
      assert all[j] in first || all[j] in later;
    }
  }

  lemma {:induction false} VerdictsAreOrdered(m: seq<Message>, i: nat, allowExternal: bool)
    requires i <= |m|
    ensures OrderedByIndex(Verdicts(m, i, allowExternal))
    decreases |m| - i
  {
    if i < |m| {
      hide Verdict, OrderedByIndex;
      VerdictIsItsOwn(m, i, allowExternal);
      VerdictsFrom(m, i + 1, allowExternal);
      VerdictsAreOrdered(m, i + 1, allowExternal);
      PrependKeepsOrder(Verdict(m, i, allowExternal), Verdicts(m, i + 1, allowExternal), i);
    }
  }

  // The reported message indices strictly increase, and what is reported is the verdict of each.
  lemma ScanReports(m: seq<Message>, allowExternal: bool)
    requires Exclusive(m)
    ensures var violations := Scan(m, 0, allowExternal);
            && (forall j, k :: 0 <= j < k < |violations| ==> violations[j].messageIndex < violations[k].messageIndex)
            && (forall v :: v in violations <==> v.messageIndex < |m| && v in Verdict(m, v.messageIndex, allowExternal))
  {
    ScanIsVerdicts(m, 0, allowExternal);
    VerdictsFrom(m, 0, allowExternal);
    VerdictsAreOrdered(m, 0, allowExternal);
  }

  lemma {:induction false} SilentIff(m: seq<Message>, i: nat, allowExternal: bool)
    requires i <= |m|
    ensures Verdicts(m, i, allowExternal) == [] <==>
            forall k :: i <= k < |m| ==> Verdict(m, k, allowExternal) == []
    decreases |m| - i
  {
    hide Verdict;
    if i < |m| {
      SilentIff(m, i + 1, allowExternal);
    }
  }

  // No violation is reported iff every maximal run of calls is directly followed by results with the
  // same ids and, unless external owners are allowed, every result has a call run directly before it.
  lemma ScanAccepts(m: seq<Message>, allowExternal: bool)
    requires Exclusive(m)
    ensures Scan(m, 0, allowExternal) == [] <==>
              && (forall i: nat, e: nat, r: nat :: CallBlock(m, i, e, r) ==> Matched(m, i, e, r))
              && (allowExternal || forall i :: HasResults(m, i) ==> Owned(m, i))
  {
    ScanIsVerdicts(m, 0, allowExternal);
    SilentIff(m, 0, allowExternal);
    if forall k :: 0 <= k < |m| ==> Verdict(m, k, allowExternal) == [] {
      forall i: nat, e: nat, r: nat | CallBlock(m, i, e, r)
        ensures Matched(m, i, e, r)
      {
        CallEndIs(m, i, e);
        ResultEndIs(m, e, r);
        assert HasCalls(m, i) && Verdict(m, i, allowExternal) == [];
      }
      forall i | HasResults(m, i)
        ensures allowExternal || Owned(m, i)
      {
        assert Verdict(m, i, allowExternal) == [];
      }
    }
    if (forall i: nat, e: nat, r: nat :: CallBlock(m, i, e, r) ==> Matched(m, i, e, r)) &&
       (allowExternal || forall i :: HasResults(m, i) ==> Owned(m, i)) {
      forall k | 0 <= k < |m|
        ensures Verdict(m, k, allowExternal) == []
      {
        if HasCalls(m, k) && !HasCalls(m, k - 1) {
          assert CallBlock(m, k, CallEnd(m, k), ResultEnd(m, CallEnd(m, k)));
        }
      }
    }
  }

  // ----- On Responses items -----

  lemma {:induction false} InAllResults(m: seq<Message>, id: Id)
    ensures id in AllResults(m) <==> exists k :: 0 <= k < |m| && id in m[k].results
  {
    if m != [] {
      InAllResults(m[..|m| - 1], id);
      if id in m[|m| - 1].results {
        assert id in m[|m| - 1].results;
      }
    }
  }

  lemma {:induction false} InAllCalls(m: seq<Message>, id: Id)
    ensures id in AllCalls(m) <==> exists k :: 0 <= k < |m| && id in m[k].calls
  {
    if m != [] {
      InAllCalls(m[..|m| - 1], id);
      if id in m[|m| - 1].calls {
        assert id in m[|m| - 1].calls;
      }
    }
  }

  predicate IsCall(items: seq<ResponsesItem>, i: int) {
    && 0 <= i < |items| && items[i].itemType == "function_call"
    && items[i].callId.Some? && items[i].callId.value != ""
  }

  predicate IsOutput(items: seq<ResponsesItem>, i: int) {
    && 0 <= i < |items| && items[i].itemType == "function_call_output"
    && items[i].callId.Some? && items[i].callId.value != ""
  }

  // [i, e) is a maximal run of calls and [e, r) the possibly empty maximal run of outputs directly
  // after it.
  ghost predicate ItemBlock(items: seq<ResponsesItem>, i: nat, e: nat, r: nat) {
    && i < e <= r <= |items|
    && !IsCall(items, i - 1) && (forall k :: i <= k < e ==> IsCall(items, k)) && !IsCall(items, e)
    && (forall k :: e <= k < r ==> IsOutput(items, k)) && !IsOutput(items, r)
  }

  ghost predicate HasId(items: seq<ResponsesItem>, i: nat, e: nat, id: string)
    requires i <= e <= |items|
  {
    exists k :: i <= k < e && items[k].callId.Some? && items[k].callId.value == id
  }

  ghost predicate SameIds(items: seq<ResponsesItem>, i: nat, e: nat, r: nat)
    requires i <= e <= r <= |items|
  {
    forall id :: HasId(items, i, e, id) <==> HasId(items, e, r, id)
  }

  ghost predicate FollowsCallAt(items: seq<ResponsesItem>, s: nat, i: nat) {
    1 <= s <= i && IsCall(items, s - 1) && forall k :: s <= k <= i ==> IsOutput(items, k)
  }

  // An output with nothing but outputs between it and a call before it.
  ghost predicate FollowsCalls(items: seq<ResponsesItem>, i: nat) {
    exists s :: FollowsCallAt(items, s, i)
  }

  lemma ItemsAsMessages(items: seq<ResponsesItem>, i: int)
    ensures HasCalls(MessagesOf(items), i) <==> IsCall(items, i)
    ensures HasResults(MessagesOf(items), i) <==> IsOutput(items, i)
    ensures IsCall(items, i) ==> MessagesOf(items)[i].calls == [items[i].callId.value]
    ensures IsOutput(items, i) ==> MessagesOf(items)[i].results == [items[i].callId.value]
  {
  }

  lemma CallIds(items: seq<ResponsesItem>, i: nat, e: nat, id: string)
    requires i <= e <= |items| && forall k :: i <= k < e ==> IsCall(items, k)
    ensures id in AllCalls(MessagesOf(items)[i..e]) <==> HasId(items, i, e, id)
  {
    var m := MessagesOf(items);
    InAllCalls(m[i..e], id);
    if k :| 0 <= k < e - i && id in m[i..e][k].calls {
      ItemsAsMessages(items, i + k);
      assert items[i + k].callId.value == id;
    }
    if k :| i <= k < e && items[k].callId.Some? && items[k].callId.value == id {
      ItemsAsMessages(items, k);
      assert m[i..e][k - i] == m[k];
    }
  }

  lemma OutputIds(items: seq<ResponsesItem>, e: nat, r: nat, id: string)
    requires e <= r <= |items| && forall k :: e <= k < r ==> IsOutput(items, k)
    ensures id in AllResults(MessagesOf(items)[e..r]) <==> HasId(items, e, r, id)
  {
    var m := MessagesOf(items);
    InAllResults(m[e..r], id);
    if k :| 0 <= k < r - e && id in m[e..r][k].results {
      ItemsAsMessages(items, e + k);
      assert items[e + k].callId.value == id;
    }
    if k :| e <= k < r && items[k].callId.Some? && items[k].callId.value == id {
      ItemsAsMessages(items, k);
      assert m[e..r][k - e] == m[k];
    }
  }

  lemma BlocksAgree(items: seq<ResponsesItem>, i: nat, e: nat, r: nat)
    ensures CallBlock(MessagesOf(items), i, e, r) <==> ItemBlock(items, i, e, r)
    ensures ItemBlock(items, i, e, r) ==> (Matched(MessagesOf(items), i, e, r) <==> SameIds(items, i, e, r))
  {
    forall k: int {
      ItemsAsMessages(items, k);
    }
    if ItemBlock(items, i, e, r) {
      var m := MessagesOf(items);
      hide MessagesOf, AllCalls, AllResults, HasId, IsCall, IsOutput;
      var calls, results := AllCalls(m[i..e]), AllResults(m[e..r]);
      forall id
        ensures id in calls <==> HasId(items, i, e, id)
        ensures id in results <==> HasId(items, e, r, id)
      {
        CallIds(items, i, e, id);
        OutputIds(items, e, r, id);
      }
      assert forall id :: id in ToSet(calls) <==> id in calls;
      assert forall id :: id in ToSet(results) <==> id in results;
    }
  }

  lemma OwnersAgree(items: seq<ResponsesItem>, i: nat)
    ensures Owned(MessagesOf(items), i) <==> FollowsCalls(items, i)
  {
    var m := MessagesOf(items);
    forall k: int {
      ItemsAsMessages(items, k);
    }
    ResponsesItemsAreExclusive(items);
    hide MessagesOf, IsCall, IsOutput;
    if s: nat :| OwnedFrom(m, s, i) {
      assert FollowsCallAt(items, s, i);
    }
    if s: nat :| FollowsCallAt(items, s, i) {
      assert HasCalls(m, s - 1) && !HasResults(m, s - 1);
      assert OwnedFrom(m, s, i);
    }
  }

  // The scan of Responses items reports nothing iff every maximal run of function calls is directly
  // followed by function call outputs with the same ids and, unless external owners are allowed, every
  // such output directly follows a run of calls. Items without a proper id count as neither.
  lemma ScanAcceptsItems(items: seq<ResponsesItem>, allowExternal: bool)
    ensures Scan(MessagesOf(items), 0, allowExternal) == [] <==>
              && (forall i: nat, e: nat, r: nat :: ItemBlock(items, i, e, r) ==> SameIds(items, i, e, r))
              && (allowExternal || forall i: nat :: IsOutput(items, i) ==> FollowsCalls(items, i))
  {
    var m := MessagesOf(items);
    ResponsesItemsAreExclusive(items);
    ScanAccepts(m, allowExternal);
    forall i: nat, e: nat, r: nat {
      BlocksAgree(items, i, e, r);
    }
    forall i: nat
      ensures HasResults(m, i) ==> (Owned(m, i) <==> FollowsCalls(items, i))
      ensures HasResults(m, i) <==> IsOutput(items, i)
    {
      OwnersAgree(items, i);
      ItemsAsMessages(items, i);
    }
    hide Scan, MessagesOf, CallBlock, ItemBlock, Matched, SameIds, Owned, FollowsCalls, IsOutput, HasResults;
    if allowExternal || forall i: nat :: IsOutput(items, i) ==> FollowsCalls(items, i) {
      forall i: nat | HasResults(m, i)
        ensures allowExternal || Owned(m, i)
      {
        assert IsOutput(items, i);
      }
    }
  }
}

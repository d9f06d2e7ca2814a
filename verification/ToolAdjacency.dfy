/**
 Tool-call/result adjacency in captured provider requests
 (scripts/audit-transform-wire-parity.py): the scan for OpenAI Responses items and the checker for
 the other provider families.
 */
module ToolAdjacency {
  import opened Wrappers

  type Id = string

  // The role of one message, and its tool-call and tool-result ids.
  datatype Message = Message(role: string, calls: seq<Id>, results: seq<Id>)

  // The fields of a Responses item that bear on tools; a missing or non-string id is None.
  datatype ResponsesItem = ResponsesItem(itemType: string, callId: Option<string>)

  // The scan of Responses items reads no roles.
  function ResponsesToolIds(item: ResponsesItem): Message {
    var ids := if item.callId.Some? && item.callId.value != "" then [item.callId.value] else [];
    Message(
      "",
      if item.itemType == "function_call" then ids else [],
      if item.itemType == "function_call_output" then ids else [])
  }

  predicate HasCalls(m: seq<Message>, i: int) {
    0 <= i < |m| && m[i].calls != []
  }

  predicate HasResults(m: seq<Message>, i: int) {
    0 <= i < |m| && m[i].results != []
  }

  // No message carries both calls and results.
  ghost predicate Exclusive(m: seq<Message>) {
    forall i :: 0 <= i < |m| ==> m[i].calls == [] || m[i].results == []
  }

  function MessagesOf(items: seq<ResponsesItem>): seq<Message> {
    seq(|items|, i requires 0 <= i < |items| => ResponsesToolIds(items[i]))
  }

  // A Responses item is one or the other, so the scan only ever sees exclusive messages.
  lemma ResponsesItemsAreExclusive(items: seq<ResponsesItem>)
    ensures Exclusive(MessagesOf(items))
  {
  }

  function ToSet(ids: seq<Id>): set<Id> {
    set id | id in ids
  }

  function AllCalls(m: seq<Message>): seq<Id> {
    if m == [] then [] else AllCalls(m[..|m| - 1]) + m[|m| - 1].calls
  }

  function AllResults(m: seq<Message>): seq<Id> {
    if m == [] then [] else AllResults(m[..|m| - 1]) + m[|m| - 1].results
  }

  lemma AppendMessage(m: seq<Message>, x: Message)
    ensures AllCalls(m + [x]) == AllCalls(m) + x.calls
    ensures AllResults(m + [x]) == AllResults(m) + x.results
  {
    assert (m + [x])[..|m|] == m;
  }

  // Where the run of calling, or of result-bearing, messages from position i ends.
  function CallEnd(m: seq<Message>, i: nat): (e: nat)
    requires i <= |m|
    ensures i <= e <= |m| && !HasCalls(m, e)
    ensures forall k :: i <= k < e ==> HasCalls(m, k)
    decreases |m| - i
  {
    if HasCalls(m, i) then CallEnd(m, i + 1) else i
  }

  function ResultEnd(m: seq<Message>, i: nat): (e: nat)
    requires i <= |m|
    ensures i <= e <= |m| && !HasResults(m, e)
    ensures forall k :: i <= k < e ==> HasResults(m, k)
    decreases |m| - i
  {
    if HasResults(m, i) then ResultEnd(m, i + 1) else i
  }

  // ----- The Responses scan -----

  // The source reports sorted lists of distinct ids; they are sets here.
  datatype Violation = Violation(messageIndex: nat, missing: set<Id>, unexpected: set<Id>, orphans: set<Id>)

  function Mismatch(index: nat, expected: set<Id>, actual: set<Id>): seq<Violation> {
    if expected == actual then [] else [Violation(index, expected - actual, actual - expected, {})]
  }

  function OrphanReport(index: nat, results: seq<Id>, allowExternal: bool): seq<Violation> {
    if results != [] && !allowExternal then [Violation(index, {}, {}, ToSet(results))] else []
  }

  // What the scan reports from position i on, block by block.
  function Scan(m: seq<Message>, i: nat, allowExternal: bool): seq<Violation>
    requires i <= |m|
    decreases |m| - i
  {
    if i == |m| then []
    else if HasCalls(m, i) then
      var e := CallEnd(m, i);
      var r := ResultEnd(m, e);
      Mismatch(i, ToSet(AllCalls(m[i..e])), ToSet(AllResults(m[e..r]))) + Scan(m, r, allowExternal)
    else
      OrphanReport(i, m[i].results, allowExternal) + Scan(m, i + 1, allowExternal)
  }

  method CollectCalls(messages: seq<Message>, start: nat) returns (ids: seq<Id>, index: nat)
    requires start <= |messages|
    ensures index == CallEnd(messages, start)
    ensures ids == AllCalls(messages[start..index])
  {
    ids, index := [], start;
    assert AllCalls(messages[start..start]) == [];
    hide AllCalls, AllResults;
    while index < |messages| && messages[index].calls != []
      invariant start <= index <= |messages|
      invariant CallEnd(messages, start) == CallEnd(messages, index)
      invariant ids == AllCalls(messages[start..index])
    {
      AppendMessage(messages[start..index], messages[index]);
      assert messages[start..index + 1] == messages[start..index] + [messages[index]];
      ids := ids + messages[index].calls;
      index := index + 1;
    }
  }

  method CollectResults(messages: seq<Message>, start: nat) returns (ids: seq<Id>, index: nat)
    requires start <= |messages|
    ensures index == ResultEnd(messages, start)
    ensures ids == AllResults(messages[start..index])
  {
    ids, index := [], start;
    assert AllResults(messages[start..start]) == [];
    hide AllCalls, AllResults;
    while index < |messages| && messages[index].results != []
      invariant start <= index <= |messages|
      invariant ResultEnd(messages, start) == ResultEnd(messages, index)
      invariant ids == AllResults(messages[start..index])
    {
      AppendMessage(messages[start..index], messages[index]);
      assert messages[start..index + 1] == messages[start..index] + [messages[index]];
      ids := ids + messages[index].results;
      index := index + 1;
    }
  }

  method ResponsesToolAdjacency(messages: seq<Message>, allowExternal: bool) returns (violations: seq<Violation>)
    ensures violations == Scan(messages, 0, allowExternal)
  {
    hide AllCalls, AllResults, ToSet, CallEnd, ResultEnd;
    ghost var all := Scan(messages, 0, allowExternal);
    violations := [];
    var index := 0;
    while index < |messages|
      invariant index <= |messages|
      invariant violations + Scan(messages, index, allowExternal) == all
    {
      ghost var before, report := violations, [];
      if messages[index].calls != [] {
        var ownerIndex := index;
        var expected, actual;
        expected, index := CollectCalls(messages, index);
        actual, index := CollectResults(messages, index);
        var missing := ToSet(expected) - ToSet(actual);
        var unexpected := ToSet(actual) - ToSet(expected);
        report := Mismatch(ownerIndex, ToSet(expected), ToSet(actual));
        EqualByDifference(ToSet(expected), ToSet(actual));
        if missing != {} || unexpected != {} {
          violations := violations + [Violation(ownerIndex, missing, unexpected, {})];
        }
      } else {
        report := OrphanReport(index, messages[index].results, allowExternal);
        if messages[index].results != [] && !allowExternal {
          violations := violations + [Violation(index, {}, {}, ToSet(messages[index].results))];
        }
        index := index + 1;
      }
      assert violations == before + report;
      ConcatAssociates(before, report, Scan(messages, index, allowExternal));
    }
  }

  // ----- The checker for the other families -----

  // Reports carry the roles of up to three messages around them.
  datatype Report =
    | Unmatched(messageIndex: nat, missing: seq<Id>, unexpected: seq<Id>, followingRoles: seq<string>)
    | Orphaned(messageIndex: nat, orphans: seq<Id>, precedingRoles: seq<string>)

  function Roles(m: seq<Message>): seq<string> {
    seq(|m|, i requires 0 <= i < |m| => m[i].role)
  }

  function FollowingRoles(m: seq<Message>, i: nat): seq<string>
    requires i < |m|
  {
    Roles(m[i + 1..if i + 4 <= |m| then i + 4 else |m|])
  }

  function PrecedingRoles(m: seq<Message>, i: nat): seq<string>
    requires i < |m|
  {
    Roles(m[if i < 3 then 0 else i - 3..i])
  }

  function Without(ids: seq<Id>, excluded: seq<Id>): (r: seq<Id>)
    ensures forall id :: id in r <==> id in ids && id !in excluded
  {
    if ids == [] then []
    else
      assert forall id :: id in ids <==> id == ids[0] || id in ids[1..];
      (if ids[0] in excluded then [] else [ids[0]]) + Without(ids[1..], excluded)
  }

  // The results directly after message i.
  function Collected(m: seq<Message>, i: nat): seq<Id>
    requires i < |m|
  {
    AllResults(m[i + 1..ResultEnd(m, i + 1)])
  }

  // Up to three roles in order, from the next message on, or up to the previous one.
  lemma RolesAround(m: seq<Message>, i: nat)
    requires i < |m|
    ensures |FollowingRoles(m, i)| == if |m| - i - 1 < 3 then |m| - i - 1 else 3
    ensures forall k :: 0 <= k < |FollowingRoles(m, i)| ==> FollowingRoles(m, i)[k] == m[i + 1 + k].role
    ensures |PrecedingRoles(m, i)| == if i < 3 then i else 3
    ensures forall k :: 0 <= k < |PrecedingRoles(m, i)| ==>
              PrecedingRoles(m, i)[k] == m[i - |PrecedingRoles(m, i)| + k].role
  {
  }

  function ForwardReport(m: seq<Message>, i: nat): seq<Report>
    requires i < |m|
  {
    if m[i].calls == [] then []
    else
      var missing := Without(m[i].calls, Collected(m, i));
      var unexpected := Without(Collected(m, i), m[i].calls);
      if missing == [] && unexpected == [] then [] else [Unmatched(i, missing, unexpected, FollowingRoles(m, i))]
  }

  function Forward(m: seq<Message>, i: nat): seq<Report>
    requires i <= |m|
    decreases |m| - i
  {
    if i == |m| then [] else ForwardReport(m, i) + Forward(m, i + 1)
  }

  // The calls that own a result at position i: those of the nearest earlier message without results.
  function OwnerCalls(m: seq<Message>, i: nat): seq<Id>
    requires i <= |m|
  {
    if i == 0 then []
    else if m[i - 1].results != [] then OwnerCalls(m, i - 1)
    else m[i - 1].calls
  }

  function Orphans(m: seq<Message>, i: nat): seq<Id>
    requires i < |m|
  {
    Without(m[i].results, OwnerCalls(m, i))
  }

  function BackwardReport(m: seq<Message>, i: nat, allowExternal: bool): seq<Report>
    requires i < |m|
  {
    if Orphans(m, i) == [] || (allowExternal && OwnerCalls(m, i) == []) then []
    else [Orphaned(i, Orphans(m, i), PrecedingRoles(m, i))]
  }

  function Backward(m: seq<Message>, i: nat, allowExternal: bool): seq<Report>
    requires i <= |m|
    decreases |m| - i
  {
    if i == |m| then [] else BackwardReport(m, i, allowExternal) + Backward(m, i + 1, allowExternal)
  }

  method ForwardPass(messages: seq<Message>) returns (reports: seq<Report>)
    ensures reports == Forward(messages, 0)
  {
    hide AllResults, ResultEnd, Without;
    ghost var all := Forward(messages, 0);
    reports := [];
    for index := 0 to |messages|
      invariant reports + Forward(messages, index) == all
    {
      ghost var before := reports;
      var calls := messages[index].calls;
      if calls != [] {
        var collected, _ := CollectResults(messages, index + 1);
        var missing := Without(calls, collected);
        var unexpected := Without(collected, calls);
        if missing != [] || unexpected != [] {
          reports := reports + [Unmatched(index, missing, unexpected, FollowingRoles(messages, index))];
        }
      }
      assert reports == before + ForwardReport(messages, index);
      ConcatAssociates(before, ForwardReport(messages, index), Forward(messages, index + 1));
    }
  }

  method BackwardPass(messages: seq<Message>, allowExternal: bool) returns (reports: seq<Report>)
    ensures reports == Backward(messages, 0, allowExternal)
  {
    hide Without;
    ghost var all := Backward(messages, 0, allowExternal);
    reports := [];
    for index := 0 to |messages|
      invariant reports + Backward(messages, index, allowExternal) == all
    {
      ghost var before := reports;
      var results := messages[index].results;
      if results != [] {
        var cursor := index - 1;
        while 0 <= cursor && messages[cursor].results != []
          invariant -1 <= cursor < index
          invariant OwnerCalls(messages, cursor + 1) == OwnerCalls(messages, index)
        {
          cursor := cursor - 1;
        }
        var ownerCalls := if 0 <= cursor then messages[cursor].calls else [];
        var orphaned := Without(results, ownerCalls);
        if orphaned != [] && allowExternal && ownerCalls == [] {
        } else if orphaned != [] {
          reports := reports + [Orphaned(index, orphaned, PrecedingRoles(messages, index))];
        }
      } else {
        WithoutNothing(OwnerCalls(messages, index));
      }
      assert reports == before + BackwardReport(messages, index, allowExternal);
      ConcatAssociates(
        before, BackwardReport(messages, index, allowExternal), Backward(messages, index + 1, allowExternal));
    }
  }

  lemma WithoutNothing(excluded: seq<Id>)
    ensures Without([], excluded) == []
  {
  }

  method ProviderToolAdjacency(messages: seq<Message>, allowExternal: bool) returns (reports: seq<Report>)
    ensures reports == Forward(messages, 0) + Backward(messages, 0, allowExternal)
  {
    var forward := ForwardPass(messages);
    var backward := BackwardPass(messages, allowExternal);
    reports := forward + backward;
  }
}

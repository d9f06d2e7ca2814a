/**
 Reciprocal-rank fusion of search results (scripts/ctx-search-benchmark.ts), over exact reals.
 */
module SearchFusion {
  import opened StableSort

  // The fields that identify a result, and its score; everything else it carries is the payload.
  datatype Hit =
    | MessageHit(messageId: string, score: real, payload: string)
    | CompartmentHit(compartmentId: string, score: real, payload: string)
    | OtherHit(source: string, id: string, score: real, payload: string)

  function Key(hit: Hit): string {
    match hit
    case MessageHit(messageId, _, _) => "message:" + messageId
    case CompartmentHit(compartmentId, _, _) => "compartment:" + compartmentId
    case OtherHit(source, id, _, _) => source + ":" + id
  }

  datatype Entry = Entry(result: Hit, score: real)

  // A JavaScript Map: keys in order of first insertion, and their values.
  datatype FusedMap = FusedMap(order: seq<string>, entries: map<string, Entry>)

  // ----- Specification -----

  // The contributions of one list to a key, over all the key's occurrences in it.
  function ListScore(list: seq<Hit>, key: string): real {
    if list == [] then 0.0
    else
      var rank := |list| - 1;
      ListScore(list[..rank], key) + (if Key(list[rank]) == key then 1.0 / (60 + rank) as real else 0.0)
  }

  function Score(lists: seq<seq<Hit>>, key: string): real {
    if lists == [] then 0.0 else Score(lists[..|lists| - 1], key) + ListScore(lists[|lists| - 1], key)
  }

  function Flat(lists: seq<seq<Hit>>): seq<Hit> {
    if lists == [] then [] else Flat(lists[..|lists| - 1]) + lists[|lists| - 1]
  }

  // The keys of some hits in order of first occurrence.
  function DistinctKeys(hits: seq<Hit>): seq<string> {
    if hits == [] then []
    else
      var keys, k := DistinctKeys(hits[..|hits| - 1]), Key(hits[|hits| - 1]);
      if k in keys then keys else keys + [k]
  }

  // The first hit with a key.
  ghost predicate IsFirst(hits: seq<Hit>, k: string, hit: Hit) {
    exists i :: 0 <= i < |hits| && hits[i] == hit && Key(hit) == k && forall j :: 0 <= j < i ==> Key(hits[j]) != k
  }

  // The map after the lists done and part of the next one: the keys seen, for each the first hit with
  // it, and its score so far.
  ghost predicate Represents(m: FusedMap, done: seq<seq<Hit>>, part: seq<Hit>) {
    && (forall k :: k in m.order <==> k in m.entries)
    && m.order == DistinctKeys(Flat(done) + part)
    && (forall k :: k in m.entries ==>
          && m.entries[k].score == Score(done, k) + ListScore(part, k)
          && IsFirst(Flat(done) + part, k, m.entries[k].result))
  }

  lemma {:induction false} DistinctKeysAreDistinct(hits: seq<Hit>)
    ensures forall i, j :: 0 <= i < j < |DistinctKeys(hits)| ==> DistinctKeys(hits)[i] != DistinctKeys(hits)[j]
    ensures forall k :: k in DistinctKeys(hits) <==> exists i :: 0 <= i < |hits| && Key(hits[i]) == k
  {
    if hits != [] {
      var shorter := hits[..|hits| - 1];
      DistinctKeysAreDistinct(shorter);
      forall k
        ensures k in DistinctKeys(hits) <==> exists i :: 0 <= i < |hits| && Key(hits[i]) == k
      {
        if k in DistinctKeys(hits) && k != Key(hits[|hits| - 1]) {
          var i :| 0 <= i < |shorter| && Key(shorter[i]) == k;
          assert Key(hits[i]) == k;
        }
        if i :| 0 <= i < |hits| && Key(hits[i]) == k {
          assert i < |shorter| ==> Key(shorter[i]) == k;
        }
      }
    }
  }

  lemma {:induction false} UnseenListScore(list: seq<Hit>, k: string)
    requires forall i :: 0 <= i < |list| ==> Key(list[i]) != k
    ensures ListScore(list, k) == 0.0
  {
    if list != [] {
      UnseenListScore(list[..|list| - 1], k);
    }
  }

  lemma {:induction false} UnseenScore(lists: seq<seq<Hit>>, k: string)
    requires forall i :: 0 <= i < |Flat(lists)| ==> Key(Flat(lists)[i]) != k
    ensures Score(lists, k) == 0.0
  {
    if lists != [] {
      var shorter, last := lists[..|lists| - 1], lists[|lists| - 1];
      var flat, all := Flat(shorter), Flat(lists);
      assert all == flat + last;
      hide Key, ListScore, Flat;
      assert forall i :: 0 <= i < |flat| ==> all[i] == flat[i];
      assert forall i :: 0 <= i < |last| ==> all[|flat| + i] == last[i];
      UnseenScore(shorter, k);
      UnseenListScore(last, k);
    }
  }

  // ----- The loops -----

  function Fuse(m: FusedMap, hit: Hit, rank: nat): FusedMap {
    var identity := Key(hit);
    if identity in m.entries then
      var prior := m.entries[identity];
      m.(entries := m.entries[identity := prior.(score := prior.score + 1.0 / (60 + rank) as real)])
    else
      FusedMap(m.order + [identity], m.entries[identity := Entry(hit, 1.0 / (60 + rank) as real)])
  }

  lemma FuseKeepsFirst(hits: seq<Hit>, hit: Hit, k: string, first: Hit)
    ensures IsFirst(hits, k, first) ==> IsFirst(hits + [hit], k, first)
    ensures (forall i :: 0 <= i < |hits| ==> Key(hits[i]) != Key(hit)) ==> IsFirst(hits + [hit], Key(hit), hit)
  {
    var all := hits + [hit];
    if IsFirst(hits, k, first) {
      var i :| 0 <= i < |hits| && hits[i] == first && Key(first) == k && forall j :: 0 <= j < i ==> Key(hits[j]) != k;
      assert all[i] == first && forall j :: 0 <= j < i ==> Key(all[j]) != k;
    }
    if forall i :: 0 <= i < |hits| ==> Key(hits[i]) != Key(hit) {
      assert all[|hits|] == hit && forall j :: 0 <= j < |hits| ==> Key(all[j]) != Key(hit);
    }
  }

  lemma FreshKey(done: seq<seq<Hit>>, part: seq<Hit>, k: string)
    requires k !in DistinctKeys(Flat(done) + part)
    ensures forall i :: 0 <= i < |Flat(done) + part| ==> Key((Flat(done) + part)[i]) != k
    ensures Score(done, k) == 0.0 && ListScore(part, k) == 0.0
  {
    hide DistinctKeys, Score, ListScore, Flat;
    var hits := Flat(done) + part;
    DistinctKeysAreDistinct(hits);
    forall i | 0 <= i < |Flat(done)|
      ensures Key(Flat(done)[i]) != k
    {
      assert hits[i] == Flat(done)[i];
    }
    forall i | 0 <= i < |part|
      ensures Key(part[i]) != k
    {
      assert hits[|Flat(done)| + i] == part[i];
    }
    UnseenListScore(part, k);
    UnseenScore(done, k);
  }

  lemma AppendHit(hits: seq<Hit>, hit: Hit, k: string)
    ensures DistinctKeys(hits + [hit]) ==
            if Key(hit) in DistinctKeys(hits) then DistinctKeys(hits) else DistinctKeys(hits) + [Key(hit)]
    ensures ListScore(hits + [hit], k) ==
            ListScore(hits, k) + (if Key(hit) == k then 1.0 / (60 + |hits|) as real else 0.0)
  {
    assert (hits + [hit])[..|hits|] == hits;
  }

  lemma FuseRepresents(m: FusedMap, done: seq<seq<Hit>>, part: seq<Hit>, hit: Hit)
    requires Represents(m, done, part)
    ensures Represents(Fuse(m, hit, |part|), done, part + [hit])
  {
    hide Flat, Score, DistinctKeys, IsFirst, ListScore, Key;
    var before := Flat(done) + part;
    var m', k' := Fuse(m, hit, |part|), Key(hit);
    assert Flat(done) + (part + [hit]) == before + [hit];
    AppendHit(before, hit, k');
    if k' !in m.entries {
      FreshKey(done, part, k');
    }
    forall k | k in m'.entries
      ensures m'.entries[k].score == Score(done, k) + ListScore(part + [hit], k)
      ensures IsFirst(before + [hit], k, m'.entries[k].result)
    {
      AppendHit(part, hit, k);
      FuseKeepsFirst(before, hit, k, m'.entries[k].result);
    }
  }

  lemma NextList(m: FusedMap, done: seq<seq<Hit>>, list: seq<Hit>)
    requires Represents(m, done, list)
    ensures Represents(m, done + [list], [])
  {
    assert (done + [list])[..|done|] == done;
    assert Flat(done + [list]) == Flat(done) + list == Flat(done + [list]) + [];
    assert forall k :: Score(done + [list], k) == Score(done, k) + ListScore(list, k) + ListScore([], k);
  }

  method FuseList(m: FusedMap, ghost done: seq<seq<Hit>>, list: seq<Hit>) returns (fused: FusedMap)
    requires Represents(m, done, [])
    ensures Represents(fused, done + [list], [])
  {
    hide Represents, Fuse;
    fused := m;
    for rank := 0 to |list|
      invariant Represents(fused, done, list[..rank])
    {
      FuseRepresents(fused, done, list[..rank], list[rank]);
      assert list[..rank + 1] == list[..rank] + [list[rank]];
      fused := Fuse(fused, list[rank], rank);
    }
    assert list[..|list|] == list;
    NextList(fused, done, list);
  }

  method FuseLists(resultLists: seq<seq<Hit>>) returns (fused: FusedMap)
    ensures Represents(fused, resultLists, [])
  {
    fused := FusedMap([], map[]);
    assert Represents(fused, [], []);
    hide Represents;
    for l := 0 to |resultLists|
      invariant Represents(fused, resultLists[..l], [])
    {
      fused := FuseList(fused, resultLists[..l], resultLists[l]);
      assert resultLists[..l + 1] == resultLists[..l] + [resultLists[l]];
    }
    assert resultLists[..|resultLists|] == resultLists;
  }

  // ----- Ranking -----

  function FinalScore(rank: nat, kept: nat): real {
    var score := 1.0 - rank as real / (if kept < 1 then 1 else kept) as real;
    if score < 0.0 then 0.0 else score
  }

  // The distinct keys of all results, in order of first occurrence.
  function AllKeys(lists: seq<seq<Hit>>): seq<string> {
    DistinctKeys(Flat(lists))
  }

  // Of two keys, by position among all keys, one ranks before the other: by score, then by first
  // occurrence.
  ghost predicate RanksBefore(lists: seq<seq<Hit>>, p: nat, q: nat)
    requires p < |AllKeys(lists)| && q < |AllKeys(lists)|
  {
    var x, y := Score(lists, AllKeys(lists)[p]), Score(lists, AllKeys(lists)[q]);
    y < x || (x == y && p < q)
  }

  // at lists the positions, among all keys, of the keys kept, best first.
  ghost predicate IsTop(lists: seq<seq<Hit>>, limit: nat, at: seq<nat>) {
    var n := |AllKeys(lists)|;
    && |at| == (if limit < n then limit else n)
    && (forall i :: 0 <= i < |at| ==> at[i] < n)
    && (forall i, j :: 0 <= i < j < |at| ==> at[i] != at[j] && RanksBefore(lists, at[i], at[j]))
    && (forall i, q :: 0 <= i < |at| && 0 <= q < n && q !in at ==> RanksBefore(lists, at[i], q))
  }

  ghost predicate IsFusedHit(lists: seq<seq<Hit>>, key: string, score: real, hit: Hit) {
    exists first :: IsFirst(Flat(lists), key, first) && hit == first.(score := score)
  }

  // The kept keys, best first, each with its first result and its reassigned score.
  ghost predicate IsFusion(lists: seq<seq<Hit>>, limit: nat, at: seq<nat>, results: seq<Hit>) {
    && IsTop(lists, limit, at) && |results| == |at|
    && forall i :: 0 <= i < |at| ==> IsFusedHit(lists, AllKeys(lists)[at[i]], FinalScore(i, |at|), results[i])
  }

  method RrfFuse(resultLists: seq<seq<Hit>>, limit: nat) returns (results: seq<Hit>)
    ensures exists at :: IsFusion(resultLists, limit, at, results)
  {
    hide Flat, Score, DistinctKeys, SortBy, FinalScore, IsFirst;
    var fused := FuseLists(resultLists);
    var order, entries := fused.order, fused.entries;
    var values := seq(|order|, i requires 0 <= i < |order| => entries[order[i]]);
    var byScore := (e: Entry) => -e.score;
    var sorted := SortBy(values, byScore);
    ghost var full := SortIsStable(values, byScore);
    var kept := if limit < |sorted| then limit else |sorted|;
    var ranked := sorted[..kept];
    results := seq(|ranked|, rank requires 0 <= rank < |ranked| =>
                     ranked[rank].result.(score := FinalScore(rank, |ranked|)));
    MapValues(resultLists, fused, values);
    TopOfSorted(resultLists, values, byScore, sorted, full, kept);
    assert IsFusion(resultLists, limit, full[..kept], results);
  }

  lemma MapValues(lists: seq<seq<Hit>>, fused: FusedMap, values: seq<Entry>)
    requires Represents(fused, lists, []) && |values| == |fused.order|
    requires forall i :: 0 <= i < |values| ==>
               fused.order[i] in fused.entries && values[i] == fused.entries[fused.order[i]]
    ensures fused.order == AllKeys(lists)
    ensures forall i :: 0 <= i < |values| ==> values[i].score == Score(lists, AllKeys(lists)[i])
    ensures forall i :: 0 <= i < |values| ==> IsFirst(Flat(lists), AllKeys(lists)[i], values[i].result)
  {
    assert Flat(lists) + [] == Flat(lists);
  }

  lemma TopOfSorted(
      lists: seq<seq<Hit>>, values: seq<Entry>, byScore: Entry -> real, sorted: seq<Entry>, full: seq<nat>, kept: nat)
    requires |values| == |AllKeys(lists)| && kept <= |sorted|
    requires forall i :: 0 <= i < |values| ==> values[i].score == Score(lists, AllKeys(lists)[i])
    requires forall e: Entry :: byScore(e) == -e.score
    requires StablyOrders(sorted, values, byScore, full)
    ensures IsTop(lists, kept, full[..kept])
  {
    hide AllKeys, Score;
    var at := full[..kept];
    assert forall m :: 0 <= m < kept ==> at[m] == full[m] && full[m] in at;
    forall i, j | 0 <= i < j < |full|
      ensures full[i] != full[j] && RanksBefore(lists, full[i], full[j])
    {
      assert sorted[i] == values[full[i]] && sorted[j] == values[full[j]];
      assert byScore(sorted[i]) == -sorted[i].score && byScore(sorted[j]) == -sorted[j].score;
    }
    forall i, q | 0 <= i < kept && 0 <= q < |values| && q !in at
      ensures RanksBefore(lists, at[i], q)
    {
      assert q in full;
      var j :| kept <= j < |full| && full[j] == q;
    }
  }

  // ----- Consequences -----

  // ----- Which results are the same -----

  // Two results are the same when they are messages with the same id, compartments with the same id, or
  // results of the same other source with the same id.
  predicate SameIdentity(a: Hit, b: Hit) {
    || (a.MessageHit? && b.MessageHit? && a.messageId == b.messageId)
    || (a.CompartmentHit? && b.CompartmentHit? && a.compartmentId == b.compartmentId)
    || (a.OtherHit? && b.OtherHit? && a.source == b.source && a.id == b.id)
  }

  // Other sources are named without a colon and are neither of the two with a case of their own.
  predicate ProperSource(hit: Hit) {
    hit.OtherHit? ==> ':' !in hit.source && hit.source != "message" && hit.source != "compartment"
  }

  lemma PrefixBeforeColon(x: string, y: string, a: string, b: string)
    requires ':' !in x && ':' !in y && x + ":" + a == y + ":" + b
    ensures x == y && a == b
  {
    var s, t := x + ":" + a, y + ":" + b;
    assert s[|x|] == ':' && t[|y|] == ':';
    assert forall i :: 0 <= i < |x| ==> s[i] == x[i];
    assert forall i :: 0 <= i < |y| ==> t[i] == y[i];
    assert |x| == |y|;
    assert x == s[..|x|] && y == t[..|y|];
    assert a == s[|x| + 1..] && b == t[|y| + 1..];
  }

  function SourceName(hit: Hit): string {
    match hit
    case MessageHit(_, _, _) => "message"
    case CompartmentHit(_, _, _) => "compartment"
    case OtherHit(source, _, _, _) => source
  }

  function SourceId(hit: Hit): string {
    match hit
    case MessageHit(messageId, _, _) => messageId
    case CompartmentHit(compartmentId, _, _) => compartmentId
    case OtherHit(_, id, _, _) => id
  }

  lemma KeyParts(hit: Hit)
    requires ProperSource(hit)
    ensures Key(hit) == SourceName(hit) + ":" + SourceId(hit) && ':' !in SourceName(hit)
  {
    assert "message:" == "message" + ":" && "compartment:" == "compartment" + ":";
  }

  // Two results are fused exactly when they are the same.
  lemma KeyIsIdentity(a: Hit, b: Hit)
    requires ProperSource(a) && ProperSource(b)
    ensures Key(a) == Key(b) <==> SameIdentity(a, b)
  {
    KeyParts(a);
    KeyParts(b);
    assert "message"[0] != "compartment"[0];
    if Key(a) == Key(b) {
      hide Key;
      PrefixBeforeColon(SourceName(a), SourceName(b), SourceId(a), SourceId(b));
    }
  }

  // The first occurrences of each identity among some hits.
  function Firsts(hits: seq<Hit>): set<nat> {
    set i: nat | i < |hits| && forall j :: 0 <= j < i ==> !SameIdentity(hits[j], hits[i])
  }

  ghost predicate ProperSources(hits: seq<Hit>) {
    forall hit :: hit in hits ==> ProperSource(hit)
  }

  // One of the hits is the same as this one.
  ghost predicate Occurs(hits: seq<Hit>, hit: Hit) {
    exists j :: 0 <= j < |hits| && SameIdentity(hits[j], hit)
  }

  lemma KeySeen(hits: seq<Hit>, hit: Hit)
    requires ProperSources(hits) && ProperSource(hit)
    ensures Key(hit) in DistinctKeys(hits) <==> Occurs(hits, hit)
  {
    DistinctKeysAreDistinct(hits);
    forall j | 0 <= j < |hits|
      ensures Key(hits[j]) == Key(hit) <==> SameIdentity(hits[j], hit)
    {
      KeyIsIdentity(hits[j], hit);
    }
  }

  lemma FirstsGrow(hits: seq<Hit>, hit: Hit)
    ensures Firsts(hits + [hit]) == Firsts(hits) + (if Occurs(hits, hit) then {} else {|hits|})
  {
    var all := hits + [hit];
    assert forall j :: 0 <= j < |hits| ==> all[j] == hits[j];
    assert all[|hits|] == hit;
    hide SameIdentity;
    forall i: nat
      ensures i in Firsts(all) <==>
              i in Firsts(hits) || (i == |hits| && !Occurs(hits, hit))
    {
    }
  }

  lemma {:induction false} KeysCountIdentities(hits: seq<Hit>)
    requires ProperSources(hits)
    ensures |DistinctKeys(hits)| == |Firsts(hits)|
  {
    if hits == [] {
      assert Firsts(hits) == {};
    } else {
      var shorter, hit := hits[..|hits| - 1], hits[|hits| - 1];
      assert hits == shorter + [hit];
      KeysCountIdentities(shorter);
      KeySeen(shorter, hit);
      FirstsGrow(shorter, hit);
      hide Key, SameIdentity, Firsts, DistinctKeys, Occurs;
      AppendHit(shorter, hit, "");
      assert |shorter| !in Firsts(shorter) by { FirstsInRange(shorter); }
    }
  }

  lemma FirstsInRange(hits: seq<Hit>)
    ensures forall i :: i in Firsts(hits) ==> i < |hits|
  {
  }

  lemma FusedKeepsIdentity(lists: seq<seq<Hit>>, key: string, score: real, hit: Hit)
    requires IsFusedHit(lists, key, score, hit) && ProperSources(Flat(lists))
    ensures ProperSource(hit) && Key(hit) == key && hit.score == score
    ensures Occurs(Flat(lists), hit)
  {
    var first :| IsFirst(Flat(lists), key, first) && hit == first.(score := score);
    var i :| 0 <= i < |Flat(lists)| && Flat(lists)[i] == first;
    assert ProperSource(Flat(lists)[i]) && SameIdentity(Flat(lists)[i], hit);
  }

  // The output, on the fields of the results: as many as are wanted or there are different ones, no two
  // of them the same, and each the same as one of the inputs.
  lemma FusionByIdentity(lists: seq<seq<Hit>>, limit: nat, at: seq<nat>, results: seq<Hit>)
    requires IsFusion(lists, limit, at, results) && ProperSources(Flat(lists))
    ensures |results| == if limit < |Firsts(Flat(lists))| then limit else |Firsts(Flat(lists))|
    ensures forall i, j :: 0 <= i < j < |results| ==> !SameIdentity(results[i], results[j])
    ensures forall i :: 0 <= i < |results| ==> Occurs(Flat(lists), results[i])
  {
    KeysCountIdentities(Flat(lists));
    assert |results| == |at| == if limit < |DistinctKeys(Flat(lists))| then limit else |DistinctKeys(Flat(lists))|;
    hide Firsts, Flat, DistinctKeys, IsFusion, SameIdentity, Key, ProperSources, FinalScore, Occurs, AllKeys;
    forall i | 0 <= i < |results|
      ensures Occurs(Flat(lists), results[i])
    {
      FusedResult(lists, limit, at, results, i);
    }
    forall i, j | 0 <= i < j < |results|
      ensures !SameIdentity(results[i], results[j])
    {
      FusedApart(lists, limit, at, results, i, j);
    }
  }

  lemma FusedResult(lists: seq<seq<Hit>>, limit: nat, at: seq<nat>, results: seq<Hit>, i: nat)
    requires IsFusion(lists, limit, at, results) && ProperSources(Flat(lists)) && i < |results|
    ensures |at| == |results| && at[i] < |AllKeys(lists)|
    ensures ProperSource(results[i]) && Key(results[i]) == AllKeys(lists)[at[i]]
    ensures results[i].score == FinalScore(i, |at|)
    ensures Occurs(Flat(lists), results[i])
  {
    hide Flat, AllKeys, SameIdentity, Key, ProperSource, FinalScore, IsFusedHit, ProperSources, RanksBefore, Occurs;
    FusedKeepsIdentity(lists, AllKeys(lists)[at[i]], FinalScore(i, |at|), results[i]);
  }

  lemma FusedApart(lists: seq<seq<Hit>>, limit: nat, at: seq<nat>, results: seq<Hit>, i: nat, j: nat)
    requires IsFusion(lists, limit, at, results) && ProperSources(Flat(lists)) && i < j < |results|
    ensures !SameIdentity(results[i], results[j])
  {
    FusedResult(lists, limit, at, results, i);
    FusedResult(lists, limit, at, results, j);
    KeyIsIdentity(results[i], results[j]);
    hide Flat, AllKeys, SameIdentity, Key, ProperSource, FinalScore, IsFusedHit, ProperSources, RanksBefore, Occurs;
    TopIsBest(lists, limit, at);
  }

  lemma ScoreOfRank(kept: nat, i: nat)
    requires i < kept
    ensures FinalScore(i, kept) * kept as real == (kept - i) as real
  {
    var n := kept as real;
    var q := i as real / n;
    assert q * n == i as real;
    if 1.0 < q {
      ProductKeepsOrder(1.0, q, n);
      assert false;
    }
    assert (1.0 - q) * n == n - q * n;
  }

  // The reassigned scores fall strictly from 1 and stay positive.
  lemma FinalScoresFall(kept: nat, i: nat, j: nat)
    requires i < j < kept
    ensures FinalScore(0, kept) == 1.0
    ensures 0.0 < FinalScore(j, kept) < FinalScore(i, kept)
    ensures FinalScore(i, kept) * kept as real == (kept - i) as real
  {
    ScoreOfRank(kept, i);
    var n := kept as real;
    QuotientsFall(i as real, j as real, n);
    assert 0.0 / n == 0.0;
  }

  lemma QuotientsFall(x: real, y: real, n: real)
    requires x < y < n && 0.0 < n
    ensures x / n < y / n < 1.0
  {
    var q, r := x / n, y / n;
    assert q * n == x && r * n == y;
    if r <= q { ProductKeepsOrder(r, q, n); }
    if 1.0 <= r { ProductKeepsOrder(1.0, r, n); }
  }

  lemma ProductKeepsOrder(x: real, y: real, k: real)
    requires x <= y && 0.0 < k
    ensures x * k <= y * k
  {
  }

  ghost predicate IsOmitted(lists: seq<seq<Hit>>, at: seq<nat>, k: string) {
    k in AllKeys(lists) && forall j :: 0 <= j < |at| && at[j] < |AllKeys(lists)| ==> AllKeys(lists)[at[j]] != k
  }

  // Kept keys are distinct, and no omitted key has a higher score than a kept one.
  lemma TopIsBest(lists: seq<seq<Hit>>, limit: nat, at: seq<nat>)
    requires IsTop(lists, limit, at)
    ensures forall i, j :: 0 <= i < j < |at| ==> AllKeys(lists)[at[i]] != AllKeys(lists)[at[j]]
    ensures forall i, k :: 0 <= i < |at| && IsOmitted(lists, at, k) ==>
              Score(lists, k) <= Score(lists, AllKeys(lists)[at[i]])
  {
    DistinctKeysAreDistinct(Flat(lists));
    var keys := AllKeys(lists);
    forall i, k | 0 <= i < |at| && IsOmitted(lists, at, k)
      ensures Score(lists, k) <= Score(lists, keys[at[i]])
    {
      var q :| 0 <= q < |keys| && keys[q] == k;
      assert q !in at;
    }
  }

  lemma {:induction false} ScoreConcat(a: seq<seq<Hit>>, b: seq<seq<Hit>>, k: string)
    ensures Score(a + b, k) == Score(a, k) + Score(b, k)
    decreases |b|
  {
    hide ListScore;
    if b == [] {
      assert a + b == a;
    } else {
      assert (a + b)[..|a + b| - 1] == a + b[..|b| - 1];
      ScoreConcat(a, b[..|b| - 1], k);
    }
  }

  lemma ScoreRemove(lists: seq<seq<Hit>>, i: nat, k: string)
    requires i < |lists|
    ensures Score(lists, k) == Score(lists[..i] + lists[i + 1..], k) + ListScore(lists[i], k)
  {
    var before, x, after := lists[..i], lists[i], lists[i + 1..];
    assert Score([x], k) == Score([], k) + ListScore(x, k) && Score([], k) == 0.0;
    hide Score, ListScore;
    assert lists == before + ([x] + after);
    ScoreConcat(before, [x] + after, k);
    ScoreConcat([x], after, k);
    ScoreConcat(before, after, k);
  }

  lemma PositionOf<T>(s: seq<T>, x: T, same: seq<T>) returns (i: nat)
    requires multiset(s) == multiset(same) && x in same
    ensures i < |s| && s[i] == x
  {
    assert x in multiset(same);
    assert x in multiset(s);
    i :| 0 <= i < |s| && s[i] == x;
  }

  lemma WithoutElement<T>(s: seq<T>, i: nat)
    requires i < |s|
    ensures multiset(s[..i] + s[i + 1..]) == multiset(s) - multiset{s[i]}
  {
    assert s == s[..i] + [s[i]] + s[i + 1..];
  }

  // The scores do not depend on the order in which the lists are given.
  lemma {:induction false} ScoreIgnoresListOrder(lists: seq<seq<Hit>>, lists': seq<seq<Hit>>, k: string)
    requires multiset(lists) == multiset(lists')
    ensures Score(lists, k) == Score(lists', k)
    decreases |lists|
  {
    assert |lists| == |multiset(lists)| == |multiset(lists')| == |lists'|;
    if lists != [] {
      var last := lists[|lists| - 1];
      var i := PositionOf(lists', last, lists);
      var rest, rest' := lists[..|lists| - 1], lists'[..i] + lists'[i + 1..];
      WithoutElement(lists, |lists| - 1);
      WithoutElement(lists', i);
      assert rest + lists[|lists|..] == rest;
      ScoreIgnoresListOrder(rest, rest', k);
      ScoreRemove(lists', i, k);
    }
  }
}

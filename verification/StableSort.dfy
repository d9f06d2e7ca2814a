/**
 A stable sort by a numeric key, as JavaScript's sort gives for a comparator on that key: the result
 is ordered by key, has the same elements, and keeps the order of those whose keys are equal.
 */
module StableSort {

  function Insert<T>(x: T, s: seq<T>, key: T -> real): seq<T> {
    if s == [] || key(x) <= key(s[0]) then [x] + s else [s[0]] + Insert(x, s[1..], key)
  }

  function SortBy<T>(s: seq<T>, key: T -> real): seq<T> {
    if s == [] then [] else Insert(s[0], SortBy(s[1..], key), key)
  }

  ghost predicate Ordered<T>(s: seq<T>, key: T -> real) {
    forall i, j :: 0 <= i <= j < |s| ==> key(s[i]) <= key(s[j])
  }

  // r lists every position of s once (r[i] is the element at position at[i]), by key and, where keys
  // are equal, by position.
  ghost predicate StablyOrders<T>(r: seq<T>, s: seq<T>, key: T -> real, at: seq<nat>) {
    && |r| == |s| == |at|
    && (forall i :: 0 <= i < |r| ==> at[i] < |s| && r[i] == s[at[i]])
    && (forall q :: 0 <= q < |s| ==> q in at)
    && (forall i, j :: 0 <= i < j < |r| ==>
          at[i] != at[j] && (key(r[i]) < key(r[j]) || (key(r[i]) == key(r[j]) && at[i] < at[j])))
  }

  lemma {:induction false} InsertSplits<T>(x: T, s: seq<T>, key: T -> real) returns (p: nat)
    ensures p <= |s| && Insert(x, s, key) == s[..p] + [x] + s[p..]
    ensures forall i :: 0 <= i < p ==> key(s[i]) < key(x)
    ensures p < |s| ==> key(x) <= key(s[p])
  {
    if s == [] || key(x) <= key(s[0]) {
      p := 0;
    } else {
      p := InsertSplits(x, s[1..], key);
      p := p + 1;
      assert s[..p] == [s[0]] + s[1..][..p - 1];
    }
  }

  // Where an element other than the one inserted at p comes from.
  function From(i: int, p: int): int {
    if i < p then i else i - 1
  }

  function InsertPosition(at: seq<nat>, p: nat): (r: seq<nat>)
    requires p <= |at|
    ensures |r| == |at| + 1
    ensures r[p] == 0 && forall i {:trigger r[i]} :: 0 <= i < |r| && i != p ==> r[i] == at[From(i, p)] + 1
  {
    seq(|at| + 1, i requires 0 <= i < |at| + 1 => if i == p then 0 else at[From(i, p)] + 1)
  }

  lemma InsertKeepsElements<T>(x: T, r: seq<T>, r': seq<T>, s: seq<T>, s': seq<T>, at: seq<nat>, at': seq<nat>, p: nat)
    requires |r| == |s| == |at| && p <= |r| && |r'| == |s'| == |at'| == |r| + 1
    requires forall i :: 0 <= i < |r| ==> at[i] < |s| && r[i] == s[at[i]]
    requires forall i {:trigger r'[i]} {:trigger at'[i]} :: 0 <= i < |r'| && i != p ==>
               r'[i] == r[From(i, p)] && at'[i] == at[From(i, p)] + 1
    requires r'[p] == x && at'[p] == 0
    requires forall i {:trigger s'[i]} :: 0 < i < |s'| ==> s'[i] == s[i - 1]
    requires s'[0] == x
    ensures forall i :: 0 <= i < |r'| ==> at'[i] < |s'| && r'[i] == s'[at'[i]]
  {
    forall i | 0 <= i < |r'|
      ensures at'[i] < |s'| && r'[i] == s'[at'[i]]
    {
      if i != p {
        var k := From(i, p);
        assert at[k] < |s| && r[k] == s[at[k]];
      }
    }
  }

  lemma InsertKeepsStable<T>(
      x: T, r: seq<T>, r': seq<T>, s: seq<T>, s': seq<T>, key: T -> real, at: seq<nat>, at': seq<nat>, p: nat)
    requires StablyOrders(r, s, key, at) && p <= |r|
    requires forall i :: 0 <= i < p ==> key(r[i]) < key(x)
    requires forall i :: p <= i < |r| ==> key(x) <= key(r[i])
    requires |r'| == |s'| == |at'| == |r| + 1
    requires forall i {:trigger r'[i]} {:trigger at'[i]} :: 0 <= i < |r'| && i != p ==>
               r'[i] == r[From(i, p)] && at'[i] == at[From(i, p)] + 1
    requires r'[p] == x && at'[p] == 0
    requires forall i {:trigger s'[i]} :: 0 < i < |s'| ==> s'[i] == s[i - 1]
    requires s'[0] == x
    ensures StablyOrders(r', s', key, at')
  {
    InsertKeepsElements(x, r, r', s, s', at, at', p);
    forall q | 0 <= q < |s'|
      ensures q in at'
    {
      if q == 0 {
        assert at'[p] == q;
      } else {
        assert q - 1 in at;
        var k :| 0 <= k < |at| && at[k] == q - 1;
        assert at'[if k < p then k else k + 1] == q;
      }
    }
    forall i, j | 0 <= i < j < |r'|
      ensures at'[i] != at'[j] && (key(r'[i]) < key(r'[j]) || (key(r'[i]) == key(r'[j]) && at'[i] < at'[j]))
    {
      if i != p && j != p {
        var k, l := From(i, p), From(j, p);
        assert at[k] != at[l] && (key(r[k]) < key(r[l]) || (key(r[k]) == key(r[l]) && at[k] < at[l]));
      }
    }
  }

  lemma {:induction false} SortIsStable<T>(s: seq<T>, key: T -> real) returns (at: seq<nat>)
    ensures StablyOrders(SortBy(s, key), s, key, at)
  {
    at := [];
    if s != [] {
      var rest := SortBy(s[1..], key);
      at := SortIsStable(s[1..], key);
      var p := InsertSplits(s[0], rest, key);
      var at' := InsertPosition(at, p);
      assert forall i :: p <= i < |rest| ==> key(rest[p]) <= key(rest[i]);
      InsertKeepsStable(s[0], rest, SortBy(s, key), s[1..], s, key, at, at', p);
      at := at';
    }
  }

  lemma SortOrders<T>(s: seq<T>, key: T -> real)
    ensures Ordered(SortBy(s, key), key) && |SortBy(s, key)| == |s|
  {
    var at := SortIsStable(s, key);
  }

  lemma {:induction false} InsertAdds<T>(x: T, s: seq<T>, key: T -> real)
    ensures multiset(Insert(x, s, key)) == multiset{x} + multiset(s)
  {
    if s != [] && !(key(x) <= key(s[0])) {
      InsertAdds(x, s[1..], key);
      assert s == [s[0]] + s[1..];
    }
  }

  lemma {:induction false} SortKeepsElements<T>(s: seq<T>, key: T -> real)
    ensures multiset(SortBy(s, key)) == multiset(s)
  {
    if s != [] {
      SortKeepsElements(s[1..], key);
      InsertAdds(s[0], SortBy(s[1..], key), key);
      assert s == [s[0]] + s[1..];
    }
  }
}

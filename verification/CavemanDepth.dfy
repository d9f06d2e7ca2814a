/**
 The analysis of compression depths over a session's tags
 (scripts/audit-transform-wire-parity-live.ts).
 */
module CavemanDepth {
  import opened StableSort
  import opened Wrappers

  // A database row: absent columns are None.
  datatype Row = Row(tagNumber: int, depthColumn: Option<int>, cavemanDepth: Option<int>)

  function Depth(row: Row): int {
    if row.depthColumn.Some? then row.depthColumn.value
    else if row.cavemanDepth.Some? then row.cavemanDepth.value
    else 0
  }

  datatype Band = Lite | Full | Ultra

  // A record with one field per band.
  datatype Bands<T> = Bands(lite: T, full: T, ultra: T) {
    function Get(band: Band): T {
      match band
      case Lite => lite
      case Full => full
      case Ultra => ultra
    }

    function Set(band: Band, value: T): (r: Bands<T>)
      ensures forall b :: r.Get(b) == if b == band then value else Get(b)
    {
      match band
      case Lite => this.(lite := value)
      case Full => this.(full := value)
      case Ultra => this.(ultra := value)
    }
  }

  datatype Range = Range(minTag: int, maxTag: int)

  function BandOf(depth: int): Option<Band> {
    if depth == 1 then Some(Lite) else if depth == 2 then Some(Full) else if depth == 3 then Some(Ultra) else None
  }

  // The depth column wins over the caveman one; a row with neither is not compressed.
  lemma DepthInFields(row: Row, depth: int)
    ensures Depth(row) == depth <==>
              || row.depthColumn == Some(depth)
              || (row.depthColumn == None && row.cavemanDepth == Some(depth))
              || (row.depthColumn == None && row.cavemanDepth == None && depth == 0)
  {
  }

  // Depths 1, 2 and 3 are lite, full and ultra; others belong to no band.
  lemma BandInFields(row: Row, band: Band)
    ensures InBand(row, band) <==>
              var depth := if band == Lite then 1 else if band == Full then 2 else 3;
              row.depthColumn == Some(depth) || (row.depthColumn == None && row.cavemanDepth == Some(depth))
  {
  }

  predicate InBand(row: Row, band: Band) {
    BandOf(Depth(row)) == Some(band)
  }

  function Tag(row: Row): real {
    row.tagNumber as real
  }

  function ByTag(rows: seq<Row>): seq<Row> {
    SortBy(rows, Tag)
  }

  // How often a row is deeper than the one before it; the first is compared with depth 4.
  function Inversions(rows: seq<Row>): nat {
    if rows == [] then 0
    else
      var n := |rows| - 1;
      Inversions(rows[..n]) + (if Depth(rows[n]) > (if n == 0 then 4 else Depth(rows[n - 1])) then 1 else 0)
  }

  function CountIn(rows: seq<Row>, band: Band): nat {
    if rows == [] then 0
    else CountIn(rows[..|rows| - 1], band) + (if InBand(rows[|rows| - 1], band) then 1 else 0)
  }

  // The exact range of a band's tags; None says that the band is empty.
  ghost predicate IsRange(rows: seq<Row>, band: Band, range: Option<Range>) {
    match range
    case None => forall r :: r in rows ==> !InBand(r, band)
    case Some(Range(lo, hi)) =>
      && (forall r :: r in rows && InBand(r, band) ==> lo <= r.tagNumber <= hi)
      && (exists r :: r in rows && InBand(r, band) && r.tagNumber == lo)
      && (exists r :: r in rows && InBand(r, band) && r.tagNumber == hi)
  }

  function Widen(range: Option<Range>, tag: int): Range {
    match range
    case None => Range(tag, tag)
    case Some(Range(lo, hi)) => Range(if tag < lo then tag else lo, if hi < tag then tag else hi)
  }

  lemma WidenCovers(rows: seq<Row>, row: Row, band: Band, range: Option<Range>)
    requires IsRange(rows, band, range)
    ensures IsRange(rows + [row], band, if InBand(row, band) then Some(Widen(range, row.tagNumber)) else range)
  {
    assert row in rows + [row];
    assert forall r :: r in rows ==> r in rows + [row];
    assert forall r :: r in rows + [row] ==> r in rows || r == row;
  }

  // The counts and ranges of the rows seen so far.
  ghost predicate Tallied(rows: seq<Row>, counts: Bands<nat>, ranges: Bands<Option<Range>>) {
    forall band: Band :: counts.Get(band) == CountIn(rows, band) && IsRange(rows, band, ranges.Get(band))
  }

  lemma TallyRow(rows: seq<Row>, row: Row, counts: Bands<nat>, ranges: Bands<Option<Range>>)
    requires Tallied(rows, counts, ranges)
    ensures var name := BandOf(Depth(row));
            if name.None? then Tallied(rows + [row], counts, ranges)
            else Tallied(rows + [row], counts.Set(name.value, counts.Get(name.value) + 1),
                         ranges.Set(name.value, Some(Widen(ranges.Get(name.value), row.tagNumber))))
  {
    hide IsRange, Widen;
    assert (rows + [row])[..|rows|] == rows;
    forall band: Band {
      WidenCovers(rows, row, band, ranges.Get(band));
    }
  }

  lemma InversionsAppend(rows: seq<Row>, row: Row)
    ensures Inversions(rows + [row]) ==
            Inversions(rows) + (if Depth(row) > (if rows == [] then 4 else Depth(rows[|rows| - 1])) then 1 else 0)
  {
    hide Depth;
    assert (rows + [row])[..|rows|] == rows;
    assert rows != [] ==> (rows + [row])[|rows| - 1] == rows[|rows| - 1];
  }

  lemma SameRows(rows: seq<Row>)
    ensures forall r :: r in ByTag(rows) <==> r in rows
  {
    SortKeepsElements(rows, Tag);
    forall r
      ensures r in ByTag(rows) <==> r in rows
    {
      assert r in multiset(ByTag(rows)) <==> r in multiset(rows);
    }
  }

  lemma {:induction false} CountConcat(a: seq<Row>, b: seq<Row>, band: Band)
    ensures CountIn(a + b, band) == CountIn(a, band) + CountIn(b, band)
    decreases |b|
  {
    hide InBand;
    if b == [] {
      assert a + b == a;
    } else {
      assert (a + b)[..|a + b| - 1] == a + b[..|b| - 1];
      CountConcat(a, b[..|b| - 1], band);
    }
  }

  // The counts are those of the rows themselves.
  lemma {:induction false} CountIgnoresOrder(rows: seq<Row>, band: Band)
    ensures CountIn(ByTag(rows), band) == CountIn(rows, band)
  {
    hide CountIn;
    if rows != [] {
      var rest := ByTag(rows[1..]);
      CountIgnoresOrder(rows[1..], band);
      var p := InsertSplits(rows[0], rest, Tag);
      CountConcat(rest[..p] + [rows[0]], rest[p..], band);
      CountConcat(rest[..p], [rows[0]], band);
      CountConcat(rest[..p], rest[p..], band);
      CountConcat([rows[0]], rows[1..], band);
      assert rest == rest[..p] + rest[p..] && rows == [rows[0]] + rows[1..];
    }
  }

  lemma TalliedIgnoresOrder(rows: seq<Row>, counts: Bands<nat>, ranges: Bands<Option<Range>>)
    requires Tallied(ByTag(rows), counts, ranges)
    ensures Tallied(rows, counts, ranges)
  {
    SameRows(rows);
    forall band: Band
      ensures counts.Get(band) == CountIn(rows, band) && IsRange(rows, band, ranges.Get(band))
    {
      CountIgnoresOrder(rows, band);
    }
  }

  lemma NothingTallied()
    ensures Tallied([], Bands(0, 0, 0), Bands(None, None, None)) && Inversions([]) == 0
  {
  }

  method CompressedDepthState(rows: seq<Row>)
    returns (counts: Bands<nat>, ranges: Bands<Option<Range>>, inversions: nat)
    ensures Tallied(rows, counts, ranges)
    ensures inversions == Inversions(ByTag(rows))
  {
    hide ByTag, Tallied, Widen, Inversions, Depth, BandOf;
    var sorted := ByTag(rows);
    counts := Bands(0, 0, 0);
    ranges := Bands(None, None, None);
    inversions := 0;
    var previous := 4;
    NothingTallied();
    assert sorted[..0] == [];
    for i := 0 to |sorted|
      invariant Tallied(sorted[..i], counts, ranges)
      invariant inversions == Inversions(sorted[..i])
      invariant previous == if i == 0 then 4 else Depth(sorted[i - 1])
    {
      var row := sorted[i];
      var depth := Depth(row);
      TallyRow(sorted[..i], row, counts, ranges);
      InversionsAppend(sorted[..i], row);
      assert sorted[..i + 1] == sorted[..i] + [row];
      if depth > previous {
        inversions := inversions + 1;
      }
      previous := depth;
      var name := BandOf(depth);
      if name.Some? {
        counts := counts.Set(name.value, counts.Get(name.value) + 1);
        ranges := ranges.Set(name.value, Some(Widen(ranges.Get(name.value), row.tagNumber)));
      }
    }
    assert sorted[..|sorted|] == sorted;
    TalliedIgnoresOrder(rows, counts, ranges);
  }

  // ----- What the inversion counter says -----

  lemma {:induction false} InversionFree(rows: seq<Row>)
    ensures Inversions(rows) == 0 <==>
              && (forall i :: 0 <= i < |rows| ==> Depth(rows[i]) <= 4)
              && (forall i, j :: 0 <= i < j < |rows| ==> Depth(rows[j]) <= Depth(rows[i]))
  {
    hide Depth;
    if rows != [] {
      var n := |rows| - 1;
      InversionFree(rows[..n]);
      if Inversions(rows) == 0 && 0 < n {
        forall i | 0 <= i < n
          ensures Depth(rows[n]) <= Depth(rows[i])
        {
          assert Depth(rows[..n][n - 1]) <= Depth(rows[..n][i]);
        }
      }
    }
  }

  ghost predicate DistinctTags(rows: seq<Row>) {
    forall i, j :: 0 <= i < j < |rows| ==> rows[i].tagNumber != rows[j].tagNumber
  }

  lemma ByTagIsStrict(rows: seq<Row>)
    requires DistinctTags(rows)
    ensures forall i, j :: 0 <= i < j < |ByTag(rows)| ==> ByTag(rows)[i].tagNumber < ByTag(rows)[j].tagNumber
  {
    var at := SortIsStable(rows, Tag);
    forall i, j | 0 <= i < j < |ByTag(rows)|
      ensures ByTag(rows)[i].tagNumber < ByTag(rows)[j].tagNumber
    {
      var x, y := ByTag(rows)[i], ByTag(rows)[j];
      assert at[i] != at[j] && x == rows[at[i]] && y == rows[at[j]];
      assert Tag(x) <= Tag(y) && x.tagNumber != y.tagNumber;
    }
  }

  ghost predicate NeverDeepens(rows: seq<Row>) {
    && (forall x :: x in rows ==> Depth(x) <= 4)
    && (forall x, y :: x in rows && y in rows && x.tagNumber < y.tagNumber ==> Depth(y) <= Depth(x))
  }

  lemma InversionFreeNeverDeepens(rows: seq<Row>)
    requires DistinctTags(rows) && Inversions(ByTag(rows)) == 0
    ensures NeverDeepens(rows)
  {
    hide Depth, ByTag;
    var sorted := ByTag(rows);
    SameRows(rows);
    ByTagIsStrict(rows);
    InversionFree(sorted);
    forall x | x in rows
      ensures Depth(x) <= 4
    {
      assert x in sorted;
    }
    forall x, y | x in rows && y in rows && x.tagNumber < y.tagNumber
      ensures Depth(y) <= Depth(x)
    {
      assert x in sorted && y in sorted;
      var i, j :| 0 <= i < |sorted| && 0 <= j < |sorted| && sorted[i] == x && sorted[j] == y;
      assert i < j;
    }
  }

  // With distinct tags the counter is zero iff no depth exceeds 4 and compression never deepens from
  // an older tag to a newer one.
  lemma NoInversionsIff(rows: seq<Row>)
    requires DistinctTags(rows)
    ensures Inversions(ByTag(rows)) == 0 <==> NeverDeepens(rows)
  {
    hide Depth, ByTag;
    if Inversions(ByTag(rows)) == 0 {
      InversionFreeNeverDeepens(rows);
    }
    if NeverDeepens(rows) {
      SameRows(rows);
      ByTagIsStrict(rows);
      InversionFree(ByTag(rows));
      assert forall i :: 0 <= i < |ByTag(rows)| ==> ByTag(rows)[i] in rows;
    }
  }

  function BandDepth(band: Band): nat {
    match band
    case Lite => 1
    case Full => 2
    case Ultra => 3
  }

  ghost predicate Below(deeper: Option<Range>, shallower: Option<Range>) {
    deeper.Some? && shallower.Some? ==> deeper.value.maxTag < shallower.value.minTag
  }

  ghost predicate AreRanges(rows: seq<Row>, ranges: Bands<Option<Range>>) {
    forall band: Band :: IsRange(rows, band, ranges.Get(band))
  }

  ghost predicate BandsAreOrdered(ranges: Bands<Option<Range>>) {
    forall deep: Band, shallow: Band :: BandDepth(shallow) < BandDepth(deep) ==>
      Below(ranges.Get(deep), ranges.Get(shallow))
  }

  lemma OrderedBandsNeverDeepen(rows: seq<Row>, ranges: Bands<Option<Range>>)
    requires AreRanges(rows, ranges) && BandsAreOrdered(ranges) && forall r :: r in rows ==> 1 <= Depth(r) <= 3
    ensures NeverDeepens(rows)
  {
    hide Depth;
    forall x, y | x in rows && y in rows && x.tagNumber < y.tagNumber
      ensures Depth(y) <= Depth(x)
    {
      var deep, shallow := BandOf(Depth(y)).value, BandOf(Depth(x)).value;
      assert InBand(y, deep) && InBand(x, shallow);
      assert IsRange(rows, deep, ranges.Get(deep)) && IsRange(rows, shallow, ranges.Get(shallow));
      assert BandDepth(shallow) < BandDepth(deep) ==> Below(ranges.Get(deep), ranges.Get(shallow));
    }
  }

  // For rows of depths 1 to 3 with distinct tags, the counter is zero iff every deeper band's largest
  // tag lies below every shallower band's smallest.
  lemma NoInversionsIffBandsAreOrdered(rows: seq<Row>, ranges: Bands<Option<Range>>)
    requires DistinctTags(rows) && AreRanges(rows, ranges) && forall r :: r in rows ==> 1 <= Depth(r) <= 3
    ensures Inversions(ByTag(rows)) == 0 <==> BandsAreOrdered(ranges)
  {
    hide Depth, ByTag, Inversions;
    NoInversionsIff(rows);
    if NeverDeepens(rows) {
      forall deep: Band, shallow: Band | BandDepth(shallow) < BandDepth(deep)
        ensures Below(ranges.Get(deep), ranges.Get(shallow))
      {
        if ranges.Get(deep).Some? && ranges.Get(shallow).Some? {
          assert IsRange(rows, deep, ranges.Get(deep)) && IsRange(rows, shallow, ranges.Get(shallow));
          var x :| x in rows && InBand(x, deep) && x.tagNumber == ranges.Get(deep).value.maxTag;
          var y :| y in rows && InBand(y, shallow) && y.tagNumber == ranges.Get(shallow).value.minTag;
          TagsDiffer(rows, x, y);
        }
      }
    }
    if BandsAreOrdered(ranges) {
      OrderedBandsNeverDeepen(rows, ranges);
    }
  }

  lemma TagsDiffer(rows: seq<Row>, x: Row, y: Row)
    requires DistinctTags(rows) && x in rows && y in rows && Depth(x) != Depth(y)
    ensures x.tagNumber != y.tagNumber
  {
    var i, j :| 0 <= i < |rows| && 0 <= j < |rows| && rows[i] == x && rows[j] == y;
    assert i != j;
  }
}

/**
 * The pure helpers of the Planet imagery search (src/planet/planet_query.py):
 * the coordinate swap that puts polygon positions in (longitude, latitude)
 * order (section 3.1.1 of RFC 7946), the coverage filter over search results,
 * the label date string, and the batches of ten features the search runs in.
 *
 * The Planet client, the asynchronous searches and the progress bars are not
 * modelled; a feature's search is a function from its row index to its results,
 * and the overlap of a footprint with the area of interest is a function that
 * may fail.
 */
module PlanetQuery {
  import opened Wrappers
  import opened Text
  import opened GeoJson

  // ---------------------------------------------------------------------------
  // fix_geometry_coordinates
  // ---------------------------------------------------------------------------

  function SwapPosition(p: Position): Position {
    Position(p.second, p.first)
  }

  function SwapRing(ring: Ring): (r: Ring)
    ensures |r| == |ring|
  {
    seq(|ring|, j requires 0 <= j < |ring| => SwapPosition(ring[j]))
  }

  /** A Polygon gets the two entries of each position swapped; any other geometry is returned as it is. */
  function FixGeometryCoordinates(g: Geometry): (r: Geometry)
    ensures g.OtherGeometry? ==> r == g
    ensures g.Polygon? <==> r.Polygon?
  {
    match g
    case Polygon(rings) => Polygon(seq(|rings|, i requires 0 <= i < |rings| => SwapRing(rings[i])))
    case OtherGeometry(_) => g
  }

  /**
   * The fixed polygon has as many rings as the input, each as long as before,
   * and position j of ring i is the input's position with its entries exchanged.
   */
  lemma FixGeometryShape(g: Geometry)
    requires g.Polygon?
    ensures var r := FixGeometryCoordinates(g);
      && |r.rings| == |g.rings|
      && (forall i :: 0 <= i < |g.rings| ==> |r.rings[i]| == |g.rings[i]|)
      && (forall i, j :: 0 <= i < |g.rings| && 0 <= j < |g.rings[i]| ==>
            r.rings[i][j].first == g.rings[i][j].second && r.rings[i][j].second == g.rings[i][j].first)
  {
  }

  /** Swapping twice gives the input back. */
  lemma FixGeometryInvolution(g: Geometry)
    ensures FixGeometryCoordinates(FixGeometryCoordinates(g)) == g
  {
    match g
    case Polygon(rings) =>
      var r := FixGeometryCoordinates(g);
      var rr := FixGeometryCoordinates(r);
      assert |rr.rings| == |rings|;
      forall i | 0 <= i < |rings|
        ensures rr.rings[i] == rings[i]
      {
        assert |rr.rings[i]| == |rings[i]|;
        forall j | 0 <= j < |rings[i]|
          ensures rr.rings[i][j] == rings[i][j]
        {
        }
      }
    case OtherGeometry(_) =>
  }

  /** A linear ring (closed, four or more positions) stays one after the swap. */
  lemma FixGeometryKeepsLinearRings(g: Geometry)
    requires g.Polygon?
    ensures forall i :: 0 <= i < |g.rings| && IsLinearRing(g.rings[i]) ==>
      IsLinearRing(FixGeometryCoordinates(g).rings[i])
  {
  }

  // ---------------------------------------------------------------------------
  // filter_by_coverage
  // ---------------------------------------------------------------------------

  /** A search result: its footprint and the overlap percentage recorded in its feature metadata. */
  class Item {
    const footprint: Geometry
    var overlapPercent: Option<real>

    constructor (footprint: Geometry)
      ensures this.footprint == footprint && overlapPercent == None
    {
      this.footprint := footprint;
      overlapPercent := None;
    }
  }

  /**
   * The percentage of the area of interest a footprint covers, or None when the
   * computation raises (an unusable footprint, an area of interest of zero area).
   */
  type Coverage = Geometry -> Option<real>

  /** The coverage a search uses: the whole area of interest. */
  const FullCoverage: real := 100.0

  predicate Covers(coverage: Coverage, minCoverage: real, footprint: Geometry) {
    coverage(footprint).Some? && coverage(footprint).value >= minCoverage
  }

  /** The items the filter keeps, in input order. */
  function CoveredItems(items: seq<Item>, coverage: Coverage, minCoverage: real): seq<Item>
    decreases |items|
  {
    if items == [] then []
    else
      var init := CoveredItems(items[..|items| - 1], coverage, minCoverage);
      var last := items[|items| - 1];
      if Covers(coverage, minCoverage, last.footprint) then init + [last] else init
  }

  /** An item is kept exactly when its overlap could be computed and reaches the minimum. */
  lemma {:induction false} CoveredItemsSpec(items: seq<Item>, coverage: Coverage, minCoverage: real)
    ensures |CoveredItems(items, coverage, minCoverage)| <= |items|
    ensures forall it :: it in CoveredItems(items, coverage, minCoverage) <==>
      it in items && Covers(coverage, minCoverage, it.footprint)
    decreases |items|
  {
    if items != [] {
      var init := items[..|items| - 1];
      CoveredItemsSpec(init, coverage, minCoverage);
      assert items == init + [items[|items| - 1]];
      assert forall it :: it in items <==> it in init || it == items[|items| - 1];
    }
  }

  /** The filter of two lists back to back is the two filters back to back: it keeps input order. */
  lemma {:induction false} CoveredItemsAppend(a: seq<Item>, b: seq<Item>, coverage: Coverage, minCoverage: real)
    ensures CoveredItems(a + b, coverage, minCoverage) ==
      CoveredItems(a, coverage, minCoverage) + CoveredItems(b, coverage, minCoverage)
    decreases |b|
  {
    if b == [] {
      assert a + b == a;
    } else {
      var init := b[..|b| - 1];
      CoveredItemsAppend(a, init, coverage, minCoverage);
      assert (a + b)[..|a + b| - 1] == a + init;
      assert (a + b)[|a + b| - 1] == b[|b| - 1];
    }
  }

  /**
   * filter_by_coverage. None stands for the exception raised when the area of
   * interest itself cannot be turned into a shape (`aoiBuilds` false), which only
   * happens for a non-empty list. Each item whose overlap could be computed gets
   * it recorded, whether or not it is kept; the others are left as they were.
   */
  method FilterByCoverage(items: seq<Item>, aoiBuilds: bool, coverage: Coverage, minCoverage: real)
    returns (r: Option<seq<Item>>)
    modifies set it | it in items
    ensures items == [] ==> r == Some([])
    ensures items != [] ==> (r.Some? <==> aoiBuilds)
    ensures r.Some? ==> r.value == CoveredItems(items, coverage, minCoverage)
    ensures forall it <- items ::
      it.overlapPercent == if r.Some? && coverage(it.footprint).Some? then coverage(it.footprint) else old(it.overlapPercent)
  {
    if items == [] {
      return Some([]);
    }
    if !aoiBuilds {
      return None;
    }
    var filtered := [];
    for i := 0 to |items|
      invariant filtered == CoveredItems(items[..i], coverage, minCoverage)
      invariant forall it <- items ::
        it.overlapPercent == if it in items[..i] && coverage(it.footprint).Some? then coverage(it.footprint) else old(it.overlapPercent)
    {
      var item := items[i];
      assert items[..i + 1] == items[..i] + [item];
      assert items[..i + 1][..i] == items[..i];
      var overlap := coverage(item.footprint);
      if overlap.Some? {
        item.overlapPercent := overlap;
        if overlap.value >= minCoverage {
          filtered := filtered + [item];
        }
      }
    }
    assert items[..|items|] == items;
    r := Some(filtered);
  }

  // ---------------------------------------------------------------------------
  // The date string
  // ---------------------------------------------------------------------------

  /** Format spec 02d: at least two characters, zero-padded on the left. */
  function Pad2(n: int): (s: string)
    ensures |s| >= 2
  {
    if 0 <= n < 10 then "0" + NatToString(n)
    else
      NatToStringLengthBound(if n < 0 then -n else n, 1);
      IntToString(n)
  }

  /** A two-digit number comes out as exactly two ASCII digits. */
  lemma Pad2Width(n: int)
    requires 0 <= n < 100
    ensures |Pad2(n)| == 2 && IsDigits(Pad2(n))
  {
    NatToStringLengthBound(n, 2);
  }

  /** Padding with zeros does not change the number int() reads back. */
  lemma Pad2RoundTrip(n: int)
    requires n >= 0
    ensures ParseInt(Pad2(n)) == Some(n)
  {
    if n < 10 {
      assert Pad2(n) == ['0', DigitChar(n)];
      LeadingZeroValue(n);
    } else {
      assert Pad2(n) == IntToString(n);
      ParseIntOfIntToString(n);
    }
  }

  /** int() of "0" followed by one digit is that digit. */
  lemma LeadingZeroValue(n: nat)
    requires n < 10
    ensures ParseInt(['0', DigitChar(n)]) == Some(n)
  {
    var s := ['0', DigitChar(n)];
    StripNoOp(s);
    assert IsDigits(s);
    assert s[..1] == "0";
    assert DigitsValue("0") == 0 by { assert "0"[..0] == ""; }
  }

  /** The label date as `year-MM-DD`. */
  function DateString(year: int, month: int, day: int): string {
    IntToString(year) + "-" + Pad2(month) + "-" + Pad2(day)
  }

  /** For non-negative fields the date string splits at '-' into three pieces that read back as year, month and day. */
  lemma DateStringRoundTrip(year: int, month: int, day: int)
    requires year >= 0 && month >= 0 && day >= 0
    ensures var parts := Split(DateString(year, month, day), '-');
      |parts| == 3 && ParseInt(parts[0]) == Some(year) && ParseInt(parts[1]) == Some(month) && ParseInt(parts[2]) == Some(day)
  {
    DateStringSplits(year, month, day);
    ParseIntOfIntToString(year);
    Pad2RoundTrip(month);
    Pad2RoundTrip(day);
  }

  /** A date string splits at its two '-' into the year and the padded month and day. */
  lemma DateStringSplits(year: int, month: int, day: int)
    requires year >= 0 && month >= 0 && day >= 0
    ensures Split(DateString(year, month, day), '-') == [IntToString(year), Pad2(month), Pad2(day)]
  {
    var y, m, d := IntToString(year), Pad2(month), Pad2(day);
    assert forall c <- y :: IsDigit(c);
    assert forall c <- m :: IsDigit(c) by { Pad2Digits(month); }
    assert forall c <- d :: IsDigit(c) by { Pad2Digits(day); }
    assert DateString(year, month, day) == y + ['-'] + m + ['-'] + d;
    SplitThree(y, m, d, '-');
  }

  lemma Pad2Digits(n: int)
    requires n >= 0
    ensures forall c <- Pad2(n) :: IsDigit(c)
  {
    assert forall c <- NatToString(n) :: IsDigit(c);
  }

  /** A date with a month and day below 100 and a four-digit year is ten characters long. */
  lemma DateStringLength(year: int, month: int, day: int)
    requires 1000 <= year <= 9999 && 0 <= month < 100 && 0 <= day < 100
    ensures |DateString(year, month, day)| == 10
  {
    NatToStringFourWide(year);
    Pad2Width(month);
    Pad2Width(day);
  }

  // ---------------------------------------------------------------------------
  // The batches of the search
  // ---------------------------------------------------------------------------

  const BatchSize: nat := 10

  /** n_batches: the number of batches, rounded up. */
  function BatchCount(n: nat): nat {
    (n + BatchSize - 1) / BatchSize
  }

  function MinNat(a: nat, b: nat): nat { if a <= b then a else b }

  /** The half-open row ranges [start, end) the batch loop visits from `start` on. */
  function BatchesFrom(n: nat, start: nat): seq<(nat, nat)>
    decreases n - start
  {
    if start >= n then [] else [(start, MinNat(start + BatchSize, n))] + BatchesFrom(n, start + BatchSize)
  }

  function Batches(n: nat): seq<(nat, nat)> {
    BatchesFrom(n, 0)
  }

  /** The rows lo, lo + 1, ..., hi - 1. */
  function Range(lo: nat, hi: nat): (r: seq<nat>)
    ensures |r| == if lo <= hi then hi - lo else 0
    decreases hi - lo
  {
    if lo >= hi then [] else [lo] + Range(lo + 1, hi)
  }

  /** The rows of a list of ranges, range after range. */
  function RowsOf(batches: seq<(nat, nat)>): seq<nat> {
    if batches == [] then [] else Range(batches[0].0, batches[0].1) + RowsOf(batches[1..])
  }

  lemma {:induction false} RangeSplit(lo: nat, mid: nat, hi: nat)
    requires lo <= mid <= hi
    ensures Range(lo, mid) + Range(mid, hi) == Range(lo, hi)
    decreases mid - lo
  {
    if lo < mid {
      RangeSplit(lo + 1, mid, hi);
      assert Range(lo, mid) + Range(mid, hi) == [lo] + (Range(lo + 1, mid) + Range(mid, hi));
    }
  }

  lemma {:induction false} BatchesFromPartition(n: nat, start: nat)
    requires start <= n
    ensures RowsOf(BatchesFrom(n, start)) == Range(start, n)
    decreases n - start
  {
    if start < n {
      var end := MinNat(start + BatchSize, n);
      var rest := BatchesFrom(n, start + BatchSize);
      assert BatchesFrom(n, start)[1..] == rest;
      if start + BatchSize <= n {
        BatchesFromPartition(n, start + BatchSize);
      }
      RangeSplit(start, end, n);
    }
  }

  /** The batches cover the rows 0..n-1 once each, in order. */
  lemma BatchesPartition(n: nat)
    ensures RowsOf(Batches(n)) == Range(0, n)
  {
    BatchesFromPartition(n, 0);
  }

  lemma {:induction false} BatchesFromShape(n: nat, start: nat)
    requires start <= n
    ensures |BatchesFrom(n, start)| == (n - start + BatchSize - 1) / BatchSize
    ensures forall k :: 0 <= k < |BatchesFrom(n, start)| ==>
      var b := BatchesFrom(n, start)[k];
      b.0 == start + BatchSize * k && b.0 < b.1 <= b.0 + BatchSize && b.1 <= n
    decreases n - start
  {
    if start < n {
      var bs := BatchesFrom(n, start);
      if start + BatchSize <= n {
        BatchesFromShape(n, start + BatchSize);
        forall k | 1 <= k < |bs|
          ensures bs[k] == BatchesFrom(n, start + BatchSize)[k - 1]
        {
        }
      } else {
        assert BatchesFrom(n, start + BatchSize) == [];
      }
    }
  }

  /**
   * There are n_batches batches; batch k starts at row 10k (its label is k + 1),
   * holds between one and ten rows and ends at or before n.
   */
  lemma BatchesShape(n: nat)
    ensures |Batches(n)| == BatchCount(n)
    ensures forall k :: 0 <= k < |Batches(n)| ==>
      var b := Batches(n)[k];
      b.0 == BatchSize * k && 1 <= b.1 - b.0 <= BatchSize && b.1 <= n
  {
    BatchesFromShape(n, 0);
  }

  /** The results of the given rows, row after row. */
  function Gathered<T>(rows: seq<nat>, search: nat -> seq<T>): seq<T> {
    if rows == [] then [] else search(rows[0]) + Gathered(rows[1..], search)
  }

  lemma {:induction false} GatheredAppend<T>(a: seq<nat>, b: seq<nat>, search: nat -> seq<T>)
    ensures Gathered(a + b, search) == Gathered(a, search) + Gathered(b, search)
    decreases |a|
  {
    if a == [] {
      assert a + b == b;
    } else {
      GatheredAppend(a[1..], b, search);
      assert (a + b)[1..] == a[1..] + b;
    }
  }

  lemma GatheredNext<T>(k: nat, search: nat -> seq<T>)
    ensures Gathered(Range(0, k + 1), search) == Gathered(Range(0, k), search) + search(k)
  {
    RangeSplit(0, k, k + 1);
    GatheredAppend(Range(0, k), [k], search);
    assert Range(k, k + 1) == [k];
    assert Gathered([k], search) == search(k) + Gathered([], search);
  }

  /**
   * The batch loop of search_planet_imagery over n rows: each batch gathers the
   * results of its rows in row order and all_results is extended batch by batch,
   * so the outcome is every row's results in row order. `batches` records the
   * ranges the loop visits.
   */
  method SearchInBatches<T>(n: nat, search: nat -> seq<T>) returns (allResults: seq<T>, ghost batches: seq<(nat, nat)>)
    ensures allResults == Gathered(Range(0, n), search)
    ensures batches == Batches(n)
  {
    allResults := [];
    batches := [];
    var batchStart: nat := 0;
    while batchStart < n
      invariant allResults == Gathered(Range(0, MinNat(batchStart, n)), search)
      invariant batches + BatchesFrom(n, batchStart) == Batches(n)
      decreases n - batchStart
    {
      var batchEnd := MinNat(batchStart + BatchSize, n);
      allResults := SearchBatch(allResults, batchStart, batchEnd, search);
      assert BatchesFrom(n, batchStart) == [(batchStart, batchEnd)] + BatchesFrom(n, batchStart + BatchSize);
      batches := batches + [(batchStart, batchEnd)];
      batchStart := batchStart + BatchSize;
    }
  }

  /** One batch: the results of rows batchStart..batchEnd - 1, in row order, after those gathered so far. */
  method SearchBatch<T>(gathered: seq<T>, batchStart: nat, batchEnd: nat, search: nat -> seq<T>) returns (allResults: seq<T>)
    requires batchStart <= batchEnd
    requires gathered == Gathered(Range(0, batchStart), search)
    ensures allResults == Gathered(Range(0, batchEnd), search)
  {
    allResults := gathered;
    var batchResults := seq(batchEnd - batchStart, j requires 0 <= j < batchEnd - batchStart => search(batchStart + j));
    for j := 0 to |batchResults|
      invariant allResults == Gathered(Range(0, batchStart + j), search)
    {
      GatheredNext(batchStart + j, search);
      allResults := allResults + batchResults[j];
    }
  }
}

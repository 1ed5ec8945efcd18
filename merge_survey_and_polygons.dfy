/**
 * Reconciliation of a survey table with the polygons labelled for it
 * (src/processing/merge_survey_and_polygons.py). Each survey row is matched to
 * the polygons drawn for the same site and date, checked against them by four
 * consistency rules, and given coverage statistics; matched polygons are stamped
 * with the row's site id in a shared table, and polygons no row claims are
 * reported at the end.
 *
 * The shapely work (make_valid, unary_union, intersection, areas, reprojection)
 * is a parameter of type Shapes; the table reads and file writes are left out.
 */
module MergeSurvey {
  import opened Wrappers
  import opened Text
  import GeoJson
  import Geometries
  import PosixPath

  // ---------------------------------------------------------------------------
  // Data
  // ---------------------------------------------------------------------------

  /** One row of the survey CSV; `x` is the longitude and `y` the latitude. */
  datatype SurveyRow = SurveyRow(
    internalId: int, siteId: string,
    year: int, month: int, day: int,
    irrigation: int,
    x: real, y: real)

  /** One labelled polygon; `siteId` is the column the merge adds and fills. */
  datatype Polygon = Polygon(
    internalId: int,
    year: int, month: int, day: int,
    certainty: int,
    specialCategory: Option<string>,
    siteId: Option<string>,
    geometry: GeoJson.Geometry)

  /**
   * The geometry library, left abstract:
   *  - area(g): planar area in the survey's coordinates;
   *  - intersects(f, g): whether the footprint f meets make_valid(g);
   *  - coveredArea(f, gs): area of f intersected with the union of make_valid(gs);
   *  - projectedArea(g): area of make_valid(g) reprojected to EPSG:32735, in m².
   */
  datatype Shapes = Shapes(
    area: GeoJson.Geometry -> real,
    intersects: (GeoJson.Geometry, GeoJson.Geometry) -> bool,
    coveredArea: (GeoJson.Geometry, seq<GeoJson.Geometry>) -> real,
    projectedArea: GeoJson.Geometry -> real)

  /** int(site_id[3:]) raising ValueError aborts the whole merge. */
  datatype MergeError = SiteIdSuffixNotInteger(rowIndex: nat, siteId: string)

  /** The footprint of a survey row: survey_polygon applied to it. */
  function Footprint(destination: Geometries.Destination, row: SurveyRow): GeoJson.Geometry {
    Geometries.SurveyPolygon(destination, row.x, row.y)
  }

  // ---------------------------------------------------------------------------
  // Matching
  // ---------------------------------------------------------------------------

  /** The id some labellers used instead of internal_id: the site id after its first three characters. */
  function LegacyId(siteId: string): Option<int> {
    ParseInt(if |siteId| <= 3 then "" else siteId[3..])
  }

  /** The match condition: same id (or the legacy id) and the same year, month and day. */
  predicate IsMatch(p: Polygon, row: SurveyRow, legacyId: int) {
    (p.internalId == row.internalId || p.internalId == legacyId)
    && p.year == row.year && p.month == row.month && p.day == row.day
  }

  /** The positions in the table of the polygons matching a row, in table order. */
  function MatchIndices(polys: seq<Polygon>, row: SurveyRow, legacyId: int): (ix: seq<nat>)
    ensures forall k :: 0 <= k < |ix| ==> ix[k] < |polys|
    decreases |polys|
  {
    if polys == [] then []
    else
      var last: nat := |polys| - 1;
      var rest := MatchIndices(polys[..last], row, legacyId);
      if IsMatch(polys[last], row, legacyId) then rest + [last] else rest
  }

  /**
   * A polygon's position is listed exactly when it matches, and the positions
   * come in table order.
   */
  lemma MatchIndicesSpec(polys: seq<Polygon>, row: SurveyRow, legacyId: int)
    ensures var ix := MatchIndices(polys, row, legacyId);
      && (forall k :: 0 <= k < |ix| ==> IsMatch(polys[ix[k]], row, legacyId))
      && (forall j :: 0 <= j < |polys| && IsMatch(polys[j], row, legacyId) ==> j in ix)
      && (forall a, b :: 0 <= a < b < |ix| ==> ix[a] < ix[b])
  {
    MatchIndicesSound(polys, row, legacyId);
    MatchIndicesComplete(polys, row, legacyId);
    MatchIndicesIncreasing(polys, row, legacyId);
  }

  lemma {:induction false} MatchIndicesSound(polys: seq<Polygon>, row: SurveyRow, legacyId: int)
    ensures forall j <- MatchIndices(polys, row, legacyId) :: j < |polys| && IsMatch(polys[j], row, legacyId)
    decreases |polys|
  {
    if polys != [] {
      var init := polys[..|polys| - 1];
      MatchIndicesSound(init, row, legacyId);
      assert forall j <- MatchIndices(init, row, legacyId) :: polys[j] == init[j];
    }
  }

  lemma {:induction false} MatchIndicesComplete(polys: seq<Polygon>, row: SurveyRow, legacyId: int)
    ensures var ix := MatchIndices(polys, row, legacyId);
      forall j :: 0 <= j < |polys| && IsMatch(polys[j], row, legacyId) ==> j in ix
    decreases |polys|
  {
    if polys != [] {
      var init := polys[..|polys| - 1];
      MatchIndicesComplete(init, row, legacyId);
      assert forall j :: 0 <= j < |init| ==> init[j] == polys[j];
    }
  }

  lemma {:induction false} MatchIndicesIncreasing(polys: seq<Polygon>, row: SurveyRow, legacyId: int)
    ensures forall a, b :: 0 <= a < b < |MatchIndices(polys, row, legacyId)| ==>
      MatchIndices(polys, row, legacyId)[a] < MatchIndices(polys, row, legacyId)[b]
    decreases |polys|
  {
    if polys != [] {
      var init := polys[..|polys| - 1];
      MatchIndicesIncreasing(init, row, legacyId);
    }
  }

  /** polygons[condition]: the rows at the given positions. */
  function Select(polys: seq<Polygon>, ix: seq<nat>): seq<Polygon>
    requires forall k :: 0 <= k < |ix| ==> ix[k] < |polys|
  {
    seq(|ix|, k requires 0 <= k < |ix| => polys[ix[k]])
  }

  /** polygons.loc[condition, "site_id"] = row["site_id"]. */
  function Stamp(polys: seq<Polygon>, row: SurveyRow, legacyId: int): seq<Polygon> {
    seq(|polys|, j requires 0 <= j < |polys| =>
      if IsMatch(polys[j], row, legacyId) then polys[j].(siteId := Some(row.siteId)) else polys[j])
  }

  /** polygons["site_id"] = None. */
  function Unstamped(polys: seq<Polygon>): seq<Polygon> {
    seq(|polys|, j requires 0 <= j < |polys| => polys[j].(siteId := None))
  }

  // ---------------------------------------------------------------------------
  // Consistency rules
  // ---------------------------------------------------------------------------

  /** The four inconsistencies between a row's irrigation label and its matched polygons. */
  datatype Issue =
    | NoIrrigationButPolygons(matched: nat)        // rule 1
    | IrrigationButNoPolygons(irrigation: int)     // rule 2
    | CertainButNoCertainPolygon                   // rule 3
    | UncertainButCertainPolygon(irrigation: int)  // rule 4

  function Rule(issue: Issue): nat {
    match issue
    case NoIrrigationButPolygons(_) => 1
    case IrrigationButNoPolygons(_) => 2
    case CertainButNoCertainPolygon => 3
    case UncertainButCertainPolygon(_) => 4
  }

  function MaxOf(xs: seq<int>): (m: int)
    requires xs != []
    ensures m in xs && forall x <- xs :: x <= m
    decreases |xs|
  {
    if |xs| == 1 then xs[0]
    else
      var rest := MaxOf(xs[1..]);
      assert forall x <- xs :: x == xs[0] || x in xs[1..];
      if xs[0] >= rest then xs[0] else rest
  }

  /**
   * check_irrigation_polygon_consistency, on the irrigation label and the
   * certainties of the matched polygons (one per match).
   */
  function ConsistencyIssues(irrigation: int, certainties: seq<int>): (issues: seq<Issue>)
    ensures |issues| <= 2
  {
    var rule1 := if irrigation == 1 && certainties != [] then [NoIrrigationButPolygons(|certainties|)] else [];
    var rule2 := if irrigation > 1 && certainties == [] then [IrrigationButNoPolygons(irrigation)] else [];
    var rule3 := if irrigation == 5 && (certainties == [] || MaxOf(certainties) < 5) then [CertainButNoCertainPolygon] else [];
    var rule4 := if irrigation in {2, 3, 4} && certainties != [] && MaxOf(certainties) > 4 then [UncertainButCertainPolygon(irrigation)] else [];
    rule1 + rule2 + rule3 + rule4
  }

  /**
   * The four rules: issues come in rule order; irrigation 1 with matches gives
   * exactly one issue; irrigation above 1 without matches gives the missing-polygon
   * issue (followed, for 5, by the no-certain-polygon one); with matches,
   * irrigation 5 gives an issue iff every certainty is below 5 and irrigation
   * 2 to 4 iff some certainty is above 4.
   */
  lemma ConsistencyRules(irrigation: int, certainties: seq<int>)
    ensures var issues := ConsistencyIssues(irrigation, certainties);
      && (forall a, b :: 0 <= a < b < |issues| ==> Rule(issues[a]) < Rule(issues[b]))
      && (irrigation == 1 && certainties != [] ==> issues == [NoIrrigationButPolygons(|certainties|)])
      && (irrigation == 1 && certainties == [] ==> issues == [])
      && (irrigation > 1 && certainties == [] ==> issues != [] && issues[0] == IrrigationButNoPolygons(irrigation))
      && (irrigation == 5 && certainties == [] ==> issues == [IrrigationButNoPolygons(5), CertainButNoCertainPolygon])
      && (irrigation > 1 && irrigation != 5 && certainties == [] ==> issues == [IrrigationButNoPolygons(irrigation)])
      && (irrigation == 5 && certainties != [] ==>
            (issues != [] <==> forall c <- certainties :: c < 5)
            && (issues != [] ==> issues == [CertainButNoCertainPolygon]))
      && (2 <= irrigation <= 4 && certainties != [] ==>
            (issues != [] <==> exists c <- certainties :: c > 4)
            && (issues != [] ==> issues == [UncertainButCertainPolygon(irrigation)]))
      && ((irrigation < 1 || irrigation > 5) && certainties != [] ==> issues == [])
      && (irrigation < 1 ==> issues == [])
  {
  }

  function Certainties(ms: seq<Polygon>): seq<int> {
    seq(|ms|, k requires 0 <= k < |ms| => ms[k].certainty)
  }

  // ---------------------------------------------------------------------------
  // The report
  // ---------------------------------------------------------------------------

  /** A line of the check report, before it is rendered as text. */
  datatype ReportLine =
    | RowIssue(rowIndex: nat, row: SurveyRow, issue: Issue)
    | PolygonOutsideSurvey(polygonIndex: nat, polygon: Polygon)
    | UnmatchedPolygon(polygonIndex: nat, polygon: Polygon)
    | AllChecksPassed

  const AllPassedText: string := "All checks passed successfully."

  function DateText(day: int, month: int, year: int): string {
    IntToString(day) + "/" + IntToString(month) + "/" + IntToString(year)
  }

  function IssueText(issue: Issue): string {
    match issue
    case NoIrrigationButPolygons(n) =>
      "survey marked irrigation as 1 (no irrigation) but found " + IntToString(n) + " matching polygon(s)."
    case IrrigationButNoPolygons(irrigation) =>
      "survey marked irrigation " + IntToString(irrigation) + " (possible irrigation) but no matching polygons found."
    case CertainButNoCertainPolygon =>
      "survey marked irrigation 5 (definitely irrgation) but no polygon with certainty 5 found."
    case UncertainButCertainPolygon(irrigation) =>
      "survey marked irrigation " + IntToString(irrigation) + " (uncertain) but found a polygon with certainty 5 (certain)."
  }

  /**
   * The text of a report line. Row lines name the row index, its internal_id and
   * its date; polygon lines name the polygon's position, internal_id and date;
   * the success sentinel is the only line with the sentinel's text.
   */
  function Render(line: ReportLine): (text: string)
    ensures line.RowIssue? ==>
      StartsWith(text, "Row " + IntToString(line.rowIndex))
      && Contains(text, IntToString(line.row.internalId))
      && Contains(text, DateText(line.row.day, line.row.month, line.row.year))
    ensures line.PolygonOutsideSurvey? || line.UnmatchedPolygon? ==>
      StartsWith(text, "Polygon " + IntToString(line.polygonIndex))
      && Contains(text, IntToString(line.polygon.internalId))
      && Contains(text, DateText(line.polygon.day, line.polygon.month, line.polygon.year))
    ensures text == AllPassedText <==> line.AllChecksPassed?
  {
    match line
    case RowIssue(idx, row, issue) =>
      var prefix := "Row " + IntToString(idx);
      var tail := "): " + IssueText(issue);
      var text := prefix + " (internal_id " + IntToString(row.internalId) + ", " + DateText(row.day, row.month, row.year) + tail;
      TaggedText(prefix, " (internal_id ", IntToString(row.internalId), ", ", DateText(row.day, row.month, row.year), tail);
      assert text[0] == prefix[0];
      text
    case PolygonOutsideSurvey(idx, p) =>
      PolygonText(idx, p, " does not overlap the survey area.")
    case UnmatchedPolygon(idx, p) =>
      PolygonText(idx, p, " has no matching survey row.")
    case AllChecksPassed =>
      AllPassedText
  }

  function PolygonText(idx: nat, p: Polygon, tail: string): (text: string)
    ensures StartsWith(text, "Polygon " + IntToString(idx))
    ensures Contains(text, IntToString(p.internalId))
    ensures Contains(text, DateText(p.day, p.month, p.year))
    ensures text[0] == 'P'
  {
    var prefix := "Polygon " + IntToString(idx);
    var text := prefix + " (internal_id " + IntToString(p.internalId) + ", " + DateText(p.day, p.month, p.year) + (")" + tail);
    TaggedText(prefix, " (internal_id ", IntToString(p.internalId), ", ", DateText(p.day, p.month, p.year), ")" + tail);
    assert text[0] == prefix[0];
    text
  }

  /** A text laid out as prefix, caption, id, separator, date and tail starts with the prefix and holds the id and the date. */
  lemma TaggedText(prefix: string, caption: string, id: string, sep: string, date: string, tail: string)
    ensures var text := prefix + caption + id + sep + date + tail;
      StartsWith(text, prefix) && Contains(text, id) && Contains(text, date)
  {
    var text := prefix + caption + id + sep + date + tail;
    assert text[..|prefix|] == prefix;
    var at := |prefix| + |caption|;
    assert text[at..at + |id|] == id;
    assert OccursAt(text, id, at);
    var at2 := at + |id| + |sep|;
    assert text[at2..at2 + |date|] == date;
    assert OccursAt(text, date, at2);
  }

  /** The issue lines of one row, in rule order. */
  function IssueLines(idx: nat, row: SurveyRow, issues: seq<Issue>): seq<ReportLine> {
    seq(|issues|, k requires 0 <= k < |issues| => RowIssue(idx, row, issues[k]))
  }

  /** The "does not overlap" lines for the matches at positions ix, in that order. */
  function OutsideLines(footprint: GeoJson.Geometry, polys: seq<Polygon>, ix: seq<nat>, shapes: Shapes): seq<ReportLine>
    requires forall k :: 0 <= k < |ix| ==> ix[k] < |polys|
    decreases |ix|
  {
    if ix == [] then []
    else
      var last := |ix| - 1;
      var j := ix[last];
      OutsideLines(footprint, polys, ix[..last], shapes)
        + (if shapes.intersects(footprint, polys[j].geometry) then [] else [PolygonOutsideSurvey(j, polys[j])])
  }

  /** Exactly the listed polygons the footprint does not meet get a line. */
  lemma {:induction false} OutsideLinesSpec(footprint: GeoJson.Geometry, polys: seq<Polygon>, ix: seq<nat>, shapes: Shapes)
    requires forall k :: 0 <= k < |ix| ==> ix[k] < |polys|
    ensures var lines := OutsideLines(footprint, polys, ix, shapes);
      && (forall l <- lines ::
            l.PolygonOutsideSurvey? && l.polygonIndex in ix && l.polygonIndex < |polys|
            && l.polygon == polys[l.polygonIndex] && !shapes.intersects(footprint, l.polygon.geometry))
      && (forall k :: 0 <= k < |ix| && !shapes.intersects(footprint, polys[ix[k]].geometry) ==>
            PolygonOutsideSurvey(ix[k], polys[ix[k]]) in lines)
    decreases |ix|
  {
    if ix != [] {
      var last := |ix| - 1;
      OutsideLinesSpec(footprint, polys, ix[..last], shapes);
      assert forall k :: 0 <= k < last ==> ix[..last][k] == ix[k];
    }
  }

  /** The sweep: one line per polygon whose site id is still missing, in table order. */
  function UnmatchedLines(polys: seq<Polygon>): seq<ReportLine>
    decreases |polys|
  {
    if polys == [] then []
    else
      var last := |polys| - 1;
      UnmatchedLines(polys[..last]) + (if polys[last].siteId.None? then [UnmatchedPolygon(last, polys[last])] else [])
  }

  /** The sweep reports exactly the polygons without a site id, each once, in table order. */
  lemma {:induction false} UnmatchedLinesSpec(polys: seq<Polygon>)
    ensures forall k :: 0 <= k < |UnmatchedLines(polys)| ==>
      && UnmatchedLines(polys)[k].UnmatchedPolygon?
      && UnmatchedLines(polys)[k].polygonIndex < |polys|
      && UnmatchedLines(polys)[k].polygon == polys[UnmatchedLines(polys)[k].polygonIndex]
      && polys[UnmatchedLines(polys)[k].polygonIndex].siteId.None?
    ensures forall j :: 0 <= j < |polys| && polys[j].siteId.None? ==> UnmatchedPolygon(j, polys[j]) in UnmatchedLines(polys)
    ensures forall a, b :: 0 <= a < b < |UnmatchedLines(polys)| ==>
      UnmatchedLines(polys)[a].polygonIndex < UnmatchedLines(polys)[b].polygonIndex
    decreases |polys|
  {
    if polys != [] {
      var last := |polys| - 1;
      var init := polys[..last];
      UnmatchedLinesSpec(init);
      var before := UnmatchedLines(init);
      assert UnmatchedLines(polys) == before + (if polys[last].siteId.None? then [UnmatchedPolygon(last, polys[last])] else []);
      forall k | 0 <= k < |before|
        ensures before[k].polygonIndex < last && before[k].polygon == polys[before[k].polygonIndex]
      {
        assert init[before[k].polygonIndex] == polys[before[k].polygonIndex];
      }
      forall j | 0 <= j < last && polys[j].siteId.None?
        ensures UnmatchedPolygon(j, polys[j]) in before
      {
        assert init[j] == polys[j];
      }
    }
  }

  // ---------------------------------------------------------------------------
  // Coverage statistics
  // ---------------------------------------------------------------------------

  /** The special categories, in the order of their result columns. */
  const Categories: seq<string> := ["plantation", "industrial", "lawn", "covered"]

  /** The per-row result columns; the four category percentages follow the order of Categories. */
  datatype RowResult = RowResult(
    percentCoverage: real,
    percentCoverageHc: real,
    polyAvgSize: Option<real>,
    polyAvgSizeHc: Option<real>,
    polyMinSize: Option<real>,
    polyMinSizeHc: Option<real>,
    categoryCoverageHc: seq<real>)

  const Defaults: RowResult := RowResult(0.0, 0.0, None, None, None, None, [0.0, 0.0, 0.0, 0.0])

  /** The polygons kept by a row filter, in order. */
  function Filter(ms: seq<Polygon>, keep: Polygon -> bool): seq<Polygon>
    decreases |ms|
  {
    if ms == [] then []
    else
      var last := |ms| - 1;
      Filter(ms[..last], keep) + (if keep(ms[last]) then [ms[last]] else [])
  }

  /**
   * A filter keeps exactly the polygons that pass it, each as often as it occurs
   * (a boolean mask neither merges nor repeats rows).
   */
  lemma {:induction false} FilterSpec(ms: seq<Polygon>, keep: Polygon -> bool)
    ensures var kept := Filter(ms, keep);
      && |kept| <= |ms|
      && (forall p <- kept :: p in ms && keep(p))
      && (forall p <- ms :: keep(p) ==> p in kept)
      && (forall p :: multiset(kept)[p] == if keep(p) then multiset(ms)[p] else 0)
    decreases |ms|
  {
    if ms != [] {
      var last := |ms| - 1;
      FilterSpec(ms[..last], keep);
      assert ms == ms[..last] + [ms[last]];
      assert forall p <- ms[..last] :: p in ms;
      assert forall p <- ms :: p in ms[..last] || p == ms[last];
    }
  }

  /** Filtering distributes over concatenation, so the kept polygons keep their table order. */
  lemma {:induction false} FilterAppend(a: seq<Polygon>, b: seq<Polygon>, keep: Polygon -> bool)
    ensures Filter(a + b, keep) == Filter(a, keep) + Filter(b, keep)
    decreases |b|
  {
    if b == [] {
      assert a + b == a;
    } else {
      var last := |b| - 1;
      assert (a + b)[..|a + b| - 1] == a + b[..last];
      assert (a + b)[|a + b| - 1] == b[last];
      FilterAppend(a, b[..last], keep);
    }
  }

  /** matching_polys[matching_polys["certainty"] >= certainty_cutoff] */
  function HighCertainty(ms: seq<Polygon>, cutoff: int): seq<Polygon> {
    Filter(ms, (p: Polygon) => p.certainty >= cutoff)
  }

  /** The high-certainty subset is exactly the matches whose certainty reaches the cutoff. */
  lemma HighCertaintySpec(ms: seq<Polygon>, cutoff: int)
    ensures var hs := HighCertainty(ms, cutoff);
      && (forall p <- hs :: p in ms && p.certainty >= cutoff)
      && (forall p <- ms :: p.certainty >= cutoff ==> p in hs)
      && (forall p :: multiset(hs)[p] == if p.certainty >= cutoff then multiset(ms)[p] else 0)
  {
    FilterSpec(ms, (p: Polygon) => p.certainty >= cutoff);
  }

  /** special_category.astype(str).str.contains(keyword, case=False, na=False), for a lower-case keyword. */
  predicate MentionsCategory(p: Polygon, keyword: string) {
    p.specialCategory.Some? && Contains(ToLower(p.specialCategory.value), keyword)
  }

  function InCategory(hs: seq<Polygon>, keyword: string): seq<Polygon> {
    Filter(hs, (p: Polygon) => MentionsCategory(p, keyword))
  }

  /** A category's subset is exactly the polygons whose category text mentions it. */
  lemma InCategorySpec(hs: seq<Polygon>, keyword: string)
    ensures var special := InCategory(hs, keyword);
      && (forall p <- special :: p in hs && MentionsCategory(p, keyword))
      && (forall p <- hs :: MentionsCategory(p, keyword) ==> p in special)
      && (forall p :: multiset(special)[p] == if MentionsCategory(p, keyword) then multiset(hs)[p] else 0)
  {
    FilterSpec(hs, (p: Polygon) => MentionsCategory(p, keyword));
  }

  function GeometriesOf(ms: seq<Polygon>): seq<GeoJson.Geometry> {
    seq(|ms|, k requires 0 <= k < |ms| => ms[k].geometry)
  }

  function ProjectedAreas(ms: seq<Polygon>, shapes: Shapes): seq<real> {
    seq(|ms|, k requires 0 <= k < |ms| => shapes.projectedArea(ms[k].geometry))
  }

  /** (covered / survey_area) * 100 if survey_area > 0 else 0.0 */
  function Percent(covered: real, surveyArea: real): real {
    if surveyArea > 0.0 then covered / surveyArea * 100.0 else 0.0
  }

  function Sum(xs: seq<real>): real
    decreases |xs|
  {
    if xs == [] then 0.0 else Sum(xs[..|xs| - 1]) + xs[|xs| - 1]
  }

  function Mean(xs: seq<real>): real
    requires xs != []
  {
    Sum(xs) / (|xs| as real)
  }

  function Minimum(xs: seq<real>): (m: real)
    requires xs != []
    ensures m in xs && forall x <- xs :: m <= x
    decreases |xs|
  {
    if |xs| == 1 then xs[0]
    else
      var rest := Minimum(xs[1..]);
      assert forall x <- xs :: x == xs[0] || x in xs[1..];
      if xs[0] <= rest then xs[0] else rest
  }

  /** The coverage of one category among the high-certainty polygons. */
  function CategoryPercent(footprint: GeoJson.Geometry, hs: seq<Polygon>, keyword: string, shapes: Shapes): real {
    var special := InCategory(hs, keyword);
    if special == [] then 0.0
    else Percent(shapes.coveredArea(footprint, GeometriesOf(special)), shapes.area(footprint))
  }

  /** The four category percentages of a non-empty high-certainty subset, in the order of Categories. */
  function CategoryPercents(footprint: GeoJson.Geometry, hs: seq<Polygon>, shapes: Shapes): (ps: seq<real>)
    ensures |ps| == |Categories|
  {
    seq(|Categories|, c requires 0 <= c < |Categories| => CategoryPercent(footprint, hs, Categories[c], shapes))
  }

  /** The result record process_survey_row fills for a row's footprint and its matches. */
  function Coverage(footprint: GeoJson.Geometry, ms: seq<Polygon>, cutoff: int, shapes: Shapes): RowResult {
    if ms == [] then Defaults
    else
      var surveyArea := shapes.area(footprint);
      var hs := HighCertainty(ms, cutoff);
      RowResult(
        Percent(shapes.coveredArea(footprint, GeometriesOf(ms)), surveyArea),
        if hs == [] then 0.0 else Percent(shapes.coveredArea(footprint, GeometriesOf(hs)), surveyArea),
        Some(Mean(ProjectedAreas(ms, shapes))),
        if hs == [] then None else Some(Mean(ProjectedAreas(hs, shapes))),
        Some(Minimum(ProjectedAreas(ms, shapes))),
        if hs == [] then None else Some(Minimum(ProjectedAreas(hs, shapes))),
        if hs == [] then Defaults.categoryCoverageHc else CategoryPercents(footprint, hs, shapes))
  }

  /**
   * Defaults and guards: no match leaves every field at its default; the size
   * fields are set exactly when their subset is non-empty; an empty
   * high-certainty subset or an empty category keeps its percentage at 0.0; a
   * footprint without positive area gives 0.0 everywhere; otherwise the
   * coverage is the covered area over the footprint's area, times 100.
   */
  lemma CoverageDefaults(footprint: GeoJson.Geometry, ms: seq<Polygon>, cutoff: int, shapes: Shapes)
    ensures var r := Coverage(footprint, ms, cutoff, shapes);
      var hs := HighCertainty(ms, cutoff);
      && |r.categoryCoverageHc| == |Categories|
      && (ms == [] ==> r == Defaults)
      && (r.polyAvgSize.Some? <==> ms != []) && (r.polyMinSize.Some? <==> ms != [])
      && (r.polyAvgSizeHc.Some? <==> hs != []) && (r.polyMinSizeHc.Some? <==> hs != [])
      && (hs == [] ==> r.percentCoverageHc == 0.0 && forall v <- r.categoryCoverageHc :: v == 0.0)
      && (shapes.area(footprint) <= 0.0 ==>
            r.percentCoverage == 0.0 && r.percentCoverageHc == 0.0 && forall v <- r.categoryCoverageHc :: v == 0.0)
      && (ms != [] && shapes.area(footprint) > 0.0 ==>
            r.percentCoverage == shapes.coveredArea(footprint, GeometriesOf(ms)) / shapes.area(footprint) * 100.0)
      && (forall c :: 0 <= c < |Categories| && InCategory(hs, Categories[c]) == [] ==> r.categoryCoverageHc[c] == 0.0)
  {
    var r := Coverage(footprint, ms, cutoff, shapes);
    var hs := HighCertainty(ms, cutoff);
    if ms != [] && hs != [] {
      assert r.categoryCoverageHc == CategoryPercents(footprint, hs, shapes);
    }
  }

  // ---------------------------------------------------------------------------
  // One row
  // ---------------------------------------------------------------------------

  /**
   * A row of the survey GeoDataFrame: the CSV row, its geometry column
   * (survey_polygon of its coordinates) and the integer suffix of its site id,
   * None when int(site_id[3:]) raises.
   */
  datatype SurveyFeature = SurveyFeature(row: SurveyRow, footprint: GeoJson.Geometry, legacyId: Option<int>)

  /** The survey rows with their geometry column and their parsed site-id suffixes. */
  function Features(destination: Geometries.Destination, survey: seq<SurveyRow>): seq<SurveyFeature> {
    seq(|survey|, i requires 0 <= i < |survey| =>
      SurveyFeature(survey[i], Footprint(destination, survey[i]), LegacyId(survey[i].siteId)))
  }

  datatype RowOutcome = RowOutcome(result: RowResult, lines: seq<ReportLine>, polygons: seq<Polygon>)

  /** process_survey_row: the result record, the report lines and the table after stamping. */
  function ProcessRow(f: SurveyFeature, idx: nat, polys: seq<Polygon>, cutoff: int, shapes: Shapes)
    : (r: Result<RowOutcome, MergeError>)
    ensures r.Failure? <==> f.legacyId.None?
    ensures r.Failure? ==> r.error == SiteIdSuffixNotInteger(idx, f.row.siteId)
    ensures r.Success? ==> |r.value.polygons| == |polys|
  {
    match f.legacyId
    case None => Failure(SiteIdSuffixNotInteger(idx, f.row.siteId))
    case Some(legacyId) => Success(MatchedRow(f, idx, polys, legacyId, cutoff, shapes))
  }

  /** The outcome of a row whose site id has an integer suffix. */
  function MatchedRow(f: SurveyFeature, idx: nat, polys: seq<Polygon>, legacyId: int, cutoff: int, shapes: Shapes)
    : RowOutcome
  {
    var ix := MatchIndices(polys, f.row, legacyId);
    var ms := Select(polys, ix);
    var issues := IssueLines(idx, f.row, ConsistencyIssues(f.row.irrigation, Certainties(ms)));
    RowOutcome(Coverage(f.footprint, ms, cutoff, shapes), issues + OutsideLines(f.footprint, polys, ix, shapes),
               Stamp(polys, f.row, legacyId))
  }

  /**
   * After a row, every polygon it matches carries the row's site id and every
   * other polygon is unchanged.
   */
  lemma ProcessRowStamps(f: SurveyFeature, idx: nat, polys: seq<Polygon>, cutoff: int, shapes: Shapes)
    requires f.legacyId.Some?
    ensures var after := ProcessRow(f, idx, polys, cutoff, shapes).value.polygons;
      && |after| == |polys|
      && (forall j :: 0 <= j < |polys| && IsMatch(polys[j], f.row, f.legacyId.value) ==>
            after[j] == polys[j].(siteId := Some(f.row.siteId)))
      && (forall j :: 0 <= j < |polys| && !IsMatch(polys[j], f.row, f.legacyId.value) ==> after[j] == polys[j])
  {
  }

  /** The parts of a row's report lines: its issue lines, then its "does not overlap" lines. */
  lemma RowLinesParts(f: SurveyFeature, idx: nat, polys: seq<Polygon>, cutoff: int, shapes: Shapes)
    requires f.legacyId.Some?
    ensures var ix := MatchIndices(polys, f.row, f.legacyId.value);
      && (forall k :: 0 <= k < |ix| ==> ix[k] < |polys|)
      && ProcessRow(f, idx, polys, cutoff, shapes).value.lines
         == IssueLines(idx, f.row, ConsistencyIssues(f.row.irrigation, Certainties(Select(polys, ix))))
            + OutsideLines(f.footprint, polys, ix, shapes)
  {
    MatchIndicesSpec(polys, f.row, f.legacyId.value);
  }

  /**
   * Every line of a row's report names the row as an issue, or is a "does not
   * overlap" line for a polygon the row matches and the footprint does not meet.
   */
  lemma ProcessRowLineKinds(f: SurveyFeature, idx: nat, polys: seq<Polygon>, cutoff: int, shapes: Shapes)
    requires f.legacyId.Some?
    ensures var lines := ProcessRow(f, idx, polys, cutoff, shapes).value.lines;
      forall l <- lines ::
        || (l.RowIssue? && l.rowIndex == idx && l.row == f.row)
        || (l.PolygonOutsideSurvey? && l.polygonIndex < |polys| && l.polygon == polys[l.polygonIndex]
            && IsMatch(l.polygon, f.row, f.legacyId.value) && !shapes.intersects(f.footprint, l.polygon.geometry))
  {
    var legacyId := f.legacyId.value;
    var ix := MatchIndices(polys, f.row, legacyId);
    var issues := IssueLines(idx, f.row, ConsistencyIssues(f.row.irrigation, Certainties(Select(polys, ix))));
    var outside := OutsideLines(f.footprint, polys, ix, shapes);
    RowLinesParts(f, idx, polys, cutoff, shapes);
    MatchIndicesSpec(polys, f.row, legacyId);
    OutsideLinesSpec(f.footprint, polys, ix, shapes);
    forall l: ReportLine | l in issues + outside
      ensures || (l.RowIssue? && l.rowIndex == idx && l.row == f.row)
              || (l.PolygonOutsideSurvey? && l.polygonIndex < |polys| && l.polygon == polys[l.polygonIndex]
                  && IsMatch(l.polygon, f.row, legacyId) && !shapes.intersects(f.footprint, l.polygon.geometry))
    {
      if l in issues {
        var k :| 0 <= k < |issues| && issues[k] == l;
      } else {
        assert l in outside;
        var k :| 0 <= k < |ix| && ix[k] == l.polygonIndex;
      }
    }
  }

  /** Every polygon the row matches and the footprint does not meet gets a "does not overlap" line. */
  lemma ProcessRowLinesComplete(f: SurveyFeature, idx: nat, polys: seq<Polygon>, cutoff: int, shapes: Shapes)
    requires f.legacyId.Some?
    ensures var lines := ProcessRow(f, idx, polys, cutoff, shapes).value.lines;
      forall j :: (0 <= j < |polys| && IsMatch(polys[j], f.row, f.legacyId.value)
                   && !shapes.intersects(f.footprint, polys[j].geometry)) ==> PolygonOutsideSurvey(j, polys[j]) in lines
  {
    var legacyId := f.legacyId.value;
    var ix := MatchIndices(polys, f.row, legacyId);
    var issues := IssueLines(idx, f.row, ConsistencyIssues(f.row.irrigation, Certainties(Select(polys, ix))));
    var outside := OutsideLines(f.footprint, polys, ix, shapes);
    RowLinesParts(f, idx, polys, cutoff, shapes);
    MatchIndicesSpec(polys, f.row, legacyId);
    OutsideLinesSpec(f.footprint, polys, ix, shapes);
    forall j | 0 <= j < |polys| && IsMatch(polys[j], f.row, legacyId) && !shapes.intersects(f.footprint, polys[j].geometry)
      ensures PolygonOutsideSurvey(j, polys[j]) in issues + outside
    {
      var k :| 0 <= k < |ix| && ix[k] == j;
    }
  }

  /** A row's issue lines all come before its "does not overlap" lines. */
  lemma ProcessRowLinesOrder(f: SurveyFeature, idx: nat, polys: seq<Polygon>, cutoff: int, shapes: Shapes)
    requires f.legacyId.Some?
    ensures var lines := ProcessRow(f, idx, polys, cutoff, shapes).value.lines;
      forall a, b :: 0 <= a < b < |lines| && lines[a].PolygonOutsideSurvey? ==> lines[b].PolygonOutsideSurvey?
  {
    var legacyId := f.legacyId.value;
    var ix := MatchIndices(polys, f.row, legacyId);
    var issues := IssueLines(idx, f.row, ConsistencyIssues(f.row.irrigation, Certainties(Select(polys, ix))));
    var outside := OutsideLines(f.footprint, polys, ix, shapes);
    RowLinesParts(f, idx, polys, cutoff, shapes);
    OutsideLinesSpec(f.footprint, polys, ix, shapes);
    var lines := issues + outside;
    forall a, b | 0 <= a < b < |lines| && lines[a].PolygonOutsideSurvey?
      ensures lines[b].PolygonOutsideSurvey?
    {
      assert lines[b] == outside[b - |issues|];
      assert outside[b - |issues|] in outside;
    }
  }

  // ---------------------------------------------------------------------------
  // The whole survey
  // ---------------------------------------------------------------------------

  datatype MergeState = MergeState(results: seq<RowResult>, report: seq<ReportLine>, polygons: seq<Polygon>)

  /** The body of the row loop: a row's outcome from the row, its position and the table as it stands. */
  type RowStep = (SurveyFeature, nat, seq<Polygon>) -> Result<RowOutcome, MergeError>

  /**
   * A row loop: the rows in order, each seeing the table the earlier rows left,
   * collecting results and report lines and stopping at the first error.
   */
  function RunRows(features: seq<SurveyFeature>, polys: seq<Polygon>, step: RowStep): Result<MergeState, MergeError>
    decreases |features|
  {
    if features == [] then Success(MergeState([], [], polys))
    else
      var i := |features| - 1;
      var st :- RunRows(features[..i], polys, step);
      var out :- step(features[i], i, st.polygons);
      Success(MergeState(st.results + [out.result], st.report + out.lines, out.polygons))
  }

  /** process_survey_row as the body of the row loop. */
  function RowStepOf(cutoff: int, shapes: Shapes): RowStep {
    (f: SurveyFeature, i: nat, ps: seq<Polygon>) => ProcessRow(f, i, ps, cutoff, shapes)
  }

  /** The row loop of merge_and_check. */
  function ProcessRows(features: seq<SurveyFeature>, polys: seq<Polygon>, cutoff: int, shapes: Shapes)
    : Result<MergeState, MergeError>
  {
    RunRows(features, polys, RowStepOf(cutoff, shapes))
  }

  /** Where merge_and_check reads the polygons and writes its outputs. */
  datatype OutputPaths = OutputPaths(
    polygonsPath: string, mergedFolder: string, reportPath: string, resultsPath: string, sourceFile: string)

  /** The polygons file, the output folder and files, and the source_file value for a survey file. */
  function PathsFor(surveyPath: string, polygonsPath: Option<string>): OutputPaths {
    var folder := MergedFolder(surveyPath);
    OutputPaths(
      DefaultPolygonsPath(surveyPath, polygonsPath),
      folder,
      OutputFile(folder, surveyPath, "_report.txt"),
      OutputFile(folder, surveyPath, "_merged.csv"),
      SourceFile(surveyPath))
  }

  /** The polygons file: the one given, or the survey path with ".csv" replaced by ".geojson". */
  function DefaultPolygonsPath(surveyPath: string, polygonsPath: Option<string>): string {
    if polygonsPath.Some? && polygonsPath.value != [] then polygonsPath.value
    else ReplaceAll(surveyPath, ".csv", ".geojson")
  }

  /** The "merged" folder beside the folder that holds the survey's folder. */
  function MergedFolder(surveyPath: string): string {
    PosixPath.Join(PosixPath.Dirname(PosixPath.Dirname(surveyPath)), "merged")
  }

  /** An output file in the merged folder, named after the survey with ".csv" replaced. */
  function OutputFile(folder: string, surveyPath: string, replacement: string): string {
    PosixPath.Join(folder, ReplaceAll(PosixPath.Basename(surveyPath), ".csv", replacement))
  }

  /** The source_file column: the survey's file name with ".csv" removed. */
  function SourceFile(surveyPath: string): string {
    ReplaceAll(PosixPath.Basename(surveyPath), ".csv", "")
  }

  /** The output folder is named "merged". */
  lemma MergedFolderName(surveyPath: string)
    ensures PosixPath.Basename(MergedFolder(surveyPath)) == "merged"
  {
    MergedBasename(PosixPath.Dirname(PosixPath.Dirname(surveyPath)));
  }

  /** Whatever the directory, "merged" joined onto it has base name "merged". */
  lemma MergedBasename(dir: string)
    ensures PosixPath.Basename(PosixPath.Join(dir, "merged")) == "merged"
  {
    var name := "merged";
    assert forall c <- name :: c != '/';
    PosixPath.BasenameOfJoin(dir, name);
  }

  /** source_file is a bare file name. */
  lemma SourceFileBare(surveyPath: string)
    ensures '/' !in SourceFile(surveyPath)
  {
    ReplaceAllKeepsOut(PosixPath.Basename(surveyPath), ".csv", "", '/');
  }

  /** An output file's name is the survey's file name with ".csv" replaced. */
  lemma OutputFileName(folder: string, surveyPath: string, replacement: string)
    requires '/' !in replacement
    ensures PosixPath.Basename(OutputFile(folder, surveyPath, replacement))
      == ReplaceAll(PosixPath.Basename(surveyPath), ".csv", replacement)
  {
    var name := ReplaceAll(PosixPath.Basename(surveyPath), ".csv", replacement);
    ReplaceAllKeepsOut(PosixPath.Basename(surveyPath), ".csv", replacement, '/');
    PosixPath.BasenameOfJoin(folder, name);
  }

  /**
   * A survey path without ".csv" is used unchanged as the polygons path when no
   * polygons path is given, and its file name is the source_file value.
   */
  lemma PathsWithoutCsv(surveyPath: string, polygonsPath: Option<string>)
    requires !Contains(surveyPath, ".csv")
    ensures polygonsPath.None? || polygonsPath.value == [] ==> PathsFor(surveyPath, polygonsPath).polygonsPath == surveyPath
    ensures PathsFor(surveyPath, polygonsPath).sourceFile == PosixPath.Basename(surveyPath)
  {
    ReplaceAllAbsent(surveyPath, ".csv", ".geojson");
    var base := PosixPath.Basename(surveyPath);
    BasenameKeepsOut(surveyPath, ".csv");
    ReplaceAllAbsent(base, ".csv", "");
  }

  /** A file name holds no text its path does not. */
  lemma BasenameKeepsOut(p: string, sub: string)
    requires !Contains(p, sub)
    ensures !Contains(PosixPath.Basename(p), sub)
  {
    if Contains(PosixPath.Basename(p), sub) {
      ContainsOfSuffix(p, PosixPath.Basename(p), sub);
    }
  }

  /** What merge_and_check returns and writes: the per-row results, the report and the paths. */
  datatype MergeOutput = MergeOutput(results: seq<RowResult>, report: seq<ReportLine>, paths: OutputPaths)

  /** The report after the row loop: the row lines, the sweep, or the success line when both are empty. */
  function FinalReport(rowReport: seq<ReportLine>, polys: seq<Polygon>): seq<ReportLine> {
    var lines := rowReport + UnmatchedLines(polys);
    if lines == [] then [AllChecksPassed] else lines
  }

  /** merge_and_check on the survey rows and the polygons read from their files. */
  function Merge(surveyPath: string, polygonsPath: Option<string>, survey: seq<SurveyRow>, polygons: seq<Polygon>,
                 cutoff: int, destination: Geometries.Destination, shapes: Shapes): Result<MergeOutput, MergeError>
  {
    var st :- ProcessRows(Features(destination, survey), Unstamped(polygons), cutoff, shapes);
    Success(MergeOutput(st.results, FinalReport(st.report, st.polygons), PathsFor(surveyPath, polygonsPath)))
  }

  // ---------------------------------------------------------------------------
  // The shared polygon table and the imperative merge
  // ---------------------------------------------------------------------------

  /** The polygons GeoDataFrame, whose site_id column the merge updates in place. */
  class PolygonTable {
    var rows: seq<Polygon>

    constructor (polygons: seq<Polygon>)
      ensures rows == polygons
    {
      rows := polygons;
    }

    /** polygons["site_id"] = None */
    method ClearSiteIds()
      modifies this
      ensures rows == Unstamped(old(rows))
    {
      rows := Unstamped(rows);
    }
  }

  /**
   * process_survey_row: matches the row against the table, stamps the matches
   * with the row's site id and returns the result record and report lines.
   */
  method ProcessSurveyRow(f: SurveyFeature, idx: nat, table: PolygonTable, cutoff: int, shapes: Shapes)
    returns (r: Result<(RowResult, seq<ReportLine>), MergeError>)
    modifies table
    ensures match ProcessRow(f, idx, old(table.rows), cutoff, shapes)
      case Failure(e) => r == Failure(e) && table.rows == old(table.rows)
      case Success(out) => r == Success((out.result, out.lines)) && table.rows == out.polygons
  {
    if f.legacyId.None? {
      return Failure(SiteIdSuffixNotInteger(idx, f.row.siteId));
    }
    var legacyId := f.legacyId.value;
    var polys := table.rows;
    var ix := MatchIndices(polys, f.row, legacyId);
    var matches := Select(polys, ix);
    var lines := IssueLines(idx, f.row, ConsistencyIssues(f.row.irrigation, Certainties(matches)));
    if |ix| > 0 {
      table.rows := Stamp(polys, f.row, legacyId);
      var outside := OverlapCheck(f.footprint, polys, ix, shapes);
      lines := lines + outside;
    } else {
      MatchIndicesComplete(polys, f.row, legacyId);
      assert Stamp(polys, f.row, legacyId) == polys;
      assert lines + OutsideLines(f.footprint, polys, ix, shapes) == lines;
    }
    var result := RowCoverage(f.footprint, matches, cutoff, shapes);
    assert MatchedRow(f, idx, polys, legacyId, cutoff, shapes) == RowOutcome(result, lines, table.rows);
    return Success((result, lines));
  }

  /** The overlap check over the matched polygons, in table order. */
  method OverlapCheck(footprint: GeoJson.Geometry, polys: seq<Polygon>, ix: seq<nat>, shapes: Shapes)
    returns (lines: seq<ReportLine>)
    requires forall k :: 0 <= k < |ix| ==> ix[k] < |polys|
    ensures lines == OutsideLines(footprint, polys, ix, shapes)
  {
    lines := [];
    for k := 0 to |ix|
      invariant lines == OutsideLines(footprint, polys, ix[..k], shapes)
    {
      assert ix[..k + 1][..k] == ix[..k];
      var j := ix[k];
      if !shapes.intersects(footprint, polys[j].geometry) {
        lines := lines + [PolygonOutsideSurvey(j, polys[j])];
      }
    }
    assert ix[..|ix|] == ix;
  }

  /** The statistics part of process_survey_row, starting from the default record. */
  method RowCoverage(footprint: GeoJson.Geometry, matches: seq<Polygon>, cutoff: int, shapes: Shapes)
    returns (result: RowResult)
    ensures result == Coverage(footprint, matches, cutoff, shapes)
  {
    result := Defaults;
    var surveyArea := shapes.area(footprint);
    if |matches| > 0 {
      var sizes := ProjectedAreas(matches, shapes);
      result := result.(
        polyAvgSize := Some(Mean(sizes)),
        polyMinSize := Some(Minimum(sizes)),
        percentCoverage := Percent(shapes.coveredArea(footprint, GeometriesOf(matches)), surveyArea));
      var high := HighCertainty(matches, cutoff);
      if |high| > 0 {
        var highSizes := ProjectedAreas(high, shapes);
        result := result.(
          polyAvgSizeHc := Some(Mean(highSizes)),
          polyMinSizeHc := Some(Minimum(highSizes)),
          percentCoverageHc := Percent(shapes.coveredArea(footprint, GeometriesOf(high)), surveyArea));
        var categories := CategoryCoverage(footprint, high, shapes);
        result := result.(categoryCoverageHc := categories);
      }
    }
  }

  /** The loop over the special categories, starting from the 0.0 defaults. */
  method CategoryCoverage(footprint: GeoJson.Geometry, high: seq<Polygon>, shapes: Shapes)
    returns (categories: seq<real>)
    ensures categories == CategoryPercents(footprint, high, shapes)
  {
    categories := Defaults.categoryCoverageHc;
    var surveyArea := shapes.area(footprint);
    for c := 0 to |Categories|
      invariant |categories| == |Categories|
      invariant forall c' :: 0 <= c' < c ==> categories[c'] == CategoryPercent(footprint, high, Categories[c'], shapes)
      invariant forall c' :: c <= c' < |Categories| ==> categories[c'] == 0.0
    {
      var special := InCategory(high, Categories[c]);
      if |special| > 0 {
        categories := categories[c := Percent(shapes.coveredArea(footprint, GeometriesOf(special)), surveyArea)];
      }
    }
  }

  /**
   * merge_and_check: computes the survey's geometry column, resets the site
   * ids, processes the rows in order, sweeps the table for polygons no row
   * matched and falls back to the success line.
   */
  method MergeAndCheck(surveyPath: string, polygonsPath: Option<string>, survey: seq<SurveyRow>, polygons: seq<Polygon>,
                       cutoff: int, destination: Geometries.Destination, shapes: Shapes)
    returns (out: Result<MergeOutput, MergeError>)
    ensures out == Merge(surveyPath, polygonsPath, survey, polygons, cutoff, destination, shapes)
  {
    var features := Features(destination, survey);
    var table := new PolygonTable(polygons);
    table.ClearSiteIds();
    var rows := RowLoop(features, table, cutoff, shapes);
    if rows.Failure? {
      return Failure(rows.error);
    }
    var report := SweepUnmatched(rows.value.1, table);
    return Success(MergeOutput(rows.value.0, report, PathsFor(surveyPath, polygonsPath)));
  }

  /** The loop over the survey rows, each seeing the site ids the earlier rows stamped. */
  method RowLoop(features: seq<SurveyFeature>, table: PolygonTable, cutoff: int, shapes: Shapes)
    returns (r: Result<(seq<RowResult>, seq<ReportLine>), MergeError>)
    modifies table
    ensures match ProcessRows(features, old(table.rows), cutoff, shapes)
      case Failure(e) => r == Failure(e)
      case Success(st) => r == Success((st.results, st.report)) && table.rows == st.polygons
  {
    ghost var start := table.rows;
    var results: seq<RowResult> := [];
    var report: seq<ReportLine> := [];
    for i := 0 to |features|
      invariant ProcessRows(features[..i], start, cutoff, shapes) == Success(MergeState(results, report, table.rows))
    {
      assert features[..i + 1][..i] == features[..i];
      var row := ProcessSurveyRow(features[i], i, table, cutoff, shapes);
      if row.Failure? {
        RunRowsFailurePersists(features, i + 1, start, RowStepOf(cutoff, shapes));
        return Failure(row.error);
      }
      results := results + [row.value.0];
      report := report + row.value.1;
    }
    assert features[..|features|] == features;
    return Success((results, report));
  }

  /** The sweep for polygons whose site id is still missing, then the success line if nothing was reported. */
  method SweepUnmatched(rowReport: seq<ReportLine>, table: PolygonTable) returns (report: seq<ReportLine>)
    ensures report == FinalReport(rowReport, table.rows)
  {
    var polys := table.rows;
    report := rowReport;
    for j := 0 to |polys|
      invariant report == rowReport + UnmatchedLines(polys[..j])
    {
      assert polys[..j + 1][..j] == polys[..j];
      if polys[j].siteId.None? {
        report := report + [UnmatchedPolygon(j, polys[j])];
      }
    }
    assert polys[..|polys|] == polys;
    if report == [] {
      report := [AllChecksPassed];
    }
  }

  // ---------------------------------------------------------------------------
  // Properties
  // ---------------------------------------------------------------------------

  /** Once a prefix of the rows fails, the whole loop fails with the same error. */
  lemma {:induction false} RunRowsFailurePersists(features: seq<SurveyFeature>, n: nat, polys: seq<Polygon>, step: RowStep)
    requires n <= |features|
    requires RunRows(features[..n], polys, step).Failure?
    ensures RunRows(features, polys, step) == RunRows(features[..n], polys, step)
    decreases |features|
  {
    if n == |features| {
      assert features[..n] == features;
    } else {
      var i := |features| - 1;
      assert features[..i][..n] == features[..n];
      RunRowsFailurePersists(features[..i], n, polys, step);
    }
  }

  /** A row step that fails exactly on a row without an integer site-id suffix, naming it, and keeps the table's size. */
  ghost predicate FailsOnBadSiteId(step: RowStep) {
    forall f, i, ps ::
      && (step(f, i, ps).Failure? <==> f.legacyId.None?)
      && (step(f, i, ps).Failure? ==> step(f, i, ps).error == SiteIdSuffixNotInteger(i, f.row.siteId))
      && (step(f, i, ps).Success? ==> |step(f, i, ps).value.polygons| == |ps|)
  }

  /** process_survey_row is such a step. */
  lemma ProcessRowFailsOnBadSiteId(cutoff: int, shapes: Shapes)
    ensures FailsOnBadSiteId(RowStepOf(cutoff, shapes))
  {
  }

  /**
   * With such a step, the loop fails exactly when some row's site id has no
   * integer suffix, and then it names the first such row.
   */
  lemma {:induction false} RunRowsFailure(features: seq<SurveyFeature>, polys: seq<Polygon>, step: RowStep)
    requires FailsOnBadSiteId(step)
    ensures var r := RunRows(features, polys, step);
      && (r.Failure? <==> exists i :: 0 <= i < |features| && features[i].legacyId.None?)
      && (r.Failure? ==>
            && r.error.rowIndex < |features|
            && r.error.siteId == features[r.error.rowIndex].row.siteId
            && features[r.error.rowIndex].legacyId.None?
            && forall k :: 0 <= k < r.error.rowIndex ==> features[k].legacyId.Some?)
      && (r.Success? ==> |r.value.results| == |features| && |r.value.polygons| == |polys|)
    decreases |features|
  {
    if features != [] {
      var i := |features| - 1;
      RunRowsFailure(features[..i], polys, step);
      assert forall k :: 0 <= k < i ==> features[..i][k] == features[k];
    }
  }

  /** The merge fails exactly when some survey row's site id has no integer suffix, naming the first one. */
  lemma MergeFailure(surveyPath: string, polygonsPath: Option<string>, survey: seq<SurveyRow>, polygons: seq<Polygon>,
                     cutoff: int, destination: Geometries.Destination, shapes: Shapes)
    ensures var r := Merge(surveyPath, polygonsPath, survey, polygons, cutoff, destination, shapes);
      && (r.Failure? <==> exists i :: 0 <= i < |survey| && LegacyId(survey[i].siteId).None?)
      && (r.Failure? ==>
            && r.error.rowIndex < |survey|
            && r.error.siteId == survey[r.error.rowIndex].siteId
            && LegacyId(survey[r.error.rowIndex].siteId).None?
            && forall k :: 0 <= k < r.error.rowIndex ==> LegacyId(survey[k].siteId).Some?)
      && (r.Success? ==> |r.value.results| == |survey|)
  {
    var features := Features(destination, survey);
    ProcessRowFailsOnBadSiteId(cutoff, shapes);
    RunRowsFailure(features, Unstamped(polygons), RowStepOf(cutoff, shapes));
    MergeOfRows(surveyPath, polygonsPath, survey, polygons, cutoff, destination, shapes);
    FeaturesOfSurvey(destination, survey);
  }

  /** The merge fails with the row loop's error, or returns the row loop's results. */
  lemma MergeOfRows(surveyPath: string, polygonsPath: Option<string>, survey: seq<SurveyRow>, polygons: seq<Polygon>,
                    cutoff: int, destination: Geometries.Destination, shapes: Shapes)
    ensures var rows := RunRows(Features(destination, survey), Unstamped(polygons), RowStepOf(cutoff, shapes));
      var r := Merge(surveyPath, polygonsPath, survey, polygons, cutoff, destination, shapes);
      && r.Failure? == rows.Failure?
      && (rows.Failure? ==> r.error == rows.error)
      && (rows.Success? ==> r.value.results == rows.value.results)
  {
  }

  /** One feature per survey row, carrying the row and its legacy id. */
  lemma FeaturesOfSurvey(destination: Geometries.Destination, survey: seq<SurveyRow>)
    ensures |Features(destination, survey)| == |survey|
    ensures forall i :: 0 <= i < |survey| ==>
      Features(destination, survey)[i].row == survey[i] && Features(destination, survey)[i].legacyId == LegacyId(survey[i].siteId)
  {
  }

  /** The polygon's site id after the rows: that of the last row it matches, if any. */
  function LastMatchingSiteId(features: seq<SurveyFeature>, p: Polygon): Option<string>
    decreases |features|
  {
    if features == [] then None
    else
      var last := features[|features| - 1];
      if last.legacyId.Some? && IsMatch(p, last.row, last.legacyId.value) then Some(last.row.siteId)
      else LastMatchingSiteId(features[..|features| - 1], p)
  }

  /**
   * After the row loop each polygon carries the site id of the last row that
   * matched it (a later row overwrites an earlier stamp), and is otherwise unchanged.
   */
  lemma {:induction false} ProcessRowsStamps(features: seq<SurveyFeature>, polys: seq<Polygon>, cutoff: int, shapes: Shapes)
    requires ProcessRows(features, polys, cutoff, shapes).Success?
    ensures var after := ProcessRows(features, polys, cutoff, shapes).value.polygons;
      && |after| == |polys|
      && (forall j :: 0 <= j < |polys| && LastMatchingSiteId(features, polys[j]).Some? ==>
            after[j] == polys[j].(siteId := LastMatchingSiteId(features, polys[j])))
      && (forall j :: 0 <= j < |polys| && LastMatchingSiteId(features, polys[j]).None? ==> after[j] == polys[j])
    decreases |features|
  {
    if features != [] {
      var i := |features| - 1;
      ProcessRowsStamps(features[..i], polys, cutoff, shapes);
      var st := ProcessRows(features[..i], polys, cutoff, shapes).value;
      ProcessRowStamps(features[i], i, st.polygons, cutoff, shapes);
    }
  }

  /** The row part of the report: row issues in survey order, each with its overlap lines. */
  lemma {:induction false} ProcessRowsReport(features: seq<SurveyFeature>, polys: seq<Polygon>, cutoff: int, shapes: Shapes)
    requires ProcessRows(features, polys, cutoff, shapes).Success?
    ensures var report := ProcessRows(features, polys, cutoff, shapes).value.report;
      && (forall l <- report ::
            (l.RowIssue? && l.rowIndex < |features| && l.row == features[l.rowIndex].row) || l.PolygonOutsideSurvey?)
      && (forall a, b :: 0 <= a < b < |report| && report[a].RowIssue? && report[b].RowIssue? ==>
            report[a].rowIndex <= report[b].rowIndex)
    decreases |features|
  {
    if features != [] {
      var i := |features| - 1;
      ProcessRowsReport(features[..i], polys, cutoff, shapes);
      var st := ProcessRows(features[..i], polys, cutoff, shapes).value;
      ProcessRowLineKinds(features[i], i, st.polygons, cutoff, shapes);
    }
  }

  /**
   * The report before the success fallback: the row lines first, unchanged,
   * then exactly one "no matching survey row" line per polygon still without
   * a site id, in table order.
   */
  lemma SweepSpec(rowReport: seq<ReportLine>, polys: seq<Polygon>)
    requires forall k :: 0 <= k < |rowReport| ==> rowReport[k].RowIssue? || rowReport[k].PolygonOutsideSurvey?
    ensures var lines := rowReport + UnmatchedLines(polys);
      && lines[..|rowReport|] == rowReport
      && (forall a, b :: 0 <= a < b < |lines| && lines[a].UnmatchedPolygon? ==> lines[b].UnmatchedPolygon?)
      && (forall a, b :: 0 <= a < b < |lines| && lines[a].UnmatchedPolygon? && lines[b].UnmatchedPolygon? ==>
            lines[a].polygonIndex < lines[b].polygonIndex)
      && (forall k :: 0 <= k < |lines| && lines[k].UnmatchedPolygon? ==>
            lines[k].polygonIndex < |polys| && lines[k].polygon == polys[lines[k].polygonIndex]
            && polys[lines[k].polygonIndex].siteId.None?)
      && (forall j :: 0 <= j < |polys| && polys[j].siteId.None? ==> UnmatchedPolygon(j, polys[j]) in lines)
  {
    var sweep := UnmatchedLines(polys);
    UnmatchedLinesSpec(polys);
    SweepAppended(rowReport, sweep, polys);
  }

  /** Row lines followed by sweep lines: the row lines stay in front and the sweep lines keep their facts. */
  lemma SweepAppended(rowReport: seq<ReportLine>, sweep: seq<ReportLine>, polys: seq<Polygon>)
    requires forall k :: 0 <= k < |rowReport| ==> rowReport[k].RowIssue? || rowReport[k].PolygonOutsideSurvey?
    requires forall k :: 0 <= k < |sweep| ==>
      && sweep[k].UnmatchedPolygon? && sweep[k].polygonIndex < |polys|
      && sweep[k].polygon == polys[sweep[k].polygonIndex] && polys[sweep[k].polygonIndex].siteId.None?
    requires forall a, b :: 0 <= a < b < |sweep| ==> sweep[a].polygonIndex < sweep[b].polygonIndex
    requires forall j :: 0 <= j < |polys| && polys[j].siteId.None? ==> UnmatchedPolygon(j, polys[j]) in sweep
    ensures (rowReport + sweep)[..|rowReport|] == rowReport
    ensures forall a, b :: 0 <= a < b < |rowReport + sweep| && (rowReport + sweep)[a].UnmatchedPolygon? ==>
      (rowReport + sweep)[b].UnmatchedPolygon?
    ensures forall a, b ::
      (0 <= a < b < |rowReport + sweep| && (rowReport + sweep)[a].UnmatchedPolygon? && (rowReport + sweep)[b].UnmatchedPolygon?) ==>
      (rowReport + sweep)[a].polygonIndex < (rowReport + sweep)[b].polygonIndex
    ensures forall k :: 0 <= k < |rowReport + sweep| && (rowReport + sweep)[k].UnmatchedPolygon? ==>
      && (rowReport + sweep)[k].polygonIndex < |polys|
      && (rowReport + sweep)[k].polygon == polys[(rowReport + sweep)[k].polygonIndex]
      && polys[(rowReport + sweep)[k].polygonIndex].siteId.None?
    ensures forall j :: 0 <= j < |polys| && polys[j].siteId.None? ==> UnmatchedPolygon(j, polys[j]) in rowReport + sweep
  {
    var lines := rowReport + sweep;
    assert forall k :: 0 <= k < |rowReport| ==> lines[k] == rowReport[k];
    assert forall k :: 0 <= k < |sweep| ==> lines[|rowReport| + k] == sweep[k];
  }

  /**
   * The success line is never missing from an empty report, appears only
   * alone, and appears exactly when no row line was produced and every
   * polygon got a site id; otherwise the report is the row lines and the sweep.
   */
  lemma FinalReportSentinel(rowReport: seq<ReportLine>, polys: seq<Polygon>)
    requires forall k :: 0 <= k < |rowReport| ==> rowReport[k].RowIssue? || rowReport[k].PolygonOutsideSurvey?
    ensures var report := FinalReport(rowReport, polys);
      && report != []
      && (AllChecksPassed in report <==> report == [AllChecksPassed])
      && (report == [AllChecksPassed] <==> rowReport == [] && forall j :: 0 <= j < |polys| ==> polys[j].siteId.Some?)
      && (report != [AllChecksPassed] ==> report == rowReport + UnmatchedLines(polys))
  {
    var sweep := UnmatchedLines(polys);
    UnmatchedLinesSpec(polys);
    NoSentinelIn(rowReport, sweep);
    SweepEmpty(polys);
  }

  /** Row lines followed by sweep lines never hold the success line. */
  lemma NoSentinelIn(rowReport: seq<ReportLine>, sweep: seq<ReportLine>)
    requires forall k :: 0 <= k < |rowReport| ==> rowReport[k].RowIssue? || rowReport[k].PolygonOutsideSurvey?
    requires forall k :: 0 <= k < |sweep| ==> sweep[k].UnmatchedPolygon?
    ensures AllChecksPassed !in rowReport + sweep
  {
    var lines := rowReport + sweep;
    forall k | 0 <= k < |lines|
      ensures lines[k] != AllChecksPassed
    {
      if k < |rowReport| {
        assert lines[k] == rowReport[k];
      } else {
        assert lines[k] == sweep[k - |rowReport|];
      }
    }
  }

  /** The sweep is empty exactly when every polygon has a site id. */
  lemma SweepEmpty(polys: seq<Polygon>)
    ensures UnmatchedLines(polys) == [] <==> forall j :: 0 <= j < |polys| ==> polys[j].siteId.Some?
  {
    UnmatchedLinesSpec(polys);
    var sweep := UnmatchedLines(polys);
    if sweep != [] {
      assert polys[sweep[0].polygonIndex].siteId.None?;
    }
  }

  /**
   * After the row loop over the reset table, a polygon is left without a site
   * id exactly when no row matched it, and it is then the polygon as read.
   */
  lemma MergeUnmatched(features: seq<SurveyFeature>, polygons: seq<Polygon>, cutoff: int, shapes: Shapes)
    requires ProcessRows(features, Unstamped(polygons), cutoff, shapes).Success?
    ensures var after := ProcessRows(features, Unstamped(polygons), cutoff, shapes).value.polygons;
      && |after| == |polygons|
      && (forall j :: 0 <= j < |polygons| ==>
            (after[j].siteId.None? <==> LastMatchingSiteId(features, polygons[j]).None?))
      && (forall j :: 0 <= j < |polygons| && after[j].siteId.None? ==> after[j] == polygons[j].(siteId := None))
  {
    var start := Unstamped(polygons);
    ProcessRowsStamps(features, start, cutoff, shapes);
    forall j | 0 <= j < |polygons|
      ensures LastMatchingSiteId(features, start[j]) == LastMatchingSiteId(features, polygons[j])
    {
      MatchIgnoresSiteId(features, polygons[j], None);
    }
  }

  /** Matching never looks at the site id column. */
  lemma {:induction false} MatchIgnoresSiteId(features: seq<SurveyFeature>, p: Polygon, siteId: Option<string>)
    ensures LastMatchingSiteId(features, p.(siteId := siteId)) == LastMatchingSiteId(features, p)
    decreases |features|
  {
    if features != [] {
      MatchIgnoresSiteId(features[..|features| - 1], p, siteId);
    }
  }

  /** The smallest polygon is never larger than the average one. */
  lemma CoverageSizesOrdered(footprint: GeoJson.Geometry, ms: seq<Polygon>, cutoff: int, shapes: Shapes)
    ensures var r := Coverage(footprint, ms, cutoff, shapes);
      && (ms != [] ==> r.polyMinSize.value <= r.polyAvgSize.value)
      && (r.polyMinSizeHc.Some? ==> r.polyMinSizeHc.value <= r.polyAvgSizeHc.value)
  {
    if ms != [] {
      MinimumAtMostMean(ProjectedAreas(ms, shapes));
      var hs := HighCertainty(ms, cutoff);
      if hs != [] {
        MinimumAtMostMean(ProjectedAreas(hs, shapes));
      }
    }
  }

  lemma MinimumAtMostMean(xs: seq<real>)
    requires xs != []
    ensures Minimum(xs) <= Mean(xs)
  {
    var m := Minimum(xs);
    SumAtLeast(xs, m);
    var n := |xs| as real;
    assert Sum(xs) >= n * m;
    assert Sum(xs) / n >= m;
  }

  lemma {:induction false} SumAtLeast(xs: seq<real>, m: real)
    requires forall x <- xs :: m <= x
    ensures Sum(xs) >= (|xs| as real) * m
    decreases |xs|
  {
    if xs != [] {
      var last := |xs| - 1;
      assert forall x <- xs[..last] :: x in xs;
      SumAtLeast(xs[..last], m);
      assert xs[last] in xs;
    }
  }

  /**
   * What a geometry library guarantees: a covered area lies between zero and
   * the footprint's area, and covering with a sub-collection covers no more.
   */
  ghost predicate PlausibleShapes(shapes: Shapes) {
    && (forall f, gs :: 0.0 <= shapes.coveredArea(f, gs) <= shapes.area(f))
    && (forall f, gs: seq<GeoJson.Geometry>, hs: seq<GeoJson.Geometry> ::
          (forall g <- hs :: g in gs) ==> shapes.coveredArea(f, hs) <= shapes.coveredArea(f, gs))
  }

  /**
   * With such a library, every percentage lies in [0, 100], the high-certainty
   * coverage never exceeds the overall one, and no category exceeds the
   * high-certainty coverage.
   */
  lemma CoverageBounds(footprint: GeoJson.Geometry, ms: seq<Polygon>, cutoff: int, shapes: Shapes)
    requires PlausibleShapes(shapes)
    ensures var r := Coverage(footprint, ms, cutoff, shapes);
      && 0.0 <= r.percentCoverageHc <= r.percentCoverage <= 100.0
      && forall v <- r.categoryCoverageHc :: 0.0 <= v <= r.percentCoverageHc
  {
    var r := Coverage(footprint, ms, cutoff, shapes);
    var area := shapes.area(footprint);
    if ms != [] && area > 0.0 {
      var hs := HighCertainty(ms, cutoff);
      assert forall p <- hs :: p in ms by { HighCertaintySpec(ms, cutoff); }
      var all := shapes.coveredArea(footprint, GeometriesOf(ms));
      PercentBounds(all, area);
      if hs != [] {
        GeometriesOfSubset(hs, ms);
        var high := shapes.coveredArea(footprint, GeometriesOf(hs));
        PercentBounds(high, area);
        PercentMonotone(high, all, area);
        forall c | 0 <= c < |Categories|
          ensures 0.0 <= r.categoryCoverageHc[c] <= r.percentCoverageHc
        {
          var special := InCategory(hs, Categories[c]);
          assert forall p <- special :: p in hs by { InCategorySpec(hs, Categories[c]); }
          if special != [] {
            GeometriesOfSubset(special, hs);
            var cat := shapes.coveredArea(footprint, GeometriesOf(special));
            PercentBounds(cat, area);
            PercentMonotone(cat, high, area);
          }
        }
      }
    }
  }

  lemma GeometriesOfSubset(hs: seq<Polygon>, ms: seq<Polygon>)
    requires forall p <- hs :: p in ms
    ensures forall g <- GeometriesOf(hs) :: g in GeometriesOf(ms)
  {
    forall g | g in GeometriesOf(hs)
      ensures g in GeometriesOf(ms)
    {
      var k :| 0 <= k < |hs| && GeometriesOf(hs)[k] == g;
      assert hs[k] in ms;
      var i :| 0 <= i < |ms| && ms[i] == hs[k];
      assert GeometriesOf(ms)[i] == g;
    }
  }

  lemma PercentBounds(covered: real, area: real)
    requires 0.0 <= covered <= area && area > 0.0
    ensures 0.0 <= Percent(covered, area) <= 100.0
  {
    assert covered / area <= 1.0;
  }

  lemma PercentMonotone(a: real, b: real, area: real)
    requires a <= b && area > 0.0
    ensures Percent(a, area) <= Percent(b, area)
  {
    assert a / area <= b / area;
  }
}

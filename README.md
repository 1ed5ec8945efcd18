# Smallholder irrigation dataset pipeline, modelled in Dafny

This project models the deterministic core of the smallholder irrigation dataset
pipeline in Dafny and proves properties of that model. The pipeline turns
Open Foris Collect surveys and hand-drawn KML polygons into a labelled
irrigation dataset.

The libraries the pipeline calls become parameters of the model:

- shapely geometry, the geopy geodesic `destination`, ElementTree XML lookups, the
  filesystem and the Planet client;
- each is passed in as a function (an oracle), so every result below holds for
  whatever those libraries return.

One Dafny module per source file:

| module | source | form |
|---|---|---|
| `MergeSurvey` | src/processing/merge_survey_and_polygons.py | functions for matching, the consistency rules, coverage and the report; class `PolygonTable` for the polygon table that each row stamps in place; methods for the row loop and the unmatched sweep |
| `PolygonsToGeoJson` | src/processing/polygons_to_geojson.py | parsers as functions; `ParseCoordinates`, `ConvertGeometry` and `KmlToGeoJson` as methods with loops, proved against recursive specification functions |
| `Geometries` | src/utils/geometries.py | pure functions: bounding box corners and the closed five-position ring |
| `SurveyToCsv` | src/processing/survey_to_csv.py | path-derived fields as functions; the ten-slot record loop and the folder loop as methods |
| `SurveysWithLocations` | src/labels/surveys_with_locations.py | the properties rewrite loop and the sample skip loop as methods |
| `PlanetQuery` | src/planet/planet_query.py | the coordinate swap and date string as functions; `FilterByCoverage` as a method that writes `overlapPercent` on `Item` objects; the batch loop as a method |
| `Utils` | src/utils/utils.py | the ancestor search as a loop; data-root selection, format inference and the metadata path as functions |
| `MakeGrid` | src/sampling/make_grid.py | UTM zone and EPSG arithmetic; `AddId` mutates a `Frames.DataFrame` and returns the reordered table |
| `SampleGrid` | src/sampling/sample_grid.py | the post-sampling pipeline of table transforms, as functions |

Shared modules:

- `Wrappers`: `Option` and `Result`.
- `Text`: the Python `str` operations the source uses: `strip`, `split`,
  `splitlines`, `int()`, `str()` of an int, `lower`, `replace`, `removesuffix`
  and `rsplit`.
- `PosixPath`: `os.path.basename`, `dirname`, `join` and `splitext`.
- `GeoJson`: positions, rings and geometries as in RFC 7946, sections 3.1.1,
  3.1.6 and 3.2.
- `Frames`: a pandas table as a value (`Table`). A shared, mutable frame is the
  class `DataFrame`.

## Model

| member | source | states |
|---|---|---|
| MergeSurvey.MatchIndicesSpec | src/processing/merge_survey_and_polygons.py:63-70 | the matched positions are exactly the polygons with the row's internal id or legacy id and the same year, month and day, in table order |
| MergeSurvey.MatchIndicesSound | src/processing/merge_survey_and_polygons.py:63-70 | every returned position is in the table and its polygon satisfies the match condition |
| MergeSurvey.MatchIndicesComplete | src/processing/merge_survey_and_polygons.py:63-70 | every matching polygon's position is returned |
| MergeSurvey.MatchIndicesIncreasing | src/processing/merge_survey_and_polygons.py:70 | matches come in strictly increasing table order |
| MergeSurvey.MaxOf | src/processing/merge_survey_and_polygons.py:25 | the maximum certainty is one of the certainties and bounds them all |
| MergeSurvey.ConsistencyIssues | src/processing/merge_survey_and_polygons.py:11-31 | at most two issues arise for one row |
| MergeSurvey.ConsistencyRules | src/processing/merge_survey_and_polygons.py:17-30 | irrigation 1 with matches gives exactly one issue; irrigation above 1 without matches gives "no polygons", and irrigation 5 gives rule 2 then rule 3; irrigation 5 with matches gives an issue iff every certainty is below 5; irrigation 2-4 with matches gives an issue iff some certainty exceeds 4; issues come in rule order; irrigation below 1 gives none |
| MergeSurvey.Render | src/processing/merge_survey_and_polygons.py:19-30 | a row issue line starts with "Row <idx>" and names the internal id and day/month/year; a polygon line starts with "Polygon <idx>" and names the polygon's id and date; only the sentinel renders as "All checks passed successfully." |
| MergeSurvey.PolygonText | src/processing/merge_survey_and_polygons.py:91 | a polygon line starts with "Polygon <idx>" and contains its internal id and day/month/year |
| MergeSurvey.OutsideLinesSpec | src/processing/merge_survey_and_polygons.py:89-91 | exactly the matched polygons that do not intersect the footprint are reported, each with its own table position |
| MergeSurvey.UnmatchedLinesSpec | src/processing/merge_survey_and_polygons.py:190-192 | the sweep reports exactly the polygons whose site id is still null, in polygon order |
| MergeSurvey.FilterSpec | src/processing/merge_survey_and_polygons.py:103 | a filter keeps exactly the elements satisfying its predicate, each as often as it occurs, and adds none |
| MergeSurvey.FilterAppend | src/processing/merge_survey_and_polygons.py:103 | filtering a concatenation concatenates the filtered parts, so the kept rows stay in their original order |
| MergeSurvey.HighCertaintySpec | src/processing/merge_survey_and_polygons.py:103 | the high-certainty subset is exactly the matches with certainty at least the cutoff, each as often as it occurs |
| MergeSurvey.InCategorySpec | src/processing/merge_survey_and_polygons.py:116 | a category subset is exactly the high-certainty polygons whose special category contains the keyword, ignoring case, each as often as it occurs |
| MergeSurvey.Minimum | src/processing/merge_survey_and_polygons.py:95 | the minimum size is one of the sizes and at most each of them |
| MergeSurvey.CategoryPercents | src/processing/merge_survey_and_polygons.py:115-120 | one percentage per category, in the order plantation, industrial, lawn, covered |
| MergeSurvey.CoverageDefaults | src/processing/merge_survey_and_polygons.py:49-60 | with no matches the result is the all-default record; sizes are present iff their subset is non-empty; percentages are 0.0 when the survey area is not positive, else the covered area over the survey area times 100; a category with no polygon stays 0.0 |
| MergeSurvey.CoverageSizesOrdered | src/processing/merge_survey_and_polygons.py:94-95 | the minimum polygon size never exceeds the mean size, for all matches and for the high-certainty ones |
| MergeSurvey.MinimumAtMostMean | src/processing/merge_survey_and_polygons.py:94-95 | the minimum of a non-empty list of sizes is at most their mean |
| MergeSurvey.CoverageBounds | src/processing/merge_survey_and_polygons.py:98-120 | when covered areas are monotone in the set covered and bounded by the survey area, 0 <= high-certainty coverage <= coverage <= 100, and every category coverage lies between 0 and the high-certainty coverage |
| MergeSurvey.PercentBounds | src/processing/merge_survey_and_polygons.py:100 | a covered area between 0 and the survey area gives a percentage between 0 and 100 |
| MergeSurvey.ProcessRow | src/processing/merge_survey_and_polygons.py:33-122 | the row fails iff its site id suffix is not an integer, with the row index and site id in the error; otherwise the table keeps its length |
| MergeSurvey.ProcessRowStamps | src/processing/merge_survey_and_polygons.py:79-80 | after a row, every matching polygon carries the row's site id and every other polygon is unchanged |
| MergeSurvey.ProcessRowLineKinds | src/processing/merge_survey_and_polygons.py:76-91 | each line of a row's report is an issue of that row or names a matching polygon that misses the footprint |
| MergeSurvey.ProcessRowLinesComplete | src/processing/merge_survey_and_polygons.py:89-91 | every matching polygon that misses the footprint is reported |
| MergeSurvey.ProcessRowLinesOrder | src/processing/merge_survey_and_polygons.py:76-91 | within a row, no issue line follows an outside-footprint line |
| MergeSurvey.PolygonTable.ClearSiteIds | src/processing/merge_survey_and_polygons.py:176 | the table's site ids are all reset to null, nothing else changes |
| MergeSurvey.ProcessSurveyRow | src/processing/merge_survey_and_polygons.py:33-122 | the method returns the row result and lines of `ProcessRow` and leaves the table as `ProcessRow` stamps it; on failure the table is untouched |
| MergeSurvey.OverlapCheck | src/processing/merge_survey_and_polygons.py:89-91 | the loop produces exactly the outside-footprint lines |
| MergeSurvey.RowCoverage | src/processing/merge_survey_and_polygons.py:82-120 | the method computes the coverage record of the specification |
| MergeSurvey.CategoryCoverage | src/processing/merge_survey_and_polygons.py:115-120 | the category loop computes the specified percentages |
| MergeSurvey.MergeAndCheck | src/processing/merge_survey_and_polygons.py:124-220 | the method computes the whole merge of the specification: row results, final report and output paths |
| MergeSurvey.RowLoop | src/processing/merge_survey_and_polygons.py:179-183 | the row loop yields the specified results and report and leaves the table as the specification stamps it |
| MergeSurvey.SweepUnmatched | src/processing/merge_survey_and_polygons.py:190-201 | the sweep appends the unmatched lines, or the sentinel when the report is empty |
| MergeSurvey.RunRowsFailurePersists | src/processing/merge_survey_and_polygons.py:179-183 | once a prefix of rows fails, the whole loop fails with the same error |
| MergeSurvey.ProcessRowFailsOnBadSiteId | src/processing/merge_survey_and_polygons.py:65 | the row step fails exactly on rows whose site id suffix is not an integer |
| MergeSurvey.RunRowsFailure | src/processing/merge_survey_and_polygons.py:179-183 | the loop fails iff some row has a non-integer site id suffix, and then it reports the first such row; on success there is one result per row |
| MergeSurvey.MergeFailure | src/processing/merge_survey_and_polygons.py:179-183 | the merge fails iff some survey row has a non-integer site id suffix, naming the first; on success there is one result per survey row |
| MergeSurvey.ProcessRowsStamps | src/processing/merge_survey_and_polygons.py:179-183 | after all rows, a polygon carries the site id of the last row that matched it, and a polygon no row matched is unchanged |
| MergeSurvey.ProcessRowsReport | src/processing/merge_survey_and_polygons.py:179-183 | the row report holds issues of known rows and outside-footprint lines, with row issues in survey-row order |
| MergeSurvey.MergeUnmatched | src/processing/merge_survey_and_polygons.py:176-190 | after the loop, a polygon's site id is null iff no row matched it, and such a polygon is otherwise as read |
| MergeSurvey.SweepSpec | src/processing/merge_survey_and_polygons.py:189-192 | the full report keeps the row report as its prefix; unmatched lines follow it in polygon order, each naming a polygon with a null site id, and every such polygon appears |
| MergeSurvey.FinalReportSentinel | src/processing/merge_survey_and_polygons.py:196-201 | the report is never empty; it holds the sentinel iff it is exactly the sentinel, which happens iff there were no row lines and every polygon was matched |
| MergeSurvey.SweepEmpty | src/processing/merge_survey_and_polygons.py:190 | the sweep is empty iff every polygon has a site id |
| MergeSurvey.MatchIgnoresSiteId | src/processing/merge_survey_and_polygons.py:63-69 | stamping a site id never changes which rows match a polygon |
| MergeSurvey.MergedFolderName | src/processing/merge_survey_and_polygons.py:204 | outputs go to a folder named "merged" |
| MergeSurvey.OutputFileName | src/processing/merge_survey_and_polygons.py:206-215 | the report and results file names are the survey file name with every ".csv" replaced |
| MergeSurvey.SourceFileBare | src/processing/merge_survey_and_polygons.py:213 | the source_file column holds a bare file name, without directories |
| MergeSurvey.PathsWithoutCsv | src/processing/merge_survey_and_polygons.py:160-213 | a survey path without ".csv" makes the default polygons path the survey path itself, and the source file is the survey file name |
| PolygonsToGeoJson.ParseName | src/processing/polygons_to_geojson.py:7-32 | a failure carries the input name; parsing succeeds iff the field parse does |
| PolygonsToGeoJson.NameErrorMessage | src/processing/polygons_to_geojson.py:32 | the error message contains the input name |
| PolygonsToGeoJson.ParseNameSucceedsIff | src/processing/polygons_to_geojson.py:13-20 | a name parses iff it has at least three `_` parts, an integer id, and a date of exactly three `.`-separated integers |
| PolygonsToGeoJson.FormatNameSplits | src/processing/polygons_to_geojson.py:13-17 | a formatted name splits back into initials, id and month.day.year |
| PolygonsToGeoJson.ParseFormatName | src/processing/polygons_to_geojson.py:7-30 | parsing a formatted name gives back its fields, with the year fixed |
| PolygonsToGeoJson.ParseNameExample | src/processing/polygons_to_geojson.py:9 | "AB_3_9.6.2021" parses to initials AB, id 3, month 9, day 6, year 2021 |
| PolygonsToGeoJson.ParseFieldsIgnoresExtraParts | src/processing/polygons_to_geojson.py:13-17 | `_` parts after the third do not change the result |
| PolygonsToGeoJson.FixYearOfNat | src/processing/polygons_to_geojson.py:21-23 | a year is unchanged iff its decimal form has four characters; otherwise 2000 is added |
| PolygonsToGeoJson.FixYearTwoDigits | src/processing/polygons_to_geojson.py:21-23 | a two-digit year lands in 2000-2099 |
| PolygonsToGeoJson.ParseDescription | src/processing/polygons_to_geojson.py:34-50 | the explanation is stripped |
| PolygonsToGeoJson.ParseDescriptionBlank | src/processing/polygons_to_geojson.py:42-43 | a blank description gives certainty 5 and an empty explanation |
| PolygonsToGeoJson.ParseDescriptionRoundTrip | src/processing/polygons_to_geojson.py:41-49 | "certainty\nexplanation" parses back to that certainty and explanation |
| PolygonsToGeoJson.ParseDescriptionCertaintyOnly | src/processing/polygons_to_geojson.py:45-49 | a lone integer line gives that certainty and an empty explanation |
| PolygonsToGeoJson.ParseDescriptionNotInteger | src/processing/polygons_to_geojson.py:44-48 | whatever the text, a first non-blank line that is not an integer literal gives certainty 5 |
| PolygonsToGeoJson.ParseDescriptionNotIntegerThenText | src/processing/polygons_to_geojson.py:44-48 | a non-integer line followed by a line feed and any text gives certainty 5 |
| PolygonsToGeoJson.IndexOf | src/processing/polygons_to_geojson.py:95 | returns the first position holding the value, or None iff it is absent |
| PolygonsToGeoJson.ColorToImageNumber | src/processing/polygons_to_geojson.py:79-98 | the result is the key 1..10 whose table value equals the colour without its alpha pair, or None iff no value does |
| PolygonsToGeoJson.ColorTableDistinct | src/processing/polygons_to_geojson.py:83-92 | the ten colour values are distinct |
| PolygonsToGeoJson.ColorToImageNumberOfTable | src/processing/polygons_to_geojson.py:79-98 | any alpha pair followed by the k-th table colour converts back to k |
| PolygonsToGeoJson.ParseRingPositions | src/processing/polygons_to_geojson.py:124-127 | the ring parses iff every token does, and then holds one position per token, in order |
| PolygonsToGeoJson.ParseRingFirstFailure | src/processing/polygons_to_geojson.py:124-127 | the error is that of the first token that fails |
| PolygonsToGeoJson.ParseRingFailurePersists | src/processing/polygons_to_geojson.py:124-127 | a failing prefix makes the whole ring fail the same way |
| PolygonsToGeoJson.ParseCoordinates | src/processing/polygons_to_geojson.py:122-127 | the loop computes the specified ring from the whitespace tokens of the stripped text |
| PolygonsToGeoJson.GeometryOfSpec | src/processing/polygons_to_geojson.py:100-132 | a Point, a LineString or no Polygon gives None; a Polygon without an outer LinearRing is an error; a result holds one ring with one (lon, lat) position per coordinate token, in order |
| PolygonsToGeoJson.ConvertGeometry | src/processing/polygons_to_geojson.py:100-132 | the method computes the specified geometry |
| PolygonsToGeoJson.KmlToGeoJson | src/processing/polygons_to_geojson.py:134-191 | the loop computes the specified features |
| PolygonsToGeoJson.ProcessPlacemark | src/processing/polygons_to_geojson.py:143-180 | one iteration computes the specified step |
| PolygonsToGeoJson.RunPlacemarksFailurePersists | src/processing/polygons_to_geojson.py:141-180 | an error in a prefix of placemarks is the error of the whole run |
| PolygonsToGeoJson.KeptIndicesSpec | src/processing/polygons_to_geojson.py:143-172 | the kept placemarks are exactly those with a parsable name and a supported geometry, in document order |
| PolygonsToGeoJson.RunPlacemarksImageNumber | src/processing/polygons_to_geojson.py:160-163 | the carried image number is that of the last placemark with a colour |
| PolygonsToGeoJson.RunPlacemarksSpec | src/processing/polygons_to_geojson.py:141-180 | there is one feature per kept placemark, in document order, each built from that placemark |
| PolygonsToGeoJson.FeatureAtPrefix | src/processing/polygons_to_geojson.py:160-163 | a feature depends only on the placemarks up to it |
| PolygonsToGeoJson.RunPlacemarksLast | src/processing/polygons_to_geojson.py:180 | the last placemark adds one feature iff it is kept |
| PolygonsToGeoJson.MissingDescriptionDefault | src/processing/polygons_to_geojson.py:153-157 | a kept placemark without a description gets certainty 5 and an empty explanation |
| PolygonsToGeoJson.ImageNumberUnboundWhen | src/processing/polygons_to_geojson.py:160-163 | an unbound image number error comes from a named placemark without a colour, with no colour earlier |
| PolygonsToGeoJson.ImageNumberUnboundIf | src/processing/polygons_to_geojson.py:160-163 | such a placemark does raise that error |
| Geometries.SurveyPolygon | src/utils/geometries.py:4-36 | the footprint is one closed ring of five (lon, lat) positions whose consecutive vertices share a longitude or a latitude; its first corner is (west lon, south lat) and its third (east lon, north lat), reached from (y, x) |
| Geometries.BoxRingExtent | src/utils/geometries.py:30-36 | the ring spans exactly the box's longitudes and latitudes |
| Geometries.BoxRingCounterclockwise | src/utils/geometries.py:30-36 | the ring's signed area is width times height, so a non-degenerate box winds counterclockwise |
| Geometries.SurveyPolygonEnclosesPoint | src/utils/geometries.py:4-36 | with destinations that move as their bearings say, the footprint ring has non-zero extent, strictly encloses the surveyed point and winds counterclockwise |
| SurveyToCsv.DayRecordsSpec | src/processing/survey_to_csv.py:51-78 | one record per slot 1..n whose year has a code, in increasing slot order, each built from its slot |
| SurveyToCsv.OperatorInitialsOf | src/processing/survey_to_csv.py:40 | the initials are the text before the first `_` of the third-last path component |
| SurveyToCsv.InternalIdOf | src/processing/survey_to_csv.py:47 | a file named "<n>.xml" gives internal id n |
| SurveyToCsv.ParseXmlFile | src/processing/survey_to_csv.py:8-79 | the method computes the specified records |
| SurveyToCsv.CollectDays | src/processing/survey_to_csv.py:51-78 | the slot loop computes the specified day records |
| SurveyToCsv.ParseXmlSpec | src/processing/survey_to_csv.py:40-78 | a parsed file has derivable initials and id and at most ten records, each from a filled slot with the file's site fields |
| SurveyToCsv.ParseXmlOrdered | src/processing/survey_to_csv.py:51 | records come in increasing image number |
| SurveyToCsv.ParseXmlComplete | src/processing/survey_to_csv.py:51-58 | every slot whose year has a code yields a record |
| SurveyToCsv.ParseXmlValue | src/processing/survey_to_csv.py:40-79 | the records are the day records of the file's site |
| SurveyToCsv.DayRecordsSite | src/processing/survey_to_csv.py:64-72 | all records of a file carry the same site fields |
| SurveyToCsv.ProcessXmlZip | src/processing/survey_to_csv.py:81-115 | the method computes the specified folder, records and CSV path |
| SurveyToCsv.FolderRecordsFailurePersists | src/processing/survey_to_csv.py:104-107 | a failing file aborts the folder with its error |
| SurveyToCsv.FolderRecordsBound | src/processing/survey_to_csv.py:104-107 | a folder yields at most ten records per XML file, each with image number 1..10 |
| SurveyToCsv.FolderRecordsIgnoresOtherEntries | src/processing/survey_to_csv.py:105 | entries not ending in ".xml" do not affect the records |
| SurveyToCsv.CsvPathOfPieces | src/processing/survey_to_csv.py:111 | every "zip" in the path becomes "csv" |
| SurveyToCsv.CsvPathOfZipFile | src/processing/survey_to_csv.py:111 | "<stem>.zip" becomes "<stem>.csv" when the stem has no 'z' |
| SurveyToCsv.CsvPathLength | src/processing/survey_to_csv.py:111 | the CSV path is as long as the zip path |
| SurveyToCsv.XmlFolderOfZipFile | src/processing/survey_to_csv.py:98-101 | the XML folder is the zip path without ".zip", then "/1" |
| SurveysWithLocations.Rewrite | src/labels/surveys_with_locations.py:67-77 | the rewrite has as many lines as the template |
| SurveysWithLocations.RewriteProperties | src/labels/surveys_with_locations.py:67-77 | the loop computes the specified rewrite |
| SurveysWithLocations.RewriteSpec | src/labels/surveys_with_locations.py:60-77 | a distance line becomes the fixed distance line, tested first; a csv line becomes the sample's csv line; other lines are unchanged |
| SurveysWithLocations.RewriteWithoutSettings | src/labels/surveys_with_locations.py:67-77 | a file without either key is unchanged; no line is added |
| SurveysWithLocations.ReplacementLinesKeys | src/labels/surveys_with_locations.py:60-61 | each replacement line starts with its own key and not the other one |
| SurveysWithLocations.RewriteLineIdempotent | src/labels/surveys_with_locations.py:70-77 | rewriting a line twice is rewriting it once |
| SurveysWithLocations.RewriteIdempotent | src/labels/surveys_with_locations.py:67-77 | rewriting a rewritten file changes nothing |
| SurveysWithLocations.GenerateSurvey | src/labels/surveys_with_locations.py:35-98 | the plan holds the rewritten properties, the temp folder, the properties path, the sample's source and copy paths and the output zip path |
| SurveysWithLocations.SampleNamesSpec | src/labels/surveys_with_locations.py:23 | sample names are exactly the ".csv" entries without that suffix |
| SurveysWithLocations.PendingSpec | src/labels/surveys_with_locations.py:25-29 | a sample is generated iff its zip does not exist yet |
| SurveysWithLocations.GenerateSurveys | src/labels/surveys_with_locations.py:13-32 | the samples generated are the pending ones of the listing, in listing order |
| SurveysWithLocations.ScanSamples | src/labels/surveys_with_locations.py:25-32 | the skip loop yields exactly the pending samples |
| PlanetQuery.SwapRing | src/planet/planet_query.py:16 | the swap keeps a ring's length |
| PlanetQuery.FixGeometryCoordinates | src/planet/planet_query.py:13-21 | a non-Polygon is returned unchanged, and a Polygon stays a Polygon |
| PlanetQuery.FixGeometryShape | src/planet/planet_query.py:16 | ring count and ring lengths are kept, and each position has its two entries swapped |
| PlanetQuery.FixGeometryInvolution | src/planet/planet_query.py:13-21 | fixing twice gives back the input |
| PlanetQuery.FixGeometryKeepsLinearRings | src/planet/planet_query.py:16 | closed rings of at least four positions stay so |
| PlanetQuery.CoveredItemsSpec | src/planet/planet_query.py:35-42 | the kept items are exactly those whose overlap is computed and at least the minimum |
| PlanetQuery.CoveredItemsAppend | src/planet/planet_query.py:35-42 | the filter distributes over concatenation, so input order is kept |
| PlanetQuery.FilterByCoverage | src/planet/planet_query.py:23-46 | empty input gives []; otherwise the result exists iff the area of interest converts, and is the covered items; each evaluated item's overlap is recorded, others are unchanged |
| PlanetQuery.Pad2 | src/planet/planet_query.py:60 | a padded number is at least two characters |
| PlanetQuery.Pad2Width | src/planet/planet_query.py:60 | numbers below 100 pad to exactly two digits |
| PlanetQuery.Pad2RoundTrip | src/planet/planet_query.py:60 | a padded number reads back as itself |
| PlanetQuery.DateStringRoundTrip | src/planet/planet_query.py:60 | the date string splits on '-' into year, month and day that read back as the inputs |
| PlanetQuery.DateStringSplits | src/planet/planet_query.py:60 | the date string is the year, then month and day padded to two digits, joined by '-' |
| PlanetQuery.DateStringLength | src/planet/planet_query.py:60 | a four-digit year gives a ten-character date |
| PlanetQuery.Range | src/planet/planet_query.py:147 | a range has hi - lo elements, or none |
| PlanetQuery.RangeSplit | src/planet/planet_query.py:147-148 | adjacent ranges concatenate |
| PlanetQuery.BatchesFromPartition | src/planet/planet_query.py:147-149 | the batches from a start cover start..n-1 in order |
| PlanetQuery.BatchesPartition | src/planet/planet_query.py:145-149 | the batches partition 0..n-1 in order |
| PlanetQuery.BatchesShape | src/planet/planet_query.py:145-149 | there are ceil(n/10) batches; batch k starts at 10k and holds 1 to 10 rows |
| PlanetQuery.GatheredAppend | src/planet/planet_query.py:163-166 | gathering distributes over concatenation |
| PlanetQuery.SearchInBatches | src/planet/planet_query.py:142-166 | the batch loop yields every row's results in row order and walks the specified batches |
| PlanetQuery.SearchBatch | src/planet/planet_query.py:156-166 | one batch appends its rows' results in order |
| Utils.Ancestors | src/utils/utils.py:20-24 | no path tested is its own dirname |
| Utils.FirstRootSpec | src/utils/utils.py:20-25 | the search fails iff no candidate is a root, else returns the first candidate that is |
| Utils.AncestorsArePrefixes | src/utils/utils.py:24 | every candidate is a prefix of the start path |
| Utils.AncestorsShrink | src/utils/utils.py:24 | candidates get strictly shorter, so the search ends |
| Utils.AncestorsOfTop | src/utils/utils.py:20 | "/" and "" are never tested |
| Utils.FindProjectRoot | src/utils/utils.py:9-25 | the loop returns the first ancestor holding config.yaml and named smallholder-irrigation-dataset, or reports failure |
| Utils.ServerRoot | src/utils/utils.py:53 | the configured server root, or the built-in default when none is configured |
| Utils.GetDataRoot | src/utils/utils.py:43-59 | fails iff no project root is found; returns the server root when it exists, else <project root>/data |
| Utils.InferFormat | src/utils/utils.py:77 | the inferred format has no '.' |
| Utils.InferFormatAfterLastDot | src/utils/utils.py:77 | the inferred format is the lower-cased text after the last '.' |
| Utils.InferFormatOfExtension | src/utils/utils.py:77 | "<stem>.<ext>" infers the lower-cased ext |
| Utils.MetadataPathAsWritten | src/utils/utils.py:107 | the metadata path as written ends in "_metadata.json" |
| Utils.MetadataPath | src/utils/utils.py:107 | the corrected metadata path ends in "_metadata.json" and stays in the output's directory |
| Utils.MetadataPathAgrees | src/utils/utils.py:107 | the two agree when the last '.' is in the file name or absent |
| Utils.MetadataPathOfExtension | src/utils/utils.py:107 | "<stem>.<ext>" gives "<stem>_metadata.json" |
| Utils.MetadataPathAsWrittenLeavesDirectory | src/utils/utils.py:107 | "../data/results" gives "._metadata.json" as written |
| Utils.MetadataPathKeepsDirectory | src/utils/utils.py:107 | the corrected path for "../data/results" stays in "../data" |
| Utils.SaveData | src/utils/utils.py:62-109 | fails iff the path has no directory or, in order, csv without a DataFrame, an unsupported format or no project root; a success records the resolved format, the metadata path as written (cut at the last '.') and the basename as source |
| Utils.SaveDataInfersFormat | src/utils/utils.py:76-104 | with no format given, "<dir>/<stem>.<ext>" saves as the lower-cased ext with source "<stem>.<ext>" and metadata at "<dir>/<stem>_metadata.json" |
| Utils.SaveDataMetadataBeside | src/utils/utils.py:107 | when the last '.' is in the file name or absent, the recorded metadata path is the corrected one, in the output's directory |
| Utils.SaveDataSucceeds | src/utils/utils.py:73-109 | a path with a directory and a supported inferred format saves |
| MakeGrid.Truncate | src/sampling/make_grid.py:27 | int() truncates toward zero |
| MakeGrid.UtmZoneBand | src/sampling/make_grid.py:27 | zone z covers the longitudes [-180 + 6(z-1), -180 + 6z) |
| MakeGrid.UtmZoneAsWrittenRange | src/sampling/make_grid.py:27 | longitudes in [-180, 180) give zones 1..60 |
| MakeGrid.UtmZoneTruncates | src/sampling/make_grid.py:27 | truncation toward zero puts -183 in zone 1 |
| MakeGrid.UtmZoneAsWrittenAt180 | src/sampling/make_grid.py:27-29 | longitude 180 gives zone 61 and EPSG 32661 as written |
| MakeGrid.UtmZone | src/sampling/make_grid.py:27 | the corrected zone is always 1..60 |
| MakeGrid.UtmZoneAgrees | src/sampling/make_grid.py:27 | it agrees with the formula on [-180, 180) and maps 180 to zone 1 |
| MakeGrid.UtmEpsgRange | src/sampling/make_grid.py:27-31 | on [-180, 180) the code as written is 32601..32660 when lat >= 0, else 32701..32760, with the zone as its last two digits |
| MakeGrid.UtmEpsgCorrectedRange | src/sampling/make_grid.py:27-31 | with the corrected zone the code is in those ranges for every longitude, and equals the written one on [-180, 180) |
| MakeGrid.IdFirst | src/sampling/make_grid.py:185 | reordering keeps a valid table |
| MakeGrid.AddId | src/sampling/make_grid.py:176-187 | the caller's frame gains the id column in place; the result is that frame with id first |
| MakeGrid.AddIdSpec | src/sampling/make_grid.py:182-185 | the result has id first, holding "id_0".."id_{n-1}", then the other columns in their order with their cells |
| SampleGrid.AboveThreshold | src/sampling/sample_grid.py:36 | one flag per sampled row |
| SampleGrid.RenameCoordinates | src/sampling/sample_grid.py:43 | the rename keeps the row count |
| SampleGrid.AddTopography | src/sampling/sample_grid.py:49-51 | adding columns keeps the row count |
| SampleGrid.AddTopographySpec | src/sampling/sample_grid.py:49-51 | elevation, slope and aspect are zero on every row; other columns and the column order are kept |
| SampleGrid.FormatSamples | src/sampling/sample_grid.py:35-53 | a frame without "value" is an error |
| SampleGrid.RenameCoordinatesSpec | src/sampling/sample_grid.py:43 | latitude becomes YCoordinate and longitude XCoordinate with their cells; other columns are kept |
| SampleGrid.KeptRowsSpec | src/sampling/sample_grid.py:36-40 | the kept rows are those whose flag is set, and the value column is dropped |
| SampleGrid.FinishSpec | src/sampling/sample_grid.py:46-51 | id comes first with "id_1".."id_n", the topographic columns are zero, the rest is kept |
| SampleGrid.FormatSamplesShape | src/sampling/sample_grid.py:35-51 | the result has one row per sampled value above the threshold; id first with "id_1"..; zero topography; no value, latitude or longitude columns |
| SampleGrid.FormatSamplesCells | src/sampling/sample_grid.py:36-43 | YCoordinate, XCoordinate and every other kept column hold the kept rows' cells |
| SampleGrid.FormatSamplesNonNumeric | src/sampling/sample_grid.py:36 | a non-numeric value fails the comparison |
| SampleGrid.FormatSamplesIdExists | src/sampling/sample_grid.py:46 | inserting id into a frame that already has one fails |
| Frames.Without | src/sampling/make_grid.py:185 | removing a column name keeps exactly the other names |
| Frames.SelectRows | src/sampling/sample_grid.py:36 | every column keeps the selected rows' cells |
| Frames.DropColumn | src/sampling/sample_grid.py:40 | the column is gone, the others are kept |
| Frames.RenameColumn | src/sampling/sample_grid.py:43 | the renamed column keeps its cells, the others are unchanged |
| Frames.InsertFirst | src/sampling/sample_grid.py:46 | the new column is first with the given cells |
| Frames.Assign | src/sampling/make_grid.py:182 | assigning replaces a column's cells in place or appends a new column |
| Frames.IdColumnSpec | src/sampling/make_grid.py:182 | generated ids are distinct and "id_<k>" reads back as k |
| Frames.Zeros | src/sampling/sample_grid.py:49-51 | a constant 0 column |
| Text.ParseInt | src/processing/polygons_to_geojson.py:15 | int() succeeds iff the stripped text is an integer literal |
| Text.ParseIntOfIntToString | src/processing/polygons_to_geojson.py:15-20 | int(str(i)) == i |
| Text.NatToStringFourWide | src/processing/polygons_to_geojson.py:21 | a natural number prints as four characters iff it is in 1000..9999 |
| Text.SplitJoin | src/processing/polygons_to_geojson.py:13 | splitting and re-joining on a separator gives back the text |
| Text.ReplaceAllSameLength | src/processing/survey_to_csv.py:111 | replacing with a text of the same length keeps the length |
| PosixPath.StemOfJoin | src/processing/survey_to_csv.py:47 | splitext of the basename of dir joined with "<stem><ext>" is (stem, ext) |

## Left out

- The geometry library: shapely `make_valid`, `unary_union`, intersection,
  `intersects`, `.area` and the reprojection to EPSG:32735 are the parameter
  `MergeSurvey.Shapes`. Areas are reals the library returns, and no floating
  point rounding is modelled.
- The geodesic `destination` of geopy is the parameter `Geometries.Destination`.
  Its accuracy is not modelled.
- ElementTree parsing is left out. A KML placemark is a record of the elements
  the code looks up, and a survey XML file is a map from element paths to text.
- `get_color_for_placemark` is left out: a placemark carries the colour that
  lookup returns, or none.
- `float()` on a coordinate is the parameter `FloatParser`.
- All file I/O is left out: `read_csv`, `read_file`, zip packing and unpacking,
  the report, CSV, GeoJSON, JSON, YAML and pickle writes, `makedirs` failures,
  `shutil` copies and `rmtree`.
- `print` and progress output are left out.
- `os.listdir` is an input list, in the order the filesystem gives.
- `os.path.exists` is a predicate parameter.
- The configuration file is an input map.
- `load_config` returning None for an empty file is left out.
- The metadata timestamp and the `created_by` relative path are left out.
- Python `int()` is modelled on ASCII text: surrounding whitespace, an optional
  sign and ASCII digits. Underscore separators and non-ASCII digits are not
  accepted.
- `str.lower` is modelled on ASCII letters only.
- The `repr` of an exception inside the parse_name error message is reduced to
  the input name. The message's other wording is not modelled.
- MergeSurvey: polygon and row indices are sequence positions. A GeoDataFrame
  read from file has a default index, so the two coincide; other indices are
  not modelled.
- MergeSurvey: the irrigation label is an integer on the survey row. The
  `int(row["irrigation"])` conversion failing is not modelled.
- MergeSurvey.CoverageBounds: assumes the geometry oracle is monotone and
  bounded by the survey area, which shapely areas satisfy up to rounding.
- PlanetQuery: the Planet SDK client, authentication, the async
  `search_single_feature`, `asyncio.gather` concurrency, tqdm bars and the
  ±15-day datetime window are left out. The batch loop takes the per-row search
  as a function and models gathering as sequential concatenation in row order.
- PlanetQuery.FilterByCoverage: the overlap computation is an oracle returning
  None where shapely raises. The `feature_metadata` key being absent, which
  the `except` also catches, counts as such a failure.
- PlanetQuery.FixGeometryCoordinates: positions hold exactly two coordinates. A
  third (altitude) entry, which the source drops, is not represented.
- PlanetQuery: the `:02d` format is modelled on integer month and day values.
- src/processing/batch_process.py and process_folder.py are not part of this
  model. They are thin folder orchestration, and they call `kml_to_geojson`
  with one argument where it takes two.
- MakeGrid: raster resampling, pyproj transforms and the country spatial join
  are left out. `get_utm_crs` returns the EPSG code instead of a pyproj CRS.
- MakeGrid.Truncate: longitudes are exact reals, so the rounding of
  `(lon + 180) / 6` in floating point is not modelled.
- SampleGrid: the random `grid.sample(num_samples)` is the input table. Its size
  is the bound on the result.
- SampleGrid.RenameCoordinates: pandas would let a rename create a duplicate
  column name. The model reports that as an error instead.
- Utils.FindProjectRoot: `os.listdir` raising on an unreadable directory is not
  modelled. The config test is a predicate on the path.
- Utils.SaveData: the data write itself, the `created_by` field and the
  timestamp are left out. The metadata path it records is the one
  the code writes (see Findings).
- src/utils/figures.py, pool_latest_labels.py and generate_irrigation_gdf.py are
  not part of this model: plotting and scripts over code not shown.

## Findings

| source | as written | input that shows it | evidently intended | confidence | as-written member | corrected member |
|---|---|---|---|---|---|---|
| src/sampling/make_grid.py:27 | `int((lon + 180) / 6) + 1` gives zone 61 at longitude 180 | lon = 180.0, lat = 0.0 gives EPSG 32661, which is not a UTM zone code | longitude 180 is the antimeridian, in zone 1 (or 60); zones stay in 1..60 | not executed | MakeGrid.UtmZoneAsWrittenAt180 | MakeGrid.UtmEpsgCorrectedRange |
| src/utils/utils.py:107 | `output_path.rsplit('.', 1)[0]` cuts at the last '.' anywhere in the path, including a directory name | "../data/results" gives "._metadata.json", outside the output's directory | the metadata file sits beside the data file: "../data/results_metadata.json" | not executed | Utils.MetadataPathAsWrittenLeavesDirectory | Utils.MetadataPath |

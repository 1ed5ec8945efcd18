/**
 * Generation of one Collect survey per sample (src/labels/surveys_with_locations.py):
 * the sample names of a sample group, the skip of samples that already have a
 * survey, and the rewrite of the template's project_definition.properties so that
 * it points at the sample and uses a 500 m plot distance.
 *
 * Zip extraction and packing, copying and file writes are not modelled; what a
 * generation does to the file system is returned as a plan.
 */
module SurveysWithLocations {
  import opened Text
  import PosixPath

  // ---------------------------------------------------------------------------
  // The properties rewrite
  // ---------------------------------------------------------------------------

  const DistanceKey: string := "distance_to_plot_boundaries="
  const CsvKey: string := "csv="

  /** The line that replaces any distance setting. */
  const DistanceLine: string := "distance_to_plot_boundaries=500\n"

  /** The line that replaces any csv setting: the sample's CSV inside the project. */
  function CsvLine(sample: string): string {
    "csv=${project_path}/" + sample + ".csv\n"
  }

  /** One line of the loop: the distance key is tested first, then the csv key. */
  function RewriteLine(line: string, sample: string): string {
    if StartsWith(line, DistanceKey) then DistanceLine
    else if StartsWith(line, CsvKey) then CsvLine(sample)
    else line
  }

  /** The rewritten file, line by line. */
  function Rewrite(lines: seq<string>, sample: string): (out: seq<string>)
    ensures |out| == |lines|
  {
    seq(|lines|, k requires 0 <= k < |lines| => RewriteLine(lines[k], sample))
  }

  /** The loop that builds new_lines. */
  method RewriteProperties(lines: seq<string>, sample: string) returns (newLines: seq<string>)
    ensures newLines == Rewrite(lines, sample)
  {
    newLines := [];
    for i := 0 to |lines|
      invariant newLines == Rewrite(lines[..i], sample)
    {
      var line := lines[i];
      if StartsWith(line, DistanceKey) {
        newLines := newLines + [DistanceLine];
      } else if StartsWith(line, CsvKey) {
        newLines := newLines + [CsvLine(sample)];
      } else {
        newLines := newLines + [line];
      }
    }
    assert lines[..|lines|] == lines;
  }

  /** A line is a setting of one of the two keys. */
  predicate IsSetting(line: string) {
    StartsWith(line, DistanceKey) || StartsWith(line, CsvKey)
  }

  /**
   * The rewrite keeps the number and order of lines: a distance setting becomes
   * the 500 line, a csv setting the sample's line, and every other line is kept.
   */
  lemma RewriteSpec(lines: seq<string>, sample: string)
    ensures |Rewrite(lines, sample)| == |lines|
    ensures forall k :: 0 <= k < |lines| ==>
      && (StartsWith(lines[k], DistanceKey) ==> Rewrite(lines, sample)[k] == DistanceLine)
      && (StartsWith(lines[k], CsvKey) ==> Rewrite(lines, sample)[k] == CsvLine(sample))
      && (!IsSetting(lines[k]) ==> Rewrite(lines, sample)[k] == lines[k])
  {
    forall k | 0 <= k < |lines| && StartsWith(lines[k], CsvKey)
      ensures !StartsWith(lines[k], DistanceKey)
    {
      assert lines[k][0] == CsvKey[0];
    }
  }

  /** A file without either key comes back unchanged: no line is added for a missing key. */
  lemma RewriteWithoutSettings(lines: seq<string>, sample: string)
    requires forall k :: 0 <= k < |lines| ==> !IsSetting(lines[k])
    ensures Rewrite(lines, sample) == lines
  {
  }

  /** The two replacement lines are settings of their own keys, and only of them. */
  lemma ReplacementLinesKeys(sample: string)
    ensures StartsWith(DistanceLine, DistanceKey) && !StartsWith(DistanceLine, CsvKey)
    ensures StartsWith(CsvLine(sample), CsvKey) && !StartsWith(CsvLine(sample), DistanceKey)
  {
    assert CsvLine(sample)[..|CsvKey|] == CsvKey;
    assert CsvLine(sample)[0] != DistanceKey[0];
    assert DistanceLine[..|DistanceKey|] == DistanceKey;
    assert DistanceLine[0] != CsvKey[0];
  }

  /** Rewriting a rewritten line changes nothing. */
  lemma RewriteLineIdempotent(line: string, sample: string)
    ensures RewriteLine(RewriteLine(line, sample), sample) == RewriteLine(line, sample)
  {
    ReplacementLinesKeys(sample);
  }

  /** Rewriting the rewritten file gives the same lines. */
  lemma RewriteIdempotent(lines: seq<string>, sample: string)
    ensures Rewrite(Rewrite(lines, sample), sample) == Rewrite(lines, sample)
  {
    forall k | 0 <= k < |lines|
      ensures RewriteLine(RewriteLine(lines[k], sample), sample) == RewriteLine(lines[k], sample)
    {
      RewriteLineIdempotent(lines[k], sample);
    }
  }

  // ---------------------------------------------------------------------------
  // generate_survey and generate_surveys
  // ---------------------------------------------------------------------------

  /** The effects of generate_survey: where it unpacks, what it writes, copies and zips. */
  datatype SurveyPlan = SurveyPlan(
    tempDir: string,
    propertiesPath: string,
    properties: seq<string>,
    sampleSource: string,
    sampleCopy: string,
    outputZip: string)

  /** generate_survey for a template whose properties file has the given lines. */
  method GenerateSurvey(templateProperties: seq<string>, outputDir: string, sampleDir: string, sample: string)
    returns (plan: SurveyPlan)
    ensures plan.properties == Rewrite(templateProperties, sample)
    ensures plan.tempDir == PosixPath.Join(outputDir, "temp_" + sample)
    ensures plan.propertiesPath == PosixPath.Join(plan.tempDir, "project_definition.properties")
    ensures plan.sampleSource == PosixPath.Join(sampleDir, sample + ".csv")
    ensures plan.sampleCopy == PosixPath.Join(plan.tempDir, sample + ".csv")
    ensures plan.outputZip == PosixPath.Join(outputDir, sample + ".zip")
  {
    var tempDir := PosixPath.Join(outputDir, "temp_" + sample);
    var properties := RewriteProperties(templateProperties, sample);
    plan := SurveyPlan(
      tempDir,
      PosixPath.Join(tempDir, "project_definition.properties"),
      properties,
      PosixPath.Join(sampleDir, sample + ".csv"),
      PosixPath.Join(tempDir, sample + ".csv"),
      PosixPath.Join(outputDir, sample + ".zip"));
  }

  /** The sample names of a listing: the ".csv" entries without that suffix, in listing order. */
  function SampleNames(listing: seq<string>): (names: seq<string>)
    decreases |listing|
  {
    if listing == [] then []
    else
      var rest := SampleNames(listing[1..]);
      if EndsWith(listing[0], ".csv") then [RemoveSuffix(listing[0], ".csv")] + rest else rest
  }

  /** Each sample name is a ".csv" entry of the listing minus the suffix, and every such entry gives one. */
  lemma {:induction false} SampleNamesSpec(listing: seq<string>)
    ensures forall s <- SampleNames(listing) :: s + ".csv" in listing
    ensures forall e <- listing :: EndsWith(e, ".csv") ==> RemoveSuffix(e, ".csv") in SampleNames(listing)
    ensures |SampleNames(listing)| <= |listing|
    decreases |listing|
  {
    if listing != [] {
      SampleNamesSpec(listing[1..]);
      assert forall e <- listing[1..] :: e in listing;
      assert forall e <- listing :: e == listing[0] || e in listing[1..];
    }
  }

  /** The three folders generate_surveys works with. */
  datatype GroupPaths = GroupPaths(template: string, samples: string, surveys: string)

  function GroupPathsOf(dataRoot: string, surveyName: string, sampleGroup: string): GroupPaths {
    GroupPaths(
      PosixPath.Join(PosixPath.Join(dataRoot, "labels/survey_template"), surveyName),
      PosixPath.Join(PosixPath.Join(dataRoot, "sampling/samples"), sampleGroup),
      PosixPath.Join(PosixPath.Join(dataRoot, "labels/unlabeled_surveys"), sampleGroup))
  }

  /** The survey zip a sample would get. */
  function SurveyZip(surveysDir: string, sample: string): string {
    PosixPath.Join(surveysDir, sample + ".zip")
  }

  /** The samples that still need a survey, in listing order. */
  function Pending(samples: seq<string>, surveysDir: string, pathExists: string -> bool): seq<string>
    decreases |samples|
  {
    if samples == [] then []
    else
      var rest := Pending(samples[1..], surveysDir, pathExists);
      if pathExists(SurveyZip(surveysDir, samples[0])) then rest else [samples[0]] + rest
  }

  /** One step of the scan: the sample at `i` is kept exactly when its zip does not exist. */
  lemma PendingStep(samples: seq<string>, i: nat, surveysDir: string, pathExists: string -> bool)
    requires i < |samples|
    ensures Pending(samples[i..], surveysDir, pathExists)
      == (if pathExists(SurveyZip(surveysDir, samples[i])) then [] else [samples[i]])
         + Pending(samples[i + 1..], surveysDir, pathExists)
  {
    assert samples[i..][1..] == samples[i + 1..];
  }

  /** A sample is pending exactly when it is a sample whose zip does not exist. */
  lemma {:induction false} PendingSpec(samples: seq<string>, surveysDir: string, pathExists: string -> bool)
    ensures forall s :: s in Pending(samples, surveysDir, pathExists) <==> s in samples && !pathExists(SurveyZip(surveysDir, s))
    decreases |samples|
  {
    if samples != [] {
      PendingSpec(samples[1..], surveysDir, pathExists);
      assert forall s :: s in samples <==> s == samples[0] || s in samples[1..];
    }
  }

  /**
   * generate_surveys: the samples it generates a survey for, in order. `listing` is
   * the sample group's directory listing and `pathExists` tells which paths exist.
   */
  method GenerateSurveys(dataRoot: string, surveyName: string, sampleGroup: string, listing: seq<string>, pathExists: string -> bool)
    returns (generated: seq<string>)
    ensures generated == Pending(SampleNames(listing), GroupPathsOf(dataRoot, surveyName, sampleGroup).surveys, pathExists)
  {
    var paths := GroupPathsOf(dataRoot, surveyName, sampleGroup);
    var samples := SampleNames(listing);
    generated := ScanSamples(samples, paths.surveys, pathExists);
  }

  /** The loop of generate_surveys: each sample whose zip is missing, in order; the others are skipped. */
  method ScanSamples(samples: seq<string>, surveysDir: string, pathExists: string -> bool) returns (generated: seq<string>)
    ensures generated == Pending(samples, surveysDir, pathExists)
  {
    generated := [];
    var i := 0;
    while i < |samples|
      invariant 0 <= i <= |samples|
      invariant generated + Pending(samples[i..], surveysDir, pathExists) == Pending(samples, surveysDir, pathExists)
    {
      var sample := samples[i];
      PendingStep(samples, i, surveysDir, pathExists);
      if pathExists(SurveyZip(surveysDir, sample)) {
        i := i + 1;
        continue;
      }
      assert generated + [sample] + Pending(samples[i + 1..], surveysDir, pathExists)
          == generated + ([sample] + Pending(samples[i + 1..], surveysDir, pathExists));
      generated := generated + [sample];
      i := i + 1;
    }
  }
}

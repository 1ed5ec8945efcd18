/**
 * Flattening of the Earth Collect survey exports (src/processing/survey_to_csv.py):
 * one XML file per surveyed site becomes one record per filled day slot, and the
 * records of every XML file in an unpacked export become one CSV.
 *
 * An XML document is abstracted as the map from the path of each element that
 * is present ("id/value", "year3/code", ...) to its text (None when it has none).
 */
module SurveyToCsv {
  import opened Wrappers
  import opened Text
  import PosixPath

  type XmlDocument = map<string, Option<string>>

  /** root.find(path).text, or None when the element is absent. */
  function FindText(doc: XmlDocument, path: string): Option<string> {
    if path in doc then doc[path] else None
  }

  /** elem.find(child).text when both elem and its child are present, else None. */
  function ChildText(doc: XmlDocument, elem: string, child: string): Option<string> {
    if elem in doc && elem + "/" + child in doc then doc[elem + "/" + child] else None
  }

  /** The element name of day slot i: "year3", "month3", ... */
  function Slot(name: string, i: nat): string {
    name + NatToString(i)
  }

  /** The number of day slots a survey has. */
  const SlotCount: nat := 10

  // ---------------------------------------------------------------------------
  // Records
  // ---------------------------------------------------------------------------

  /** The site-level fields every record of a file repeats. */
  datatype Site = Site(
    siteId: Option<string>,
    internalId: int,
    plotFile: Option<string>,
    operator: Option<string>,
    operatorInitials: string,
    x: Option<string>,
    y: Option<string>,
    waterSource: Option<string>)

  /** One CSV row: the site fields and one day slot. */
  datatype Record = Record(
    site: Site,
    imageNumber: int,
    year: Option<string>,
    month: Option<string>,
    day: Option<string>,
    irrigation: Option<string>)

  /** Why parse_xml raised. */
  datatype SurveyError =
    | PathTooShort(path: string)            // fewer than three '/' components
    | InternalIdNotInteger(path: string)    // int() of the file name without extension

  /** Day slot i is recorded: the year element and its code child are present. */
  predicate HasYear(doc: XmlDocument, i: nat) {
    Slot("year", i) in doc && Slot("year", i) + "/code" in doc
  }

  /** The record of a recorded day slot; each missing day field is None. */
  function DayRecord(site: Site, doc: XmlDocument, i: nat): Record
    requires HasYear(doc, i)
  {
    Record(
      site,
      i,
      doc[Slot("year", i) + "/code"],
      ChildText(doc, Slot("month", i), "code"),
      ChildText(doc, Slot("day", i), "value"),
      ChildText(doc, Slot("irrigation", i), "code"))
  }

  /** The records of slots 1..n, in slot order. */
  function DayRecords(site: Site, doc: XmlDocument, n: nat): seq<Record>
    decreases n
  {
    if n == 0 then []
    else DayRecords(site, doc, n - 1) + (if HasYear(doc, n) then [DayRecord(site, doc, n)] else [])
  }

  /**
   * The records of slots 1..n are exactly the recorded slots, in increasing slot
   * order, each the slot's own record for this site; so there are at most n.
   */
  lemma {:induction false} DayRecordsSpec(site: Site, doc: XmlDocument, n: nat)
    ensures var rs := DayRecords(site, doc, n);
      && |rs| <= n
      && (forall k :: 0 <= k < |rs| ==>
            && 1 <= rs[k].imageNumber <= n
            && HasYear(doc, rs[k].imageNumber)
            && rs[k] == DayRecord(site, doc, rs[k].imageNumber))
      && (forall a, b :: 0 <= a < b < |rs| ==> rs[a].imageNumber < rs[b].imageNumber)
      && (forall i: nat :: 1 <= i <= n && HasYear(doc, i) ==> exists k :: 0 <= k < |rs| && rs[k].imageNumber == i)
    decreases n
  {
    if n > 0 {
      DayRecordsSpec(site, doc, n - 1);
      var rs := DayRecords(site, doc, n);
      var init := DayRecords(site, doc, n - 1);
      assert forall k :: 0 <= k < |init| ==> rs[k] == init[k];
      if HasYear(doc, n) {
        assert rs[|rs| - 1].imageNumber == n;
      }
    }
  }

  // ---------------------------------------------------------------------------
  // Fields derived from the path
  // ---------------------------------------------------------------------------

  /** The text before the first '_' of the third-from-last '/' component of the path. */
  function OperatorInitials(path: string): Result<string, SurveyError> {
    var components := Split(path, '/');
    if |components| < 3 then Failure(PathTooShort(path))
    else Success(Split(components[|components| - 3], '_')[0])
  }

  /** int() of the file name without its extension. */
  function InternalId(path: string): Result<int, SurveyError> {
    match ParseInt(PosixPath.SplitExt(PosixPath.Basename(path)).0)
    case None => Failure(InternalIdNotInteger(path))
    case Some(id) => Success(id)
  }

  /** In ".../AB_rest/1/0007.xml" the initials are AB. */
  lemma OperatorInitialsOf(prefix: string, initials: string, rest: string, folder: string, name: string)
    requires '/' !in initials && '/' !in rest && '/' !in folder && '/' !in name
    requires '_' !in initials
    ensures OperatorInitials(prefix + "/" + initials + "_" + rest + "/" + folder + "/" + name) == Success(initials)
  {
    var top := initials + "_" + rest;
    assert '/' !in top;
    var tail := top + ['/'] + folder + ['/'] + name;
    assert prefix + "/" + initials + "_" + rest + "/" + folder + "/" + name == prefix + ['/'] + tail;
    SplitConcat(prefix, '/', tail);
    SplitThree(top, folder, name, '/');
    SplitConcat(initials, '_', rest);
    SplitNone(initials, '_');
  }

  /** A file named by the decimal digits of n, with extension ".xml", has internal id n. */
  lemma InternalIdOf(dir: string, n: nat)
    ensures InternalId(PosixPath.Join(dir, NatToString(n) + ".xml")) == Success(n)
  {
    var digits := NatToString(n);
    assert forall c <- digits :: IsDigit(c);
    assert digits[|digits| - 1] in digits;
    PosixPath.StemOfJoin(dir, digits, ".xml");
    ParseIntOfIntToString(n);
  }

  // ---------------------------------------------------------------------------
  // parse_xml
  // ---------------------------------------------------------------------------

  /** The site-level fields of a file, given its initials and internal id. */
  function SiteOf(doc: XmlDocument, initials: string, internalId: int): Site {
    Site(
      FindText(doc, "id/value"),
      internalId,
      FindText(doc, "plot_file/value"),
      FindText(doc, "operator/value"),
      initials,
      FindText(doc, "location/x"),
      FindText(doc, "location/y"),
      FindText(doc, "natural_dicoloration/value"))
  }

  /** parse_xml: the initials are derived first, then the internal id, then the ten slots. */
  function ParseXml(path: string, doc: XmlDocument): Result<seq<Record>, SurveyError> {
    var initials :- OperatorInitials(path);
    var internalId :- InternalId(path);
    Success(DayRecords(SiteOf(doc, initials, internalId), doc, SlotCount))
  }

  /** parse_xml with its loop over the day slots 1..10. */
  method ParseXmlFile(path: string, doc: XmlDocument) returns (r: Result<seq<Record>, SurveyError>)
    ensures r == ParseXml(path, doc)
  {
    var initials := OperatorInitials(path);
    if initials.Failure? {
      return Failure(initials.error);
    }
    var internalId := InternalId(path);
    if internalId.Failure? {
      return Failure(internalId.error);
    }
    var records := CollectDays(SiteOf(doc, initials.value, internalId.value), doc);
    r := Success(records);
  }

  /** The loop over the day slots 1..10, appending one record per recorded slot. */
  method CollectDays(site: Site, doc: XmlDocument) returns (records: seq<Record>)
    ensures records == DayRecords(site, doc, SlotCount)
  {
    records := [];
    for i := 1 to SlotCount + 1
      invariant records == DayRecords(site, doc, i - 1)
    {
      var yearElem := Slot("year", i);
      if yearElem in doc && yearElem + "/code" in doc {
        var year := doc[yearElem + "/code"];
        var month := ChildText(doc, Slot("month", i), "code");
        var day := ChildText(doc, Slot("day", i), "value");
        var irrigation := ChildText(doc, Slot("irrigation", i), "code");
        records := records + [Record(site, i, year, month, day, irrigation)];
      } else {
        assert records + [] == records;
      }
    }
  }

  /**
   * What a parsed file holds: at most ten records, each the record of a recorded
   * slot with the site fields of the path and document; a slot missing its
   * month, day or irrigation is still recorded, with None there.
   */
  lemma ParseXmlSpec(path: string, doc: XmlDocument)
    requires ParseXml(path, doc).Success?
    ensures OperatorInitials(path).Success? && InternalId(path).Success?
    ensures |ParseXml(path, doc).value| <= 10
    ensures var rs := ParseXml(path, doc).value;
      forall k :: 0 <= k < |rs| ==>
        && 1 <= rs[k].imageNumber <= 10
        && HasYear(doc, rs[k].imageNumber)
        && rs[k].site == SiteOf(doc, OperatorInitials(path).value, InternalId(path).value)
        && rs[k] == DayRecord(rs[k].site, doc, rs[k].imageNumber)
  {
    ParseXmlValue(path, doc);
    var site := SiteOf(doc, OperatorInitials(path).value, InternalId(path).value);
    DayRecordsSpec(site, doc, SlotCount);
    DayRecordsSite(site, doc, SlotCount);
  }

  /** A parsed file lists its recorded slots in increasing slot order. */
  lemma ParseXmlOrdered(path: string, doc: XmlDocument)
    requires ParseXml(path, doc).Success?
    ensures var rs := ParseXml(path, doc).value;
      forall a, b :: 0 <= a < b < |rs| ==> rs[a].imageNumber < rs[b].imageNumber
  {
    ParseXmlValue(path, doc);
    DayRecordsSpec(SiteOf(doc, OperatorInitials(path).value, InternalId(path).value), doc, SlotCount);
  }

  /** A parsed file leaves no recorded slot out. */
  lemma ParseXmlComplete(path: string, doc: XmlDocument)
    requires ParseXml(path, doc).Success?
    ensures var rs := ParseXml(path, doc).value;
      forall i: nat :: 1 <= i <= 10 && HasYear(doc, i) ==> exists k :: 0 <= k < |rs| && rs[k].imageNumber == i
  {
    ParseXmlValue(path, doc);
    DayRecordsSpec(SiteOf(doc, OperatorInitials(path).value, InternalId(path).value), doc, SlotCount);
  }

  lemma ParseXmlValue(path: string, doc: XmlDocument)
    requires ParseXml(path, doc).Success?
    ensures OperatorInitials(path).Success? && InternalId(path).Success?
    ensures ParseXml(path, doc).value == DayRecords(SiteOf(doc, OperatorInitials(path).value, InternalId(path).value), doc, SlotCount)
  {
  }

  lemma {:induction false} DayRecordsSite(site: Site, doc: XmlDocument, n: nat)
    ensures forall k :: 0 <= k < |DayRecords(site, doc, n)| ==> DayRecords(site, doc, n)[k].site == site
    decreases n
  {
    if n > 0 {
      DayRecordsSite(site, doc, n - 1);
      var rs := DayRecords(site, doc, n);
      var init := DayRecords(site, doc, n - 1);
      forall k | 0 <= k < |rs|
        ensures rs[k].site == site
      {
        if k < |init| {
          assert rs[k] == init[k];
        } else {
          assert rs[k] == DayRecord(site, doc, n);
        }
      }
    }
  }

  // ---------------------------------------------------------------------------
  // process_xml_zip
  // ---------------------------------------------------------------------------

  /** Where the export is unpacked and read from: the zip path without extension, then "/1". */
  function XmlFolder(zip: string): string {
    PosixPath.SplitExt(zip).0 + "/1"
  }

  /** xml_zip.replace('zip', 'csv'): every occurrence, case-sensitively. */
  function CsvPath(zip: string): string {
    ReplaceAll(zip, "zip", "csv")
  }

  /** The records of the ".xml" entries of a folder listing, file after file. */
  function FolderRecords(folder: string, listing: seq<string>, docs: string -> XmlDocument): Result<seq<Record>, SurveyError>
    decreases |listing|
  {
    if listing == [] then Success([])
    else
      var init :- FolderRecords(folder, listing[..|listing| - 1], docs);
      var name := listing[|listing| - 1];
      if EndsWith(name, ".xml") then
        var path := PosixPath.Join(folder, name);
        var records :- ParseXml(path, docs(path));
        Success(init + records)
      else Success(init)
  }

  /** The output of process_xml_zip: the records and the CSV path they are written to. */
  datatype ZipOutput = ZipOutput(records: seq<Record>, csvPath: string)

  function ProcessZip(zip: string, listing: seq<string>, docs: string -> XmlDocument): Result<ZipOutput, SurveyError> {
    var records :- FolderRecords(XmlFolder(zip), listing, docs);
    Success(ZipOutput(records, CsvPath(zip)))
  }

  /**
   * process_xml_zip over the listing of the unpacked folder; `docs` gives the
   * parsed document of each file path.
   */
  method ProcessXmlZip(zip: string, listing: seq<string>, docs: string -> XmlDocument) returns (r: Result<ZipOutput, SurveyError>)
    ensures r == ProcessZip(zip, listing, docs)
  {
    var folder := XmlFolder(zip);
    var all: seq<Record> := [];
    for i := 0 to |listing|
      invariant FolderRecords(folder, listing[..i], docs) == Success(all)
    {
      assert listing[..i + 1][..i] == listing[..i];
      assert listing[..i + 1][i] == listing[i];
      if EndsWith(listing[i], ".xml") {
        var path := PosixPath.Join(folder, listing[i]);
        var records := ParseXmlFile(path, docs(path));
        if records.Failure? {
          r := Failure(records.error);
          FolderRecordsFailurePersists(folder, listing, i + 1, docs);
          return;
        }
        all := all + records.value;
      }
    }
    assert listing[..|listing|] == listing;
    r := Success(ZipOutput(all, CsvPath(zip)));
  }

  lemma {:induction false} FolderRecordsFailurePersists(folder: string, listing: seq<string>, n: nat, docs: string -> XmlDocument)
    requires n <= |listing| && FolderRecords(folder, listing[..n], docs).Failure?
    ensures FolderRecords(folder, listing, docs) == FolderRecords(folder, listing[..n], docs)
    decreases |listing|
  {
    if n < |listing| {
      var init := listing[..|listing| - 1];
      assert init[..n] == listing[..n];
      FolderRecordsFailurePersists(folder, init, n, docs);
    } else {
      assert listing[..n] == listing;
    }
  }

  /** Only ".xml" entries contribute: each yields at most ten records, all with image numbers 1..10. */
  lemma {:induction false} FolderRecordsBound(folder: string, listing: seq<string>, docs: string -> XmlDocument)
    requires FolderRecords(folder, listing, docs).Success?
    ensures |FolderRecords(folder, listing, docs).value| <= 10 * |XmlEntries(listing)|
    ensures forall k :: 0 <= k < |FolderRecords(folder, listing, docs).value| ==>
      1 <= FolderRecords(folder, listing, docs).value[k].imageNumber <= 10
    decreases |listing|
  {
    if listing != [] {
      var init := listing[..|listing| - 1];
      var name := listing[|listing| - 1];
      FolderRecordsStep(folder, listing, docs);
      FolderRecordsBound(folder, init, docs);
      var before := FolderRecords(folder, init, docs).value;
      if EndsWith(name, ".xml") {
        var path := PosixPath.Join(folder, name);
        ParseXmlBound(path, docs(path));
        RecordsAppendBound(before, ParseXml(path, docs(path)).value);
      }
    }
  }

  /** The last entry of a listing that parses: its records come after those of the entries before it. */
  lemma FolderRecordsStep(folder: string, listing: seq<string>, docs: string -> XmlDocument)
    requires listing != [] && FolderRecords(folder, listing, docs).Success?
    ensures var init := listing[..|listing| - 1];
      var name := listing[|listing| - 1];
      var path := PosixPath.Join(folder, name);
      && FolderRecords(folder, init, docs).Success?
      && (EndsWith(name, ".xml") ==>
            && ParseXml(path, docs(path)).Success?
            && FolderRecords(folder, listing, docs).value == FolderRecords(folder, init, docs).value + ParseXml(path, docs(path)).value
            && |XmlEntries(listing)| == |XmlEntries(init)| + 1)
      && (!EndsWith(name, ".xml") ==>
            && FolderRecords(folder, listing, docs).value == FolderRecords(folder, init, docs).value
            && |XmlEntries(listing)| == |XmlEntries(init)|)
  {
  }

  /** A parsed file has at most ten records, numbered 1..10. */
  lemma ParseXmlBound(path: string, doc: XmlDocument)
    requires ParseXml(path, doc).Success?
    ensures |ParseXml(path, doc).value| <= 10
    ensures forall k :: 0 <= k < |ParseXml(path, doc).value| ==> 1 <= ParseXml(path, doc).value[k].imageNumber <= 10
  {
    ParseXmlSpec(path, doc);
  }

  /** Records with image numbers 1..10 stay so when two lists of them are joined. */
  lemma RecordsAppendBound(a: seq<Record>, b: seq<Record>)
    requires forall k :: 0 <= k < |a| ==> 1 <= a[k].imageNumber <= 10
    requires forall k :: 0 <= k < |b| ==> 1 <= b[k].imageNumber <= 10
    ensures forall k :: 0 <= k < |a + b| ==> 1 <= (a + b)[k].imageNumber <= 10
  {
    forall k | 0 <= k < |a + b|
      ensures 1 <= (a + b)[k].imageNumber <= 10
    {
      if k < |a| {
        assert (a + b)[k] == a[k];
      } else {
        assert (a + b)[k] == b[k - |a|];
      }
    }
  }

  /** The entries of a listing that end in ".xml". */
  function XmlEntries(listing: seq<string>): seq<string>
    decreases |listing|
  {
    if listing == [] then []
    else
      var name := listing[|listing| - 1];
      XmlEntries(listing[..|listing| - 1]) + (if EndsWith(name, ".xml") then [name] else [])
  }

  /** Entries that are not ".xml" files are ignored. */
  lemma {:induction false} FolderRecordsIgnoresOtherEntries(folder: string, listing: seq<string>, docs: string -> XmlDocument)
    ensures FolderRecords(folder, listing, docs) == FolderRecords(folder, XmlEntries(listing), docs)
    decreases |listing|
  {
    if listing != [] {
      var init := listing[..|listing| - 1];
      var name := listing[|listing| - 1];
      var xs := XmlEntries(init);
      FolderRecordsIgnoresOtherEntries(folder, init, docs);
      if EndsWith(name, ".xml") {
        var ys := xs + [name];
        assert ys[..|ys| - 1] == xs;
      } else {
        assert XmlEntries(listing) == xs + [];
        assert xs + [] == xs;
      }
    }
  }

  /**
   * The CSV path replaces every "zip" of the export path by "csv": for a path
   * whose only 'z's are those of its "zip" occurrences.
   */
  lemma {:induction false} CsvPathOfPieces(pieces: seq<string>)
    requires forall k :: 0 <= k < |pieces| ==> 'z' !in pieces[k]
    ensures CsvPath(Join(pieces, "zip")) == Join(pieces, "csv")
    decreases |pieces|
  {
    if pieces == [] {
    } else if |pieces| == 1 {
      ReplaceAllSkipsPrefix(pieces[0], [], "zip", "csv");
      assert pieces[0] + [] == pieces[0];
    } else {
      var rest := Join(pieces[1..], "zip");
      assert Join(pieces, "zip") == pieces[0] + ("zip" + rest);
      ReplaceAllSkipsPrefix(pieces[0], "zip" + rest, "zip", "csv");
      ReplaceAllAtPattern(rest, "zip", "csv");
      CsvPathOfPieces(pieces[1..]);
    }
  }

  /** The usual export name: "<stem>.zip" is written as "<stem>.csv". */
  lemma CsvPathOfZipFile(stem: string)
    requires 'z' !in stem
    ensures CsvPath(stem + ".zip") == stem + ".csv"
  {
    CsvPathOfPieces([stem + ".", ""]);
    assert Join([stem + ".", ""], "zip") == stem + ".zip";
    assert Join([stem + ".", ""], "csv") == stem + ".csv";
  }

  /** The CSV path has the length of the export path. */
  lemma CsvPathLength(zip: string)
    ensures |CsvPath(zip)| == |zip|
  {
    ReplaceAllSameLength(zip, "zip", "csv");
  }

  /** The XML folder of "<stem>.zip" is "<stem>/1". */
  lemma XmlFolderOfZipFile(dir: string, stem: string)
    requires '/' !in stem && '.' !in stem && stem != []
    ensures XmlFolder(PosixPath.Join(dir, stem + ".zip")) == PosixPath.Join(dir, stem) + "/1"
  {
    var head := PosixPath.Join(dir, stem);
    assert stem[0] in stem && stem[|stem| - 1] in stem;
    PosixPath.JoinExtended(dir, stem, ".zip");
    PosixPath.SplitExtAt(head, ".zip");
  }
}

/**
 * The KML-to-GeoJSON conversion of the labelled polygons
 * (src/processing/polygons_to_geojson.py): the placemark name and description
 * parsers, the colour-to-image-number lookup, the outer-ring conversion and the
 * loop that turns the document's placemarks into GeoJSON features (sections 3.2
 * and 3.3 of RFC 7946).
 */
module PolygonsToGeoJson {
  import opened Wrappers
  import opened Text
  import opened GeoJson

  // ---------------------------------------------------------------------------
  // parse_name
  // ---------------------------------------------------------------------------

  /** The fields a placemark name carries, as "AB_3_9.6.2021": initials, id, month.day.year. */
  datatype NameFields = NameFields(operatorInitials: string, internalId: int, month: int, day: int, year: int)

  /** What went wrong inside parse_name before it re-raises as ValueError. */
  datatype NameFault =
    | MissingIdPart                     // parts[1] raises IndexError
    | IdNotInteger(piece: string)       // int(parts[1]) raises
    | MissingDatePart                   // parts[2] raises IndexError
    | DateNotThreeParts(count: nat)     // the explicit "three parts" check
    | DatePartNotInteger(piece: string) // int() of month, day or year raises

  /** The ValueError parse_name raises: it names the input and the underlying fault. */
  datatype NameError = NameError(name: string, fault: NameFault)

  /** A year whose str() is not four characters long gets 2000 added. */
  function FixYear(year: int): int {
    if |IntToString(year)| != 4 then year + 2000 else year
  }

  /**
   * The body of parse_name's try block: split on '_', take the initials, the id
   * and the month.day.year date, converting in the order the source evaluates them.
   */
  function ParseFields(name: string): Result<NameFields, NameFault> {
    var parts := Split(name, '_');
    if |parts| < 2 then Failure(MissingIdPart)
    else match ParseInt(parts[1])
      case None => Failure(IdNotInteger(parts[1]))
      case Some(id) =>
        if |parts| < 3 then Failure(MissingDatePart)
        else
          var date := Split(parts[2], '.');
          if |date| != 3 then Failure(DateNotThreeParts(|date|))
          else match (ParseInt(date[0]), ParseInt(date[1]), ParseInt(date[2]))
            case (None, _, _) => Failure(DatePartNotInteger(date[0]))
            case (Some(_), None, _) => Failure(DatePartNotInteger(date[1]))
            case (Some(_), Some(_), None) => Failure(DatePartNotInteger(date[2]))
            case (Some(m), Some(d), Some(y)) => Success(NameFields(parts[0], id, m, d, FixYear(y)))
  }

  /** parse_name: every failure becomes one ValueError that carries the name it was given. */
  function ParseName(name: string): (r: Result<NameFields, NameError>)
    ensures r.Failure? ==> r.error.name == name
    ensures r.Success? <==> ParseFields(name).Success?
  {
    match ParseFields(name)
    case Success(f) => Success(f)
    case Failure(fault) => Failure(NameError(name, fault))
  }

  /** The text of the fault that parse_name appends to its message. */
  function FaultText(fault: NameFault): string {
    match fault
    case MissingIdPart => "list index out of range"
    case IdNotInteger(piece) => "invalid literal for int() with base 10: '" + piece + "'"
    case MissingDatePart => "list index out of range"
    case DateNotThreeParts(_) => "Date portion does not have three parts."
    case DatePartNotInteger(piece) => "invalid literal for int() with base 10: '" + piece + "'"
  }

  /** The message of the ValueError: it always contains the offending name. */
  function NameErrorMessage(e: NameError): (msg: string)
    ensures Contains(msg, e.name)
  {
    var msg := "Error parsing name '" + e.name + ("': " + FaultText(e.fault));
    ContainsInfix("Error parsing name '", e.name, "': " + FaultText(e.fault));
    msg
  }

  /** The names parse_name accepts: three '_' parts, an integer id and an integer month.day.year. */
  predicate WellFormedName(name: string) {
    var parts := Split(name, '_');
    && |parts| >= 3
    && IsIntLiteral(Strip(parts[1]))
    && var date := Split(parts[2], '.');
       && |date| == 3
       && IsIntLiteral(Strip(date[0])) && IsIntLiteral(Strip(date[1])) && IsIntLiteral(Strip(date[2]))
  }

  /** parse_name succeeds exactly on well-formed names. */
  lemma ParseNameSucceedsIff(name: string)
    ensures ParseName(name).Success? <==> WellFormedName(name)
  {
  }

  /** The date part of a name: month.day.year. */
  function DatePart(f: NameFields): string {
    IntToString(f.month) + "." + IntToString(f.day) + "." + IntToString(f.year)
  }

  /** The name a placemark carries for some fields: initials_id_month.day.year. */
  function FormatName(f: NameFields): string {
    f.operatorInitials + "_" + IntToString(f.internalId) + "_" + DatePart(f)
  }

  /** A formatted name splits into its three parts, and its date into month, day and year. */
  lemma FormatNameSplits(f: NameFields)
    requires '_' !in f.operatorInitials
    ensures Split(FormatName(f), '_') == [f.operatorInitials, IntToString(f.internalId), DatePart(f)]
    ensures Split(DatePart(f), '.') == [IntToString(f.month), IntToString(f.day), IntToString(f.year)]
  {
    SplitThreeInts(f.month, f.day, f.year, '.');
    IntToStringLacks(f.internalId, '_');
    IntToStringLacks(f.month, '_');
    IntToStringLacks(f.day, '_');
    IntToStringLacks(f.year, '_');
    assert '_' !in DatePart(f);
    SplitThree(f.operatorInitials, IntToString(f.internalId), DatePart(f), '_');
  }

  /** Parsing a formatted name gives its fields back, with the year passed through FixYear. */
  lemma ParseFormatName(f: NameFields)
    requires '_' !in f.operatorInitials
    ensures ParseName(FormatName(f)) == Success(f.(year := FixYear(f.year)))
  {
    FormatNameSplits(f);
    ParseIntOfIntToString(f.internalId);
    ParseIntOfIntToString(f.month);
    ParseIntOfIntToString(f.day);
    ParseIntOfIntToString(f.year);
  }

  /** The documented example: "AB_3_9.6.2021" is operator AB, id 3, 6 September 2021. */
  lemma ParseNameExample()
    ensures ParseName("AB_3_9.6.2021") == Success(NameFields("AB", 3, 9, 6, 2021))
  {
    var f := NameFields("AB", 3, 9, 6, 2021);
    assert IntToString(3) == "3" && IntToString(9) == "9" && IntToString(6) == "6";
    assert NatToString(2021) == NatToString(202) + ['1'];
    assert NatToString(202) == NatToString(20) + ['2'];
    assert NatToString(20) == NatToString(2) + ['0'];
    assert IntToString(2021) == "2021";
    assert FormatName(f) == "AB_3_9.6.2021";
    ParseFormatName(f);
  }

  /** Fields after the third '_' part are ignored. */
  lemma ParseFieldsIgnoresExtraParts(name: string, extra: string)
    requires |Split(name, '_')| >= 3
    ensures ParseFields(name + "_" + extra) == ParseFields(name)
  {
    SplitConcat(name, '_', extra);
  }

  /** For a non-negative year: 1000..9999 is kept, any shorter year gets 2000 added. */
  lemma FixYearOfNat(year: nat)
    ensures FixYear(year) == if 1000 <= year <= 9999 then year else year + 2000
  {
    NatToStringFourWide(year);
  }

  /** A two-digit year is read as a year of the 2000s. */
  lemma FixYearTwoDigits(year: nat)
    requires year <= 99
    ensures FixYear(year) == 2000 + year && 2000 <= FixYear(year) <= 2099
  {
    FixYearOfNat(year);
  }

  // ---------------------------------------------------------------------------
  // parse_description
  // ---------------------------------------------------------------------------

  /** The certainty (1..5 by convention) and the free-text explanation of a polygon. */
  datatype Description = Description(certainty: int, explanation: string)

  /** What a blank or missing description stands for. */
  const DefaultDescription: Description := Description(5, "")

  /**
   * parse_description: the first non-blank line is the certainty (5 when it is not
   * an integer), the second the explanation ("" when there is none).
   */
  function ParseDescription(text: string): (r: Description)
    ensures r.explanation == [] || (!IsSpace(r.explanation[0]) && !IsSpace(r.explanation[|r.explanation| - 1]))
  {
    var lines := NonBlankLines(text);
    if lines == [] then DefaultDescription
    else
      var certainty := match ParseInt(lines[0]) case Some(c) => c case None => 5;
      if |lines| > 1 then Description(certainty, lines[1]) else Description(certainty, "")
  }

  /** A blank description means certainty 5 and no explanation. */
  lemma ParseDescriptionBlank(text: string)
    requires forall c <- text :: IsSpace(c)
    ensures ParseDescription(text) == DefaultDescription
  {
    NonBlankLinesBlank(text);
  }

  /** A line break separates the certainty from a one-line explanation; both come back. */
  lemma ParseDescriptionRoundTrip(certainty: int, explanation: string)
    requires explanation != [] && !IsSpace(explanation[0]) && !IsSpace(explanation[|explanation| - 1])
    requires forall c <- explanation :: !IsLineBoundary(c)
    ensures ParseDescription(IntToString(certainty) + "\n" + explanation) == Description(certainty, explanation)
  {
    IntToStringChars(certainty);
    NonBlankLinesTwo(IntToString(certainty), explanation);
    ParseIntOfIntToString(certainty);
  }

  /** A description of just a certainty gives that certainty and no explanation. */
  lemma ParseDescriptionCertaintyOnly(certainty: int)
    ensures ParseDescription(IntToString(certainty)) == Description(certainty, "")
  {
    IntToStringChars(certainty);
    NonBlankLinesOne(IntToString(certainty));
    ParseIntOfIntToString(certainty);
  }

  /**
   * Whenever the first non-blank line, stripped, is not an integer literal, the
   * certainty falls back to 5 (the ValueError of int() is caught).
   */
  lemma ParseDescriptionNotInteger(text: string)
    requires NonBlankLines(text) != [] && !IsIntLiteral(NonBlankLines(text)[0])
    ensures ParseDescription(text).certainty == 5
  {
    NonBlankLinesStripped(text, 0);
  }

  /** In particular a non-integer first line followed by a line feed gives 5, whatever follows it. */
  lemma ParseDescriptionNotIntegerThenText(first: string, rest: string)
    requires first != [] && !IsSpace(first[0]) && !IsSpace(first[|first| - 1])
    requires forall c <- first :: !IsLineBoundary(c)
    requires !IsIntLiteral(first)
    requires rest != [] && !IsSpace(rest[|rest| - 1])
    ensures ParseDescription(first + "\n" + rest).certainty == 5
  {
    NonBlankLinesFirst(first, rest);
    ParseDescriptionNotInteger(first + "\n" + rest);
  }

  /** The description properties of a placemark: parsed when the element has text, else the default. */
  function DescriptionOf(description: Option<string>): Description {
    if description.Some? && description.value != [] then ParseDescription(description.value)
    else DefaultDescription
  }

  // ---------------------------------------------------------------------------
  // convert_color_to_im_num
  // ---------------------------------------------------------------------------

  /** The bbggrr colours of images 1..10: image k is at position k - 1. */
  const ColorTable: seq<string> :=
    ["ffffff", "0affff", "0701fc", "800080", "0880fd", "ff02fc", "06ff21", "ffff20", "336699", "ff0000"]

  /** color[2:]: a KML aabbggrr colour without its alpha byte. */
  function WithoutAlpha(color: string): string {
    if |color| < 2 then [] else color[2..]
  }

  /** The first position of x in xs, as list.index, or None when x is absent. */
  function IndexOf(xs: seq<string>, x: string): (r: Option<nat>)
    ensures r.Some? ==> r.value < |xs| && xs[r.value] == x && forall j :: 0 <= j < r.value ==> xs[j] != x
    ensures r.None? <==> x !in xs
  {
    if xs == [] then None
    else if xs[0] == x then Some(0)
    else match IndexOf(xs[1..], x)
      case None => None
      case Some(j) => Some(j + 1)
  }

  /** convert_color_to_im_num: the image whose colour is the given one's bbggrr part, if any. */
  function ColorToImageNumber(color: string): (r: Option<int>)
    ensures r.Some? ==> 1 <= r.value <= 10 && ColorTable[r.value - 1] == WithoutAlpha(color)
    ensures r.None? <==> WithoutAlpha(color) !in ColorTable
  {
    match IndexOf(ColorTable, WithoutAlpha(color))
    case None => None
    case Some(k) => Some(k + 1)
  }

  /** The ten colours are distinct, so an image number determines its colour and back. */
  lemma ColorTableDistinct()
    ensures forall i, j :: 0 <= i < j < |ColorTable| ==> ColorTable[i] != ColorTable[j]
  {
    forall i, j | 0 <= i < j < |ColorTable|
      ensures ColorTable[i] != ColorTable[j]
    {
      var ci, cj := ColorTable[i], ColorTable[j];
      assert |ci| == 6 && |cj| == 6;
      assert ci[0] != cj[0] || ci[1] != cj[1] || ci[2] != cj[2] || ci[3] != cj[3] || ci[4] != cj[4] || ci[5] != cj[5];
    }
  }

  /** Any alpha byte followed by image k's colour converts back to k. */
  lemma ColorToImageNumberOfTable(alpha: string, k: int)
    requires |alpha| == 2 && 1 <= k <= 10
    ensures ColorToImageNumber(alpha + ColorTable[k - 1]) == Some(k)
  {
    assert WithoutAlpha(alpha + ColorTable[k - 1]) == ColorTable[k - 1];
    ColorTableDistinct();
  }

  // ---------------------------------------------------------------------------
  // convert_geometry
  // ---------------------------------------------------------------------------

  /** A kml:LinearRing; `coordinates` is None when the element or its text is missing. */
  datatype KmlLinearRing = KmlLinearRing(coordinates: Option<string>)

  /** A kml:Polygon; `outerRing` is its outerBoundaryIs/LinearRing, when present. */
  datatype KmlPolygon = KmlPolygon(outerRing: Option<KmlLinearRing>)

  /**
   * A kml:Placemark as the conversion reads it: the text of its name and
   * description (None when the element or its text is missing), the colour its
   * style resolves to, and which geometry elements it has.
   */
  datatype Placemark = Placemark(
    name: Option<string>,
    description: Option<string>,
    color: Option<string>,
    hasPoint: bool,
    hasLineString: bool,
    polygon: Option<KmlPolygon>)

  /** Why convert_geometry raised. */
  datatype GeometryError =
    | PolygonWithoutOuterRing          // the explicit ValueError
    | CoordinatesMissing               // .text.strip() on a missing element or text
    | CoordinateNotNumber(token: string)
    | CoordinateMissingLatitude(token: string)

  /** Python's float() on a string: None where it raises ValueError. */
  type FloatParser = string -> Option<real>

  /** One whitespace-free token "lon,lat[,alt]": the first two comma fields, read in order. */
  function ParsePosition(token: string, parseFloat: FloatParser): Result<Position, GeometryError> {
    var fields := Split(token, ',');
    match parseFloat(fields[0])
    case None => Failure(CoordinateNotNumber(token))
    case Some(lon) =>
      if |fields| < 2 then Failure(CoordinateMissingLatitude(token))
      else match parseFloat(fields[1])
        case None => Failure(CoordinateNotNumber(token))
        case Some(lat) => Success(Position(lon, lat))
  }

  /** The ring the append loop builds from the tokens; the first failing token ends it. */
  function ParseRing(tokens: seq<string>, parseFloat: FloatParser): Result<Ring, GeometryError>
    decreases |tokens|
  {
    if tokens == [] then Success([])
    else
      var init :- ParseRing(tokens[..|tokens| - 1], parseFloat);
      var p :- ParsePosition(tokens[|tokens| - 1], parseFloat);
      Success(init + [p])
  }

  /** The ring is one position per token, in order, when every token converts. */
  lemma {:induction false} ParseRingPositions(tokens: seq<string>, parseFloat: FloatParser)
    ensures ParseRing(tokens, parseFloat).Success? <==>
      forall k :: 0 <= k < |tokens| ==> ParsePosition(tokens[k], parseFloat).Success?
    ensures ParseRing(tokens, parseFloat).Success? ==>
      var ring := ParseRing(tokens, parseFloat).value;
      |ring| == |tokens| && forall k :: 0 <= k < |tokens| ==> ring[k] == ParsePosition(tokens[k], parseFloat).value
    decreases |tokens|
  {
    if tokens != [] {
      var init := tokens[..|tokens| - 1];
      ParseRingPositions(init, parseFloat);
      assert forall k :: 0 <= k < |init| ==> init[k] == tokens[k];
    }
  }

  /** The error is that of the first token that does not convert. */
  lemma {:induction false} ParseRingFirstFailure(tokens: seq<string>, parseFloat: FloatParser, k: nat)
    requires k < |tokens| && ParsePosition(tokens[k], parseFloat).Failure?
    requires forall j :: 0 <= j < k ==> ParsePosition(tokens[j], parseFloat).Success?
    ensures ParseRing(tokens, parseFloat) == Failure(ParsePosition(tokens[k], parseFloat).error)
    decreases |tokens|
  {
    var init := tokens[..|tokens| - 1];
    if k < |tokens| - 1 {
      ParseRingFirstFailure(init, parseFloat, k);
    } else {
      ParseRingPositions(init, parseFloat);
    }
  }

  /** Once a prefix has failed, the whole run fails the same way. */
  lemma {:induction false} ParseRingFailurePersists(tokens: seq<string>, n: nat, parseFloat: FloatParser)
    requires n <= |tokens| && ParseRing(tokens[..n], parseFloat).Failure?
    ensures ParseRing(tokens, parseFloat) == ParseRing(tokens[..n], parseFloat)
    decreases |tokens|
  {
    if n < |tokens| {
      var init := tokens[..|tokens| - 1];
      assert init[..n] == tokens[..n];
      ParseRingFailurePersists(init, n, parseFloat);
    } else {
      assert tokens[..n] == tokens;
    }
  }

  /** The coordinate loop of convert_geometry over the stripped text's whitespace tokens. */
  method ParseCoordinates(text: string, parseFloat: FloatParser) returns (r: Result<Ring, GeometryError>)
    ensures r == ParseRing(Words(Strip(text)), parseFloat)
  {
    var tokens := Words(Strip(text));
    var coords: Ring := [];
    for i := 0 to |tokens|
      invariant ParseRing(tokens[..i], parseFloat) == Success(coords)
    {
      assert tokens[..i + 1][..i] == tokens[..i];
      var fields := Split(tokens[i], ',');
      var lon := parseFloat(fields[0]);
      if lon.None? {
        r := Failure(CoordinateNotNumber(tokens[i]));
        ParseRingFailurePersists(tokens, i + 1, parseFloat);
        return;
      }
      if |fields| < 2 {
        r := Failure(CoordinateMissingLatitude(tokens[i]));
        ParseRingFailurePersists(tokens, i + 1, parseFloat);
        return;
      }
      var lat := parseFloat(fields[1]);
      if lat.None? {
        r := Failure(CoordinateNotNumber(tokens[i]));
        ParseRingFailurePersists(tokens, i + 1, parseFloat);
        return;
      }
      coords := coords + [Position(lon.value, lat.value)];
    }
    assert tokens[..|tokens|] == tokens;
    r := Success(coords);
  }

  /**
   * convert_geometry: Point and LineString are passed over, a Polygon becomes a
   * one-ring GeoJSON Polygon of its outer boundary, anything else is passed over.
   */
  function GeometryOf(p: Placemark, parseFloat: FloatParser): Result<Option<Geometry>, GeometryError> {
    if p.hasPoint || p.hasLineString then Success(None)
    else match p.polygon
      case None => Success(None)
      case Some(poly) =>
        match poly.outerRing
        case None => Failure(PolygonWithoutOuterRing)
        case Some(ring) =>
          match ring.coordinates
          case None => Failure(CoordinatesMissing)
          case Some(text) =>
            var coords :- ParseRing(Words(Strip(text)), parseFloat);
            Success(Some(Polygon([coords])))
  }

  /** The converted geometry: None without a polygon, else one ring with a position per token. */
  lemma GeometryOfSpec(p: Placemark, parseFloat: FloatParser)
    ensures (p.hasPoint || p.hasLineString || p.polygon.None?) ==> GeometryOf(p, parseFloat) == Success(None)
    ensures (!p.hasPoint && !p.hasLineString && p.polygon.Some? && p.polygon.value.outerRing.None?) ==>
      GeometryOf(p, parseFloat) == Failure(PolygonWithoutOuterRing)
    ensures GeometryOf(p, parseFloat).Success? && GeometryOf(p, parseFloat).value.Some? ==>
      && p.polygon.Some? && p.polygon.value.outerRing.Some? && p.polygon.value.outerRing.value.coordinates.Some?
      && var tokens := Words(Strip(p.polygon.value.outerRing.value.coordinates.value));
         var g := GeometryOf(p, parseFloat).value.value;
         && g.Polygon? && |g.rings| == 1 && |g.rings[0]| == |tokens|
         && forall k :: 0 <= k < |tokens| ==> ParsePosition(tokens[k], parseFloat).Success? && g.rings[0][k] == ParsePosition(tokens[k], parseFloat).value
  {
    if !p.hasPoint && !p.hasLineString && p.polygon.Some? && p.polygon.value.outerRing.Some?
      && p.polygon.value.outerRing.value.coordinates.Some?
    {
      ParseRingPositions(Words(Strip(p.polygon.value.outerRing.value.coordinates.value)), parseFloat);
    }
  }

  /** convert_geometry, with its coordinate loop. */
  method ConvertGeometry(p: Placemark, parseFloat: FloatParser) returns (r: Result<Option<Geometry>, GeometryError>)
    ensures r == GeometryOf(p, parseFloat)
  {
    if p.hasPoint || p.hasLineString || p.polygon.None? {
      return Success(None);
    }
    var outer := p.polygon.value.outerRing;
    if outer.None? {
      return Failure(PolygonWithoutOuterRing);
    }
    if outer.value.coordinates.None? {
      return Failure(CoordinatesMissing);
    }
    var coords := ParseCoordinates(outer.value.coordinates.value, parseFloat);
    if coords.Failure? {
      return Failure(coords.error);
    }
    r := Success(Some(Polygon([coords.value])));
  }

  // ---------------------------------------------------------------------------
  // kml_to_geojson
  // ---------------------------------------------------------------------------

  /** The properties of an output feature: the raw name, its fields, the description and colour. */
  datatype Properties = Properties(
    name: string,
    fields: NameFields,
    description: Description,
    color: Option<string>,
    imageNumber: Option<int>)

  datatype Feature = Feature(properties: Properties, geometry: Geometry)

  /** The local im_num: unbound until a placemark with a colour sets it (possibly to None). */
  datatype ImageNumber = Unbound | Bound(value: Option<int>)

  /** Why kml_to_geojson raised, with the position of the placemark it stopped at. */
  datatype KmlError =
    | ImageNumberUnbound(placemarkIndex: nat)   // NameError on the unbound im_num
    | GeometryFailed(placemarkIndex: nat, error: GeometryError)

  /** The text of the name element, as the feature's "name" property keeps it (unstripped). */
  function RawName(p: Placemark): string {
    if p.name.Some? then p.name.value else ""
  }

  /** The parsed name of a placemark that is not skipped for its name. */
  function NamedFields(p: Placemark): Option<NameFields> {
    if p.name.None? || p.name.value == [] then None
    else match ParseName(Strip(p.name.value))
      case Success(f) => Some(f)
      case Failure(_) => None
  }

  /**
   * The readings the loop makes of a placemark: its parsed name (None when it is
   * skipped for its name), its converted geometry, its parsed description and the
   * image number of a colour. The loop below is stated over them; KmlReader
   * supplies parse_name, convert_geometry, parse_description and
   * convert_color_to_im_num.
   */
  datatype PlacemarkReader = PlacemarkReader(
    fields: Placemark -> Option<NameFields>,
    geometry: Placemark -> Result<Option<Geometry>, GeometryError>,
    description: Placemark -> Description,
    imageOfColor: string -> Option<int>)

  function KmlReader(parseFloat: FloatParser): PlacemarkReader {
    PlacemarkReader(NamedFields, p => GeometryOf(p, parseFloat), (p: Placemark) => DescriptionOf(p.description), ColorToImageNumber)
  }

  /** im_num after a placemark that got past the name check. */
  function NextImageNumber(p: Placemark, imageNumber: ImageNumber, reader: PlacemarkReader): ImageNumber {
    if p.color.Some? then Bound(reader.imageOfColor(p.color.value)) else imageNumber
  }

  datatype StepOutcome = StepOutcome(feature: Option<Feature>, imageNumber: ImageNumber)

  /** One iteration of the placemark loop, given the carried im_num. */
  function PlacemarkStep(index: nat, p: Placemark, imageNumber: ImageNumber, reader: PlacemarkReader): Result<StepOutcome, KmlError> {
    match reader.fields(p)
    case None => Success(StepOutcome(None, imageNumber))
    case Some(fields) =>
      var im := NextImageNumber(p, imageNumber, reader);
      if im.Unbound? then Failure(ImageNumberUnbound(index))
      else match reader.geometry(p)
        case Failure(e) => Failure(GeometryFailed(index, e))
        case Success(None) => Success(StepOutcome(None, im))
        case Success(Some(g)) =>
          var props := Properties(RawName(p), fields, reader.description(p), p.color, im.value);
          Success(StepOutcome(Some(Feature(props, g)), im))
  }

  /** The features collected and im_num after the loop has run over the placemarks. */
  datatype KmlState = KmlState(features: seq<Feature>, imageNumber: ImageNumber)

  function RunPlacemarks(ps: seq<Placemark>, reader: PlacemarkReader): Result<KmlState, KmlError>
    decreases |ps|
  {
    if ps == [] then Success(KmlState([], Unbound))
    else
      var st :- RunPlacemarks(ps[..|ps| - 1], reader);
      var out :- PlacemarkStep(|ps| - 1, ps[|ps| - 1], st.imageNumber, reader);
      Success(KmlState(st.features + (if out.feature.Some? then [out.feature.value] else []), out.imageNumber))
  }

  /** The feature list kml_to_geojson writes, or the exception it raises. */
  function KmlToFeatures(ps: seq<Placemark>, parseFloat: FloatParser): Result<seq<Feature>, KmlError> {
    var st :- RunPlacemarks(ps, KmlReader(parseFloat));
    Success(st.features)
  }

  /** kml_to_geojson's loop over the document's placemarks. */
  method KmlToGeoJson(placemarks: seq<Placemark>, parseFloat: FloatParser) returns (r: Result<seq<Feature>, KmlError>)
    ensures r == KmlToFeatures(placemarks, parseFloat)
  {
    var reader := KmlReader(parseFloat);
    var features: seq<Feature> := [];
    var imageNumber := Unbound;
    for i := 0 to |placemarks|
      invariant RunPlacemarks(placemarks[..i], reader) == Success(KmlState(features, imageNumber))
    {
      assert placemarks[..i + 1][..i] == placemarks[..i];
      assert placemarks[..i + 1][i] == placemarks[i];
      var out := ProcessPlacemark(i, placemarks[i], imageNumber, parseFloat);
      if out.Failure? {
        r := Failure(out.error);
        RunPlacemarksFailurePersists(placemarks, i + 1, reader);
        return;
      }
      if out.value.feature.Some? {
        features := features + [out.value.feature.value];
      } else {
        assert features + [] == features;
      }
      imageNumber := out.value.imageNumber;
    }
    assert placemarks[..|placemarks|] == placemarks;
    r := Success(features);
  }

  /** The body of the placemark loop: skip, raise, or build one feature. */
  method ProcessPlacemark(i: nat, p: Placemark, imageNumber: ImageNumber, parseFloat: FloatParser)
    returns (r: Result<StepOutcome, KmlError>)
    ensures r == PlacemarkStep(i, p, imageNumber, KmlReader(parseFloat))
  {
    if p.name.None? || p.name.value == [] {
      return Success(StepOutcome(None, imageNumber));
    }
    var parsed := ParseName(Strip(p.name.value));
    if parsed.Failure? {
      return Success(StepOutcome(None, imageNumber));
    }
    var description := DescriptionOf(p.description);
    var im := imageNumber;
    if p.color.Some? {
      im := Bound(ColorToImageNumber(p.color.value));
    }
    if im.Unbound? {
      return Failure(ImageNumberUnbound(i));
    }
    var geometry := ConvertGeometry(p, parseFloat);
    if geometry.Failure? {
      return Failure(GeometryFailed(i, geometry.error));
    }
    if geometry.value.None? {
      return Success(StepOutcome(None, im));
    }
    var props := Properties(p.name.value, parsed.value, description, p.color, im.value);
    r := Success(StepOutcome(Some(Feature(props, geometry.value.value)), im));
  }

  /** Once the loop has raised, later placemarks do not matter. */
  lemma {:induction false} RunPlacemarksFailurePersists(ps: seq<Placemark>, n: nat, reader: PlacemarkReader)
    requires n <= |ps| && RunPlacemarks(ps[..n], reader).Failure?
    ensures RunPlacemarks(ps, reader) == RunPlacemarks(ps[..n], reader)
    decreases |ps|
  {
    if n < |ps| {
      var init := ps[..|ps| - 1];
      assert init[..n] == ps[..n];
      RunPlacemarksFailurePersists(init, n, reader);
    } else {
      assert ps[..n] == ps;
    }
  }

  // ---------------------------------------------------------------------------
  // What the loop produces
  // ---------------------------------------------------------------------------

  /** A placemark yields a feature: its name parses and it has a supported geometry. */
  predicate Keeps(p: Placemark, reader: PlacemarkReader) {
    reader.fields(p).Some? && reader.geometry(p).Success? && reader.geometry(p).value.Some?
  }

  /** im_num after the placemarks: the colour of the last named placemark that has one. */
  function LastImageNumber(ps: seq<Placemark>, reader: PlacemarkReader): ImageNumber
    decreases |ps|
  {
    if ps == [] then Unbound
    else
      var p := ps[|ps| - 1];
      if reader.fields(p).Some? && p.color.Some? then Bound(reader.imageOfColor(p.color.value))
      else LastImageNumber(ps[..|ps| - 1], reader)
  }

  /** The positions of the placemarks that yield features, in document order. */
  function KeptIndices(ps: seq<Placemark>, reader: PlacemarkReader): (ks: seq<nat>)
    decreases |ps|
  {
    if ps == [] then []
    else
      var init := KeptIndices(ps[..|ps| - 1], reader);
      if Keeps(ps[|ps| - 1], reader) then init + [|ps| - 1] else init
  }

  /** KeptIndices lists every kept placemark, only those, in increasing order. */
  lemma {:induction false} KeptIndicesSpec(ps: seq<Placemark>, reader: PlacemarkReader)
    ensures forall k :: 0 <= k < |KeptIndices(ps, reader)| ==>
      KeptIndices(ps, reader)[k] < |ps| && Keeps(ps[KeptIndices(ps, reader)[k]], reader)
    ensures forall j :: 0 <= j < |ps| && Keeps(ps[j], reader) ==> j in KeptIndices(ps, reader)
    ensures forall a, b :: 0 <= a < b < |KeptIndices(ps, reader)| ==>
      KeptIndices(ps, reader)[a] < KeptIndices(ps, reader)[b]
    decreases |ps|
  {
    if ps != [] {
      var n := |ps| - 1;
      var init := ps[..n];
      KeptIndicesSpec(init, reader);
      var ks := KeptIndices(init, reader);
      assert KeptIndices(ps, reader) == if Keeps(ps[n], reader) then ks + [n] else ks;
      forall k | 0 <= k < |ks|
        ensures ks[k] < n && Keeps(ps[ks[k]], reader)
      {
        assert init[ks[k]] == ps[ks[k]];
      }
      forall j | 0 <= j < n && Keeps(ps[j], reader)
        ensures j in ks
      {
        assert init[j] == ps[j];
      }
    }
  }

  /** The feature placemark i yields when kept, with im_num as it stands after it. */
  function FeatureAt(ps: seq<Placemark>, i: nat, reader: PlacemarkReader): Feature
    requires i < |ps| && Keeps(ps[i], reader)
  {
    var p := ps[i];
    var im := LastImageNumber(ps[..i + 1], reader);
    var props := Properties(RawName(p), reader.fields(p).value, reader.description(p), p.color,
      if im.Bound? then im.value else None);
    Feature(props, reader.geometry(p).value.value)
  }

  /** After a successful run, im_num holds the colour of the last named placemark that had one. */
  lemma {:induction false} RunPlacemarksImageNumber(ps: seq<Placemark>, reader: PlacemarkReader)
    requires RunPlacemarks(ps, reader).Success?
    ensures RunPlacemarks(ps, reader).value.imageNumber == LastImageNumber(ps, reader)
    decreases |ps|
  {
    if ps != [] {
      RunPlacemarksImageNumber(ps[..|ps| - 1], reader);
    }
  }

  /**
   * A successful run keeps exactly the placemarks that have a parsable name and a
   * supported geometry, in document order, each with the im_num carried to it.
   */
  lemma {:induction false} RunPlacemarksSpec(ps: seq<Placemark>, reader: PlacemarkReader)
    requires RunPlacemarks(ps, reader).Success?
    ensures |RunPlacemarks(ps, reader).value.features| == |KeptIndices(ps, reader)|
    ensures forall k :: 0 <= k < |KeptIndices(ps, reader)| ==>
      && KeptIndices(ps, reader)[k] < |ps| && Keeps(ps[KeptIndices(ps, reader)[k]], reader)
      && RunPlacemarks(ps, reader).value.features[k] == FeatureAt(ps, KeptIndices(ps, reader)[k], reader)
    decreases |ps|
  {
    KeptIndicesSpec(ps, reader);
    if ps != [] {
      var n := |ps| - 1;
      var init := ps[..n];
      RunPlacemarksSpec(init, reader);
      RunPlacemarksLast(ps, reader);
      KeptIndicesSpec(init, reader);
      var ks := KeptIndices(init, reader);
      var fs := RunPlacemarks(ps, reader).value.features;
      var before := RunPlacemarks(init, reader).value.features;
      assert KeptIndices(ps, reader) == if Keeps(ps[n], reader) then ks + [n] else ks;
      forall k | 0 <= k < |KeptIndices(ps, reader)|
        ensures fs[k] == FeatureAt(ps, KeptIndices(ps, reader)[k], reader)
      {
        if k < |ks| {
          FeatureAtPrefix(ps, n, ks[k], reader);
        }
      }
    }
  }

  /** The feature of a placemark depends only on the placemarks up to it. */
  lemma FeatureAtPrefix(ps: seq<Placemark>, m: nat, i: nat, reader: PlacemarkReader)
    requires i < m <= |ps| && Keeps(ps[i], reader)
    ensures FeatureAt(ps[..m], i, reader) == FeatureAt(ps, i, reader)
  {
    assert ps[..m][..i + 1] == ps[..i + 1];
  }

  /** The last placemark adds its feature, built with the im_num after it, exactly when it is kept. */
  lemma RunPlacemarksLast(ps: seq<Placemark>, reader: PlacemarkReader)
    requires ps != [] && RunPlacemarks(ps, reader).Success?
    ensures RunPlacemarks(ps[..|ps| - 1], reader).Success?
    ensures RunPlacemarks(ps, reader).value.features == RunPlacemarks(ps[..|ps| - 1], reader).value.features
      + if Keeps(ps[|ps| - 1], reader) then [FeatureAt(ps, |ps| - 1, reader)] else []
  {
    var n := |ps| - 1;
    var init := ps[..n];
    var st := RunPlacemarks(init, reader).value;
    RunPlacemarksImageNumber(init, reader);
    assert ps[..n + 1] == ps;
    var out := PlacemarkStep(n, ps[n], st.imageNumber, reader);
    if Keeps(ps[n], reader) {
      assert out.Success? && out.value.feature == Some(FeatureAt(ps, n, reader));
    }
  }

  /** Every kept feature of a placemark without a description has certainty 5 and no explanation. */
  lemma MissingDescriptionDefault(ps: seq<Placemark>, parseFloat: FloatParser, k: nat)
    requires RunPlacemarks(ps, KmlReader(parseFloat)).Success?
    requires k < |KeptIndices(ps, KmlReader(parseFloat))|
    requires KeptIndices(ps, KmlReader(parseFloat))[k] < |ps|
    requires var p := ps[KeptIndices(ps, KmlReader(parseFloat))[k]]; p.description.None? || p.description.value == []
    ensures k < |RunPlacemarks(ps, KmlReader(parseFloat)).value.features|
    ensures RunPlacemarks(ps, KmlReader(parseFloat)).value.features[k].properties.description == Description(5, "")
  {
    RunPlacemarksSpec(ps, KmlReader(parseFloat));
  }

  /**
   * The loop raises NameError at placemark i only when i is named, has no colour,
   * and no earlier named placemark had one.
   */
  lemma {:induction false} ImageNumberUnboundWhen(ps: seq<Placemark>, reader: PlacemarkReader, i: nat)
    requires RunPlacemarks(ps, reader) == Failure(ImageNumberUnbound(i))
    ensures i < |ps| && reader.fields(ps[i]).Some? && ps[i].color.None?
    ensures LastImageNumber(ps[..i], reader) == Unbound && RunPlacemarks(ps[..i], reader).Success?
    decreases |ps|
  {
    var init := ps[..|ps| - 1];
    if RunPlacemarks(init, reader).Failure? {
      ImageNumberUnboundWhen(init, reader, i);
      assert init[..i] == ps[..i];
    } else {
      RunPlacemarksImageNumber(init, reader);
    }
  }

  /** Conversely, such a placemark reached without an earlier failure raises NameError. */
  lemma ImageNumberUnboundIf(ps: seq<Placemark>, reader: PlacemarkReader, i: nat)
    requires i < |ps| && reader.fields(ps[i]).Some? && ps[i].color.None?
    requires LastImageNumber(ps[..i], reader) == Unbound && RunPlacemarks(ps[..i], reader).Success?
    ensures RunPlacemarks(ps, reader) == Failure(ImageNumberUnbound(i))
  {
    RunPlacemarksImageNumber(ps[..i], reader);
    var pre := ps[..i + 1];
    assert pre[..i] == ps[..i];
    RunPlacemarksFailurePersists(ps, i + 1, reader);
  }
}

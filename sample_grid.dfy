/**
 * The formatting sample_grid applies to a sample of the agricultural grid
 * (src/sampling/sample_grid.py) before it is saved for Collect. The random draw of
 * num_samples rows is not modelled: the drawn rows are the input.
 */
module SampleGrid {
  import opened Wrappers
  import opened Frames

  datatype FrameError =
    | MissingColumn(name: string)      // KeyError
    | NonNumericValue                  // TypeError comparing a text cell with the threshold
    | DuplicateColumn(name: string)    // a rename onto a name that is already a column
    | IdExists                         // ValueError from insert

  const TopographicColumns: seq<string> := ["elevation", "slope", "aspect"]

  /** Every cell is a number. */
  predicate AllNumeric(cells: seq<Cell>) {
    forall i :: 0 <= i < |cells| ==> cells[i].Num?
  }

  /** Which sampled rows have a value above the threshold. */
  function AboveThreshold(values: seq<Cell>, agThresh: real): (mask: seq<bool>)
    ensures |mask| == |values|
  {
    seq(|values|, i requires 0 <= i < |values| => values[i].Num? && values[i].x > agThresh)
  }

  /** The renames that make the coordinates Collect's: latitude becomes YCoordinate, longitude XCoordinate. */
  function RenameCoordinates(t: Table): (r: Result<Table, FrameError>)
    requires Valid(t)
    ensures r.Success? ==> Valid(r.value) && r.value.height == t.height
  {
    if "latitude" in t.columns && "YCoordinate" in t.columns then Failure(DuplicateColumn("YCoordinate"))
    else
      var y := RenameColumn(t, "latitude", "YCoordinate");
      if "longitude" in y.columns && "XCoordinate" in y.columns then Failure(DuplicateColumn("XCoordinate"))
      else Success(RenameColumn(y, "longitude", "XCoordinate"))
  }

  /** The three topographic columns, set to zero on every row. */
  function AddTopography(t: Table): (r: Table)
    requires Valid(t)
    ensures Valid(r) && r.height == t.height
  {
    var e := Assign(t, "elevation", Zeros(t.height));
    var s := Assign(e, "slope", Zeros(t.height));
    Assign(s, "aspect", Zeros(t.height))
  }

  /** The topographic columns are zero; every other column keeps its place and its cells. */
  lemma AddTopographySpec(t: Table)
    requires Valid(t)
    ensures var r := AddTopography(t);
      && (forall c <- TopographicColumns :: c in r.columns && r.data[c] == Zeros(t.height))
      && (forall c <- t.columns :: c !in TopographicColumns ==> c in r.columns && r.data[c] == t.data[c])
      && |r.columns| >= |t.columns| && (forall k :: 0 <= k < |t.columns| ==> r.columns[k] == t.columns[k])
  {
    var e := Assign(t, "elevation", Zeros(t.height));
    var s := Assign(e, "slope", Zeros(t.height));
    var a := Assign(s, "aspect", Zeros(t.height));
    assert AddTopography(t) == a;
    AssignKeepsOrder(t, "elevation", Zeros(t.height));
    AssignKeepsOrder(e, "slope", Zeros(t.height));
    AssignKeepsOrder(s, "aspect", Zeros(t.height));
    TopographyCells(t, e, s, a);
  }

  /** Three assignments of zeros in a row: each named column holds zeros, the others their cells. */
  lemma TopographyCells(t: Table, e: Table, s: Table, a: Table)
    requires Valid(t) && Valid(e) && Valid(s) && Valid(a)
    requires "elevation" in e.columns && "slope" in s.columns && "aspect" in a.columns
    requires forall c <- t.columns :: c in e.columns
    requires forall c <- e.columns :: c in s.columns
    requires forall c <- s.columns :: c in a.columns
    requires e.data["elevation"] == Zeros(t.height) && forall c <- t.columns :: c != "elevation" ==> e.data[c] == t.data[c]
    requires s.data["slope"] == Zeros(t.height) && forall c <- e.columns :: c != "slope" ==> s.data[c] == e.data[c]
    requires a.data["aspect"] == Zeros(t.height) && forall c <- s.columns :: c != "aspect" ==> a.data[c] == s.data[c]
    ensures forall c <- TopographicColumns :: c in a.columns && a.data[c] == Zeros(t.height)
    ensures forall c <- t.columns :: c !in TopographicColumns ==> c in a.columns && a.data[c] == t.data[c]
  {
    assert "elevation"[0] != "slope"[0] && "elevation"[0] != "aspect"[0] && "slope"[0] != "aspect"[0];
  }

  lemma AssignKeepsOrder(t: Table, name: string, cells: seq<Cell>)
    requires Valid(t) && |cells| == t.height
    ensures var r := Assign(t, name, cells);
      && name in r.columns
      && |r.columns| >= |t.columns| && (forall k :: 0 <= k < |t.columns| ==> r.columns[k] == t.columns[k])
  {
  }

  /**
   * sample_grid after the draw: keep the rows whose value is above agThresh, drop
   * value, rename the coordinates, insert "id_1".."id_n" first and add the
   * topographic columns.
   */
  function FormatSamples(samples: Table, agThresh: real): (r: Result<Table, FrameError>)
    requires Valid(samples)
    ensures "value" !in samples.columns ==> r == Failure(MissingColumn("value"))
    ensures r.Success? ==> Valid(r.value)
  {
    if "value" !in samples.columns then Failure(MissingColumn("value"))
    else if !AllNumeric(samples.data["value"]) then Failure(NonNumericValue)
    else
      var kept := SelectRows(samples, AboveThreshold(samples.data["value"], agThresh));
      var dropped := DropColumn(kept, "value");
      match RenameCoordinates(dropped)
      case Failure(e) => Failure(e)
      case Success(renamed) =>
        if "id" in renamed.columns then Failure(IdExists)
        else Success(AddTopography(InsertFirst(renamed, "id", IdColumn(1, renamed.height))))
  }

  /** The renames succeed when neither target name is taken, and then move the coordinate columns. */
  lemma RenameCoordinatesSpec(t: Table)
    requires Valid(t) && "YCoordinate" !in t.columns && "XCoordinate" !in t.columns
    ensures var r := RenameCoordinates(t);
      && r.Success?
      && "latitude" !in r.value.columns && "longitude" !in r.value.columns
      && ("latitude" in t.columns ==> "YCoordinate" in r.value.columns && r.value.data["YCoordinate"] == t.data["latitude"])
      && ("longitude" in t.columns ==> "XCoordinate" in r.value.columns && r.value.data["XCoordinate"] == t.data["longitude"])
      && (forall c <- t.columns :: c != "latitude" && c != "longitude" ==> c in r.value.columns && r.value.data[c] == t.data[c])
      && (forall c <- r.value.columns :: c in t.columns || c == "YCoordinate" || c == "XCoordinate")
  {
  }

  /** Selecting the rows and dropping value: the other columns, in order, with the kept rows' cells. */
  lemma KeptRowsSpec(samples: Table, mask: seq<bool>)
    requires Valid(samples) && "value" in samples.columns && |mask| == samples.height
    ensures var d := DropColumn(SelectRows(samples, mask), "value");
      && d.height == Count(mask)
      && (forall c :: c in d.columns <==> c in samples.columns && c != "value")
      && (forall c <- d.columns :: d.data[c] == Keep(samples.data[c], mask))
  {
  }

  /** Inserting the ids and adding the topography: id first, then the renamed columns' cells. */
  lemma FinishSpec(renamed: Table)
    requires Valid(renamed) && "id" !in renamed.columns
    ensures var r := AddTopography(InsertFirst(renamed, "id", IdColumn(1, renamed.height)));
      && r.height == renamed.height
      && r.columns[0] == "id" && r.data["id"] == IdColumn(1, renamed.height)
      && (forall c <- TopographicColumns :: c in r.columns && r.data[c] == Zeros(renamed.height))
      && (forall c <- renamed.columns :: c !in TopographicColumns ==> c in r.columns && r.data[c] == renamed.data[c])
      && (forall c <- r.columns :: c in renamed.columns || c == "id" || c in TopographicColumns)
  {
    var withId := InsertFirst(renamed, "id", IdColumn(1, renamed.height));
    AddTopographySpec(withId);
    assert withId.columns[0] == "id";
    assert "id" !in TopographicColumns;
    var r := AddTopography(withId);
    assert forall c <- r.columns :: c in withId.columns || c in TopographicColumns by {
      var e := Assign(withId, "elevation", Zeros(withId.height));
      var s := Assign(e, "slope", Zeros(withId.height));
      assert r == Assign(s, "aspect", Zeros(withId.height));
    }
  }

  /**
   * With a numeric value column and no clash of names, the result has id first
   * holding "id_1".."id_n" over the n rows above the threshold (at most as many
   * as were drawn), zero topography, and no value, latitude or longitude column.
   */
  lemma FormatSamplesShape(samples: Table, agThresh: real)
    requires Valid(samples) && "value" in samples.columns
    requires AllNumeric(samples.data["value"])
    requires "id" !in samples.columns && "YCoordinate" !in samples.columns && "XCoordinate" !in samples.columns
    ensures var mask := AboveThreshold(samples.data["value"], agThresh);
      var r := FormatSamples(samples, agThresh);
      && r.Success?
      && r.value.height == Count(mask) <= samples.height
      && r.value.columns[0] == "id" && HasColumn(r.value, "id", IdColumn(1, Count(mask)))
      && (forall c <- TopographicColumns :: HasColumn(r.value, c, Zeros(Count(mask))))
      && "value" !in r.value.columns && "latitude" !in r.value.columns && "longitude" !in r.value.columns
  {
    var mask := AboveThreshold(samples.data["value"], agThresh);
    var dropped := DropColumn(SelectRows(samples, mask), "value");
    KeptRowsSpec(samples, mask);
    FormatSamplesSteps(samples, agThresh);
    RenameFinishShape(dropped);
    assert "value"[0] != "id"[0] && "value"[0] != "YCoordinate"[0] && "value"[0] != "XCoordinate"[0];
    assert "value" !in TopographicColumns;
  }

  /** The renames, the id insert and the topography: id first, zero topography, no coordinate under its old name. */
  lemma RenameFinishShape(dropped: Table)
    requires Valid(dropped) && "id" !in dropped.columns && "YCoordinate" !in dropped.columns && "XCoordinate" !in dropped.columns
    ensures RenameCoordinates(dropped).Success?
    ensures var renamed := RenameCoordinates(dropped).value;
      var r := AddTopography(InsertFirst(renamed, "id", IdColumn(1, renamed.height)));
      && r.height == dropped.height
      && r.columns[0] == "id" && HasColumn(r, "id", IdColumn(1, dropped.height))
      && (forall c <- TopographicColumns :: HasColumn(r, c, Zeros(dropped.height)))
      && "latitude" !in r.columns && "longitude" !in r.columns
      && (forall c <- r.columns :: c in dropped.columns || c == "id" || c == "YCoordinate" || c == "XCoordinate" || c in TopographicColumns)
  {
    RenamedHasNoId(dropped);
    RenameCoordinatesSpec(dropped);
    var renamed := RenameCoordinates(dropped).value;
    FinishSpec(renamed);
    NamesChain(dropped.columns, renamed.columns, AddTopography(InsertFirst(renamed, "id", IdColumn(1, renamed.height))).columns);
  }

  /** Where the names come from after the renames and the finish, and that the old coordinate names are gone. */
  lemma NamesChain(dropped: seq<string>, renamed: seq<string>, finished: seq<string>)
    requires "latitude" !in renamed && "longitude" !in renamed
    requires forall c <- renamed :: c in dropped || c == "YCoordinate" || c == "XCoordinate"
    requires forall c <- finished :: c in renamed || c == "id" || c in TopographicColumns
    ensures "latitude" !in finished && "longitude" !in finished
    ensures forall c <- finished :: c in dropped || c == "id" || c == "YCoordinate" || c == "XCoordinate" || c in TopographicColumns
  {
    assert "latitude"[0] != "id"[0] && "longitude"[0] != "id"[0];
    assert "latitude" !in TopographicColumns && "longitude" !in TopographicColumns;
  }

  /** After the renames, the id insert and the topography, latitude and longitude hold their cells under the new names. */
  lemma RenameFinishCoordinates(dropped: Table)
    requires Valid(dropped) && "id" !in dropped.columns && "YCoordinate" !in dropped.columns && "XCoordinate" !in dropped.columns
    ensures RenameCoordinates(dropped).Success?
    ensures var renamed := RenameCoordinates(dropped).value;
      var r := AddTopography(InsertFirst(renamed, "id", IdColumn(1, renamed.height)));
      && ("latitude" in dropped.columns ==> HasColumn(r, "YCoordinate", dropped.data["latitude"]))
      && ("longitude" in dropped.columns ==> HasColumn(r, "XCoordinate", dropped.data["longitude"]))
  {
    RenamedHasNoId(dropped);
    RenameCoordinatesSpec(dropped);
    var renamed := RenameCoordinates(dropped).value;
    FinishSpec(renamed);
    var r := AddTopography(InsertFirst(renamed, "id", IdColumn(1, renamed.height)));
    CarryColumn(dropped, renamed, r, "latitude", "YCoordinate");
    CarryColumn(dropped, renamed, r, "longitude", "XCoordinate");
  }

  /** A column the renames move to `to`, which the finish leaves alone, ends up under `to`. */
  lemma CarryColumn(dropped: Table, renamed: Table, r: Table, from: string, to: string)
    requires to == "YCoordinate" || to == "XCoordinate"
    requires from in dropped.columns && from in dropped.data ==> HasColumn(renamed, to, dropped.data[from])
    requires forall c <- renamed.columns :: c !in TopographicColumns && c in renamed.data ==> HasColumn(r, c, renamed.data[c])
    ensures from in dropped.columns && from in dropped.data ==> HasColumn(r, to, dropped.data[from])
  {
    assert to !in TopographicColumns;
  }

  /** After the renames, the id insert and the topography, the other columns hold their cells under their own names. */
  lemma RenameFinishOthers(dropped: Table)
    requires Valid(dropped) && "id" !in dropped.columns && "YCoordinate" !in dropped.columns && "XCoordinate" !in dropped.columns
    ensures RenameCoordinates(dropped).Success?
    ensures var renamed := RenameCoordinates(dropped).value;
      var r := AddTopography(InsertFirst(renamed, "id", IdColumn(1, renamed.height)));
      forall c <- dropped.columns ::
        c != "latitude" && c != "longitude" && c !in TopographicColumns ==> HasColumn(r, c, dropped.data[c])
  {
    RenamedHasNoId(dropped);
    RenameCoordinatesSpec(dropped);
    var renamed := RenameCoordinates(dropped).value;
    FinishSpec(renamed);
    var r := AddTopography(InsertFirst(renamed, "id", IdColumn(1, renamed.height)));
    forall c <- dropped.columns | c != "latitude" && c != "longitude" && c !in TopographicColumns
      ensures HasColumn(r, c, dropped.data[c])
    {
      assert c in renamed.columns && renamed.data[c] == dropped.data[c];
    }
  }

  /**
   * Under the same conditions every column other than value and the topography
   * holds the cells of the kept rows, in row order: latitude and longitude under
   * their new names, the others under their own.
   */
  lemma FormatSamplesCells(samples: Table, agThresh: real)
    requires Valid(samples) && "value" in samples.columns
    requires AllNumeric(samples.data["value"])
    requires "id" !in samples.columns && "YCoordinate" !in samples.columns && "XCoordinate" !in samples.columns
    ensures var mask := AboveThreshold(samples.data["value"], agThresh);
      var r := FormatSamples(samples, agThresh);
      && r.Success?
      && ("latitude" in samples.columns ==> HasColumn(r.value, "YCoordinate", Keep(samples.data["latitude"], mask)))
      && ("longitude" in samples.columns ==> HasColumn(r.value, "XCoordinate", Keep(samples.data["longitude"], mask)))
      && (forall c <- samples.columns ::
            c != "value" && c != "latitude" && c != "longitude" && c !in TopographicColumns ==>
              HasColumn(r.value, c, Keep(samples.data[c], mask)))
  {
    var mask := AboveThreshold(samples.data["value"], agThresh);
    var dropped := DropColumn(SelectRows(samples, mask), "value");
    KeptRowsSpec(samples, mask);
    FormatSamplesSteps(samples, agThresh);
    RenameFinishCoordinates(dropped);
    RenameFinishOthers(dropped);
    assert "latitude" != "value" && "longitude" != "value";
  }

  /** Without an error the result is the pipeline of the frame operations, step by step. */
  lemma FormatSamplesSteps(samples: Table, agThresh: real)
    requires Valid(samples) && "value" in samples.columns
    requires AllNumeric(samples.data["value"])
    requires "id" !in samples.columns && "YCoordinate" !in samples.columns && "XCoordinate" !in samples.columns
    ensures var dropped := DropColumn(SelectRows(samples, AboveThreshold(samples.data["value"], agThresh)), "value");
      && RenameCoordinates(dropped).Success?
      && "id" !in RenameCoordinates(dropped).value.columns
      && var renamed := RenameCoordinates(dropped).value;
      FormatSamples(samples, agThresh) == Success(AddTopography(InsertFirst(renamed, "id", IdColumn(1, renamed.height))))
  {
    var mask := AboveThreshold(samples.data["value"], agThresh);
    var dropped := DropColumn(SelectRows(samples, mask), "value");
    KeptRowsSpec(samples, mask);
    RenamedHasNoId(dropped);
    FormatSamplesUnfold(samples, agThresh);
  }

  lemma RenamedHasNoId(dropped: Table)
    requires Valid(dropped) && "id" !in dropped.columns && "YCoordinate" !in dropped.columns && "XCoordinate" !in dropped.columns
    ensures RenameCoordinates(dropped).Success? && "id" !in RenameCoordinates(dropped).value.columns
  {
    RenameCoordinatesSpec(dropped);
    assert "id"[0] != "YCoordinate"[0] && "id"[0] != "XCoordinate"[0];
  }

  lemma FormatSamplesUnfold(samples: Table, agThresh: real)
    requires Valid(samples) && "value" in samples.columns
    requires AllNumeric(samples.data["value"])
    requires var dropped := DropColumn(SelectRows(samples, AboveThreshold(samples.data["value"], agThresh)), "value");
      RenameCoordinates(dropped).Success? && "id" !in RenameCoordinates(dropped).value.columns
    ensures var dropped := DropColumn(SelectRows(samples, AboveThreshold(samples.data["value"], agThresh)), "value");
      var renamed := RenameCoordinates(dropped).value;
      FormatSamples(samples, agThresh) == Success(AddTopography(InsertFirst(renamed, "id", IdColumn(1, renamed.height))))
  {
  }

  /** Text in the value column raises, whatever the threshold. */
  lemma FormatSamplesNonNumeric(samples: Table, agThresh: real, i: nat)
    requires Valid(samples) && "value" in samples.columns
    requires i < samples.height && samples.data["value"][i].Str?
    ensures FormatSamples(samples, agThresh) == Failure(NonNumericValue)
  {
  }

  /** An id column in the sample makes the insert raise. */
  lemma FormatSamplesIdExists(samples: Table, agThresh: real)
    requires Valid(samples) && "value" in samples.columns && "id" in samples.columns
    requires AllNumeric(samples.data["value"])
    requires "YCoordinate" !in samples.columns && "XCoordinate" !in samples.columns
    ensures FormatSamples(samples, agThresh) == Failure(IdExists)
  {
    var mask := AboveThreshold(samples.data["value"], agThresh);
    var dropped := DropColumn(SelectRows(samples, mask), "value");
    KeptRowsSpec(samples, mask);
    RenameCoordinatesSpec(dropped);
    assert "id" in RenameCoordinates(dropped).value.columns;
  }
}

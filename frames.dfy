/**
 * The part of a pandas DataFrame the sampling scripts rely on: named columns in
 * order, one column of cells per name, and a row count. `Table` is a frame as a
 * value; `DataFrame` is a frame that a caller shares and a function changes in place.
 */
module Frames {
  import opened Wrappers
  import opened Text

  datatype Cell = Str(s: string) | Num(x: real)

  datatype Table = Table(columns: seq<string>, data: map<string, seq<Cell>>, height: nat)

  predicate Distinct(names: seq<string>) {
    forall i, j :: 0 <= i < j < |names| ==> names[i] != names[j]
  }

  /** Column names are unique, every named column has data, and every column is `height` long. */
  ghost predicate Valid(t: Table) {
    && Distinct(t.columns)
    && (forall c :: c in t.data <==> c in t.columns)
    && (forall c :: c in t.data ==> |t.data[c]| == t.height)
  }

  /** The frame has a column `name` holding exactly `cells`. */
  predicate HasColumn(t: Table, name: string, cells: seq<Cell>) {
    name in t.columns && name in t.data && t.data[name] == cells
  }

  /** The names other than `name`, in their order. */
  function Without(names: seq<string>, name: string): (r: seq<string>)
    ensures forall n :: n in r <==> n in names && n != name
    ensures Distinct(names) ==> Distinct(r)
    ensures |r| <= |names|
  {
    if names == [] then []
    else
      var rest := Without(names[1..], name);
      assert forall n :: n in names <==> n == names[0] || n in names[1..];
      if names[0] == name then rest
      else
        assert Distinct(names) ==> names[0] !in names[1..];
        [names[0]] + rest
  }

  /** Appending another name appends it to the result. */
  lemma {:induction false} WithoutAppend(names: seq<string>, name: string, other: string)
    requires other != name
    ensures Without(names + [other], name) == Without(names, name) + [other]
    decreases |names|
  {
    if names == [] {
      assert [other][1..] == [];
    } else {
      WithoutAppend(names[1..], name, other);
      assert (names + [other])[1..] == names[1..] + [other];
    }
  }

  /** Appending the removed name changes nothing. */
  lemma {:induction false} WithoutAppendSelf(names: seq<string>, name: string)
    ensures Without(names + [name], name) == Without(names, name)
    decreases |names|
  {
    if names == [] {
      assert [name][1..] == [];
    } else {
      WithoutAppendSelf(names[1..], name);
      assert (names + [name])[1..] == names[1..] + [name];
    }
  }

  /** A name that is not there is not removed. */
  lemma {:induction false} WithoutAbsent(names: seq<string>, name: string)
    requires name !in names
    ensures Without(names, name) == names
    decreases |names|
  {
    if names != [] {
      assert names[0] != name;
      assert name !in names[1..];
      WithoutAbsent(names[1..], name);
    }
  }

  /** How many rows a mask keeps. */
  function Count(mask: seq<bool>): (n: nat)
    ensures n <= |mask|
  {
    if mask == [] then 0 else Count(mask[..|mask| - 1]) + (if mask[|mask| - 1] then 1 else 0)
  }

  /** The cells of the rows the mask keeps, in row order. */
  function Keep<T>(cells: seq<T>, mask: seq<bool>): (r: seq<T>)
    requires |mask| == |cells|
    ensures |r| == Count(mask)
  {
    if cells == [] then []
    else
      var init := Keep(cells[..|cells| - 1], mask[..|mask| - 1]);
      if mask[|mask| - 1] then init + [cells[|cells| - 1]] else init
  }

  /** Every kept cell comes from the column, and a mask that keeps everything keeps the column as it is. */
  lemma {:induction false} KeepSpec<T>(cells: seq<T>, mask: seq<bool>)
    requires |mask| == |cells|
    ensures forall x <- Keep(cells, mask) :: x in cells
    ensures (forall k :: 0 <= k < |mask| ==> mask[k]) ==> Keep(cells, mask) == cells
    ensures (forall k :: 0 <= k < |mask| ==> !mask[k]) ==> Keep(cells, mask) == []
    decreases |cells|
  {
    if cells != [] {
      var init := cells[..|cells| - 1];
      KeepSpec(init, mask[..|mask| - 1]);
      assert forall x <- init :: x in cells;
      assert init + [cells[|cells| - 1]] == cells;
    }
  }

  /** The rows the mask keeps, in order, in every column. */
  function SelectRows(t: Table, mask: seq<bool>): (r: Table)
    requires Valid(t) && |mask| == t.height
    ensures Valid(r) && r.columns == t.columns && r.height == Count(mask)
    ensures forall c <- t.columns :: r.data[c] == Keep(t.data[c], mask)
  {
    Table(t.columns, map c | c in t.data :: Keep(t.data[c], mask), Count(mask))
  }

  /** drop(columns=[name]) of a present column. */
  function DropColumn(t: Table, name: string): (r: Table)
    requires Valid(t) && name in t.columns
    ensures Valid(r) && r.height == t.height
    ensures forall c :: c in r.columns <==> c in t.columns && c != name
    ensures forall c <- r.columns :: r.data[c] == t.data[c]
  {
    Table(Without(t.columns, name), t.data - {name}, t.height)
  }

  /** rename(columns={from: to}): a missing `from` is ignored. */
  function RenameColumn(t: Table, from: string, to: string): (r: Table)
    requires Valid(t) && (from in t.columns ==> to !in t.columns || to == from)
    ensures Valid(r) && r.height == t.height && |r.columns| == |t.columns|
    ensures from in t.columns ==> to in r.columns && r.data[to] == t.data[from]
    ensures forall c <- t.columns :: c != from ==> c in r.columns && r.data[c] == t.data[c]
    ensures forall c <- r.columns :: c in t.columns || (c == to && from in t.columns)
  {
    if from !in t.columns || from == to then t
    else
      var columns := seq(|t.columns|, i requires 0 <= i < |t.columns| => if t.columns[i] == from then to else t.columns[i]);
      var r := Table(columns, (t.data - {from})[to := t.data[from]], t.height);
      assert forall c :: c in columns <==> (c in t.columns && c != from) || c == to by {
        forall c | c in t.columns && c != from
          ensures c in columns
        {
          var i :| 0 <= i < |t.columns| && t.columns[i] == c;
          assert columns[i] == c;
        }
        var k :| 0 <= k < |t.columns| && t.columns[k] == from;
        assert columns[k] == to;
      }
      r
  }

  /** insert(0, name, cells): a new first column; an existing name raises. */
  function InsertFirst(t: Table, name: string, cells: seq<Cell>): (r: Table)
    requires Valid(t) && name !in t.columns && |cells| == t.height
    ensures Valid(r) && r.height == t.height
    ensures r.columns == [name] + t.columns
    ensures r.data[name] == cells && forall c <- t.columns :: r.data[c] == t.data[c]
  {
    Table([name] + t.columns, t.data[name := cells], t.height)
  }

  /** df[name] = cells: an existing column is overwritten where it stands, a new one goes last. */
  function Assign(t: Table, name: string, cells: seq<Cell>): (r: Table)
    requires Valid(t) && |cells| == t.height
    ensures Valid(r) && r.height == t.height
    ensures name in t.columns ==> r.columns == t.columns
    ensures name !in t.columns ==> r.columns == t.columns + [name]
    ensures r.data[name] == cells && forall c <- t.columns :: c != name ==> r.data[c] == t.data[c]
  {
    Table(if name in t.columns then t.columns else t.columns + [name], t.data[name := cells], t.height)
  }

  /** "id_<first>", "id_<first + 1>", ...: n row identifiers. */
  function IdColumn(first: nat, n: nat): (cells: seq<Cell>)
    ensures |cells| == n
  {
    seq(n, i requires 0 <= i < n => Str("id_" + NatToString(first + i)))
  }

  /** The identifiers are unique, and the text after "id_" reads back as the row's number. */
  lemma IdColumnSpec(first: nat, n: nat)
    ensures forall i, j :: 0 <= i < j < n ==> IdColumn(first, n)[i] != IdColumn(first, n)[j]
    ensures forall i :: 0 <= i < n ==> ParseInt(IdColumn(first, n)[i].s[3..]) == Some(first + i)
  {
    var ids := IdColumn(first, n);
    forall i | 0 <= i < n
      ensures ParseInt(ids[i].s[3..]) == Some(first + i)
    {
      assert ids[i].s[3..] == NatToString(first + i);
      assert NatToString(first + i) == IntToString(first + i);
      ParseIntOfIntToString(first + i);
    }
    forall i, j | 0 <= i < j < n
      ensures ids[i] != ids[j]
    {
    }
  }

  /** A column of zeros. */
  function Zeros(n: nat): (cells: seq<Cell>)
    ensures |cells| == n && forall c <- cells :: c == Num(0.0)
  {
    seq(n, i requires 0 <= i < n => Num(0.0))
  }

  /** A frame shared with the caller: assignments to its columns are seen by every holder. */
  class DataFrame {
    var columns: seq<string>
    var data: map<string, seq<Cell>>
    var height: nat

    function AsTable(): Table
      reads this
    {
      Table(columns, data, height)
    }

    constructor (t: Table)
      ensures AsTable() == t
    {
      columns := t.columns;
      data := t.data;
      height := t.height;
    }
  }
}

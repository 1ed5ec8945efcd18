/**
 * The UTM zone arithmetic of get_utm_crs and the identifier column of add_id
 * (src/sampling/make_grid.py). Longitudes and latitudes are reals: the rounding
 * of the floating-point division is not modelled.
 */
module MakeGrid {
  import opened Frames

  // ---------------------------------------------------------------------------
  // get_utm_crs
  // ---------------------------------------------------------------------------

  /** Python's int() on a float: the integer part, truncated toward zero. */
  function Truncate(x: real): (r: int)
    ensures x >= 0.0 ==> r as real <= x < r as real + 1.0
    ensures x < 0.0 ==> r as real - 1.0 < x <= r as real
  {
    if x >= 0.0 then x.Floor else -((-x).Floor)
  }

  /** The zone as written: int((lon + 180) / 6) + 1. */
  function UtmZoneAsWritten(lon: real): int {
    Truncate((lon + 180.0) / 6.0) + 1
  }

  /** From -180 on, the zone is the 6-degree band that holds the longitude. */
  lemma UtmZoneBand(lon: real)
    requires lon >= -180.0
    ensures var z := UtmZoneAsWritten(lon);
      -180.0 + 6.0 * (z - 1) as real <= lon < -180.0 + 6.0 * z as real
  {
  }

  /** On [-180, 180) the zone lies in 1..60. */
  lemma UtmZoneAsWrittenRange(lon: real)
    requires -180.0 <= lon < 180.0
    ensures 1 <= UtmZoneAsWritten(lon) <= 60
  {
    UtmZoneBand(lon);
  }

  /** Truncation, not flooring: just west of -180 the quotient is above -1 and the zone is 1, not 0. */
  lemma UtmZoneTruncates()
    ensures UtmZoneAsWritten(-183.0) == 1
  {
  }

  /** Longitude 180 gets zone 61, whose northern code 32661 is not a UTM zone. */
  lemma UtmZoneAsWrittenAt180()
    ensures UtmZoneAsWritten(180.0) == 61
    ensures UtmEpsg(180.0, 0.0) == 32661
  {
  }

  /**
   * The corrected zone: the truncated zone index taken mod 60, so that 180 is
   * zone 1 like -180. On [-180, 180) it is the written zone; west of -180 it is
   * not the geographic zone either (-183 gives 1), since truncation is kept.
   */
  function UtmZone(lon: real): (zone: int)
    ensures 1 <= zone <= 60
  {
    Truncate((lon + 180.0) / 6.0) % 60 + 1
  }

  /** The corrected zone agrees with the written one on [-180, 180) and gives 180 the zone of -180. */
  lemma UtmZoneAgrees(lon: real)
    ensures -180.0 <= lon < 180.0 ==> UtmZone(lon) == UtmZoneAsWritten(lon)
    ensures UtmZone(180.0) == UtmZone(-180.0) == 1
  {
    if -180.0 <= lon < 180.0 {
      UtmZoneBand(lon);
    }
  }

  /** The hemisphere base of the EPSG code: 32600 in the north (the equator included), 32700 in the south. */
  function EpsgBase(lat: real): int {
    if lat >= 0.0 then 32600 else 32700
  }

  /** get_utm_crs as written: the EPSG code of the zone int((lon + 180) / 6) + 1. */
  function UtmEpsg(lon: real, lat: real): int {
    EpsgBase(lat) + UtmZoneAsWritten(lon)
  }

  /**
   * For longitudes in [-180, 180) the code is a UTM code: 32601..32660 in the
   * northern hemisphere, 32701..32760 in the southern, ending in the zone.
   */
  lemma UtmEpsgRange(lon: real, lat: real)
    requires -180.0 <= lon < 180.0
    ensures lat >= 0.0 ==> 32601 <= UtmEpsg(lon, lat) <= 32660
    ensures lat < 0.0 ==> 32701 <= UtmEpsg(lon, lat) <= 32760
    ensures UtmEpsg(lon, lat) % 100 == UtmZoneAsWritten(lon)
  {
    UtmZoneAsWrittenRange(lon);
  }

  /** The code of the corrected zone. */
  function UtmEpsgCorrected(lon: real, lat: real): int {
    EpsgBase(lat) + UtmZone(lon)
  }

  /** The corrected code is a UTM code for every longitude, and it is the written one on [-180, 180). */
  lemma UtmEpsgCorrectedRange(lon: real, lat: real)
    ensures lat >= 0.0 ==> 32601 <= UtmEpsgCorrected(lon, lat) <= 32660
    ensures lat < 0.0 ==> 32701 <= UtmEpsgCorrected(lon, lat) <= 32760
    ensures UtmEpsgCorrected(lon, lat) % 100 == UtmZone(lon)
    ensures -180.0 <= lon < 180.0 ==> UtmEpsgCorrected(lon, lat) == UtmEpsg(lon, lat)
  {
    UtmZoneAgrees(lon);
  }

  // ---------------------------------------------------------------------------
  // add_id
  // ---------------------------------------------------------------------------

  /** The frame add_id returns: the id column first, then every other column in its order. */
  function IdFirst(t: Table): (r: Table)
    requires Valid(t) && "id" in t.columns
    ensures Valid(r)
  {
    var others := Without(t.columns, "id");
    assert forall c :: c in ["id"] + others <==> c in t.columns;
    Table(["id"] + others, t.data, t.height)
  }

  /**
   * add_id: the caller's frame gets an id column "id_0".."id_<n-1>" (overwritten
   * where it stands, or appended), and the result is that frame with id first.
   */
  method AddId(df: DataFrame) returns (r: Table)
    requires Valid(df.AsTable())
    modifies df
    ensures Valid(df.AsTable())
    ensures df.AsTable() == Assign(old(df.AsTable()), "id", IdColumn(0, old(df.height)))
    ensures r == IdFirst(df.AsTable())
  {
    df.data := df.data["id" := IdColumn(0, df.height)];
    if "id" !in df.columns {
      df.columns := df.columns + ["id"];
    }
    r := IdFirst(df.AsTable());
  }

  /**
   * The frame add_id returns has id first with "id_0".."id_<n-1>" in row order,
   * and after it exactly the input's other columns, in their order and unchanged.
   */
  lemma AddIdSpec(t: Table)
    requires Valid(t)
    ensures var r := IdFirst(Assign(t, "id", IdColumn(0, t.height)));
      && r.columns == ["id"] + Without(t.columns, "id")
      && r.data["id"] == IdColumn(0, t.height)
      && r.height == t.height
      && forall c <- t.columns :: c != "id" ==> r.data[c] == t.data[c]
  {
    if "id" !in t.columns {
      WithoutAppendSelf(t.columns, "id");
    }
  }
}

/**
 * GET /api/zones, the older read of the ZONE_LAYOUT tab: active rows with a
 * zone id, coordinates passed through `Number` unchecked, so a cell that is
 * not a number comes back as NaN (JSON null).
 */
module ZonesRoute {
  import opened Results
  import opened Text
  import opened Sheet
  import opened Numbers
  import opened ZoneSheet

  /** A coordinate is `None` where `Number` of the cell is not finite. */
  datatype Zone = Zone(zoneId: string, x: Option<int>, y: Option<int>, w: Option<int>, h: Option<int>)

  datatype Layout = Layout(warehouseW: int, warehouseH: int, zones: seq<Zone>)

  /** `i >= 0 ? Number(row[i] ?? d) : d`: an absent column or cell gives the default. */
  function Coordinate(parse: string -> Option<int>, row: Row, i: int, d: int): (n: Option<int>)
    ensures (i < 0 || i >= |row|) ==> n == Some(d)
    ensures 0 <= i < |row| ==> n == parse(row[i])
  {
    if i < 0 then Some(d)
    else match RawCell(row, i)
      case None => Some(d)
      case Some(s) => parse(s)
  }

  function RowToZone(parse: string -> Option<int>, c: Columns, row: Row): Option<Zone> {
    var zoneId := Field(row, c.zone);
    if zoneId == "" || !RowIsActive(row, c.active) then None
    else Some(Zone(zoneId, Coordinate(parse, row, c.x, 0), Coordinate(parse, row, c.y, 0),
                   Coordinate(parse, row, c.w, 10), Coordinate(parse, row, c.h, 10)))
  }

  function Projection(parse: string -> Option<int>, c: Columns): Row -> Option<Zone> {
    row => RowToZone(parse, c, row)
  }

  /** The `zones` array of the response. */
  function ListZones(parse: string -> Option<int>, values: Table): (zones: seq<Zone>)
    ensures |values| < 2 ==> zones == []
    ensures |values| >= 2 ==> |zones| <= |values| - 1
    ensures forall z :: z in zones ==> z.zoneId != "" && IsTrimmed(z.zoneId)
  {
    if |values| < 2 then []
    else FlatMap(values[1..], Projection(parse, LocateColumns(values)))
  }

  /** The handler's answer: the fixed 75 by 50 warehouse and the zones. */
  function Get(parse: string -> Option<int>, values: Table): (r: Layout)
    ensures r.warehouseW == WarehouseW && r.warehouseH == WarehouseH
    ensures |values| < 2 ==> r.zones == []
  {
    Layout(WarehouseW, WarehouseH, ListZones(parse, values))
  }

  /** `z` is the zone read from `row`: the row is active and holds that id and those coordinates. */
  predicate ReadFrom(parse: string -> Option<int>, c: Columns, row: Row, z: Zone) {
    RowIsActive(row, c.active)
    && z == Zone(Field(row, c.zone), Coordinate(parse, row, c.x, 0), Coordinate(parse, row, c.y, 0),
                 Coordinate(parse, row, c.w, 10), Coordinate(parse, row, c.h, 10))
  }

  /** A zone projected out of `rows` was read from one of them. */
  lemma RowSound(parse: string -> Option<int>, c: Columns, rows: seq<Row>, z: Zone) returns (i: nat)
    requires z in FlatMap(rows, Projection(parse, c))
    ensures i < |rows| && ReadFrom(parse, c, rows[i], z)
  {
    i := FlatMapSource(rows, Projection(parse, c), z);
    assert RowToZone(parse, c, rows[i]) == Some(z);
  }

  /** Every listed zone comes from one active data row. */
  lemma ZonesSound(parse: string -> Option<int>, values: Table, z: Zone)
    requires z in ListZones(parse, values)
    ensures |values| >= 2
    ensures exists k :: 1 <= k < |values| && ReadFrom(parse, LocateColumns(values), values[k], z)
  {
    var i := RowSound(parse, LocateColumns(values), values[1..], z);
    assert values[1..][i] == values[i + 1];
  }

  /** Every active data row with a non-empty zone id is listed. */
  lemma ZonesComplete(parse: string -> Option<int>, values: Table, k: int)
    requires 1 <= k < |values|
    requires var c := LocateColumns(values); Field(values[k], c.zone) != "" && RowIsActive(values[k], c.active)
    ensures RowToZone(parse, LocateColumns(values), values[k]).Some?
    ensures RowToZone(parse, LocateColumns(values), values[k]).value in ListZones(parse, values)
  {
    assert values[k] in values[1..] by { assert values[1..][k - 1] == values[k]; }
    FlatMapComplete(values[1..], Projection(parse, LocateColumns(values)), values[k]);
  }

  /**
   * Rows appended under the same header add their zones after the existing
   * ones: the list follows sheet order and the header itself is never a zone.
   */
  lemma ZonesFollowRowOrder(parse: string -> Option<int>, values: Table, more: Table)
    requires |values| >= 1
    ensures ListZones(parse, values + more) == ListZones(parse, values) + ListZones(parse, [values[0]] + more)
  {
    var all := values + more;
    assert all[0] == values[0];
    assert ([values[0]] + more)[0] == values[0];
    assert LocateColumns(all) == LocateColumns(values) == LocateColumns([values[0]] + more);
    var f := Projection(parse, LocateColumns(values));
    if |all| >= 2 {
      assert all[1..] == values[1..] + more;
      FlatMapAppend(values[1..], more, f);
      assert ([values[0]] + more)[1..] == more;
      if |values| < 2 {
        assert values[1..] == [];
      }
      if |more| == 0 {
        assert more == [];
      }
    }
  }
}

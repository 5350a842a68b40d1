/**
 * /api/zone-layout: GET reads the active zones of the ZONE_LAYOUT tab with
 * numeric defaults; POST sanitises the editor's zones, clamps them into the
 * 75 by 50 warehouse and replaces the whole layout with them.
 */
module ZoneLayoutRoute {
  import opened Results
  import opened Text
  import opened Sheet
  import opened Numbers
  import opened ZoneSheet
  import opened Store

  datatype Zone = Zone(zoneId: string, x: int, y: int, w: int, h: int, active: bool)

  datatype Layout = Layout(warehouseW: int, warehouseH: int, zones: seq<Zone>)

  // ---------------------------------------------------------------- GET

  /** `i >= 0 ? num(row[i], d) : d`: a missing column or cell, or a non-number, gives the default. */
  function Coordinate(parse: string -> Option<int>, row: Row, i: int, d: int): (n: int)
    ensures (i < 0 || i >= |row|) ==> n == d
    ensures 0 <= i < |row| && parse(row[i]).Some? ==> n == parse(row[i]).value
    ensures 0 <= i < |row| && parse(row[i]).None? ==> n == d
  {
    if i < 0 then d else Num(Coerce(parse, RawCell(row, i)), d)
  }

  function RowToZone(parse: string -> Option<int>, c: Columns, row: Row): Option<Zone> {
    var zoneId := Field(row, c.zone);
    if zoneId == "" || !RowIsActive(row, c.active) then None
    else Some(Zone(zoneId, Coordinate(parse, row, c.x, 0), Coordinate(parse, row, c.y, 0),
                   Coordinate(parse, row, c.w, 10), Coordinate(parse, row, c.h, 10), true))
  }

  function Projection(parse: string -> Option<int>, c: Columns): Row -> Option<Zone> {
    row => RowToZone(parse, c, row)
  }

  /** The `zones` array of the GET response: every listed zone is marked active. */
  function ListZones(parse: string -> Option<int>, values: Table): (zones: seq<Zone>)
    ensures |values| < 2 ==> zones == []
    ensures |values| >= 2 ==> |zones| <= |values| - 1
    ensures forall z :: z in zones ==> z.active && z.zoneId != "" && IsTrimmed(z.zoneId)
  {
    if |values| < 2 then []
    else FlatMap(values[1..], Projection(parse, LocateColumns(values)))
  }

  function Get(parse: string -> Option<int>, values: Table): (r: Layout)
    ensures r.warehouseW == WarehouseW && r.warehouseH == WarehouseH
    ensures |values| < 2 ==> r.zones == []
  {
    Layout(WarehouseW, WarehouseH, ListZones(parse, values))
  }

  /** `z` is the zone read from `row`: the row is active and holds that id and those coordinates. */
  predicate ReadFrom(parse: string -> Option<int>, c: Columns, row: Row, z: Zone) {
    RowIsActive(row, c.active)
    && z == Zone(Field(row, c.zone), Coordinate(parse, row, c.x, 0), Coordinate(parse, row, c.y, 0),
                 Coordinate(parse, row, c.w, 10), Coordinate(parse, row, c.h, 10), true)
  }

  /** A zone projected out of `rows` was read from one of them. */
  lemma RowSound(parse: string -> Option<int>, c: Columns, rows: seq<Row>, z: Zone) returns (i: nat)
    requires z in FlatMap(rows, Projection(parse, c))
    ensures i < |rows| && ReadFrom(parse, c, rows[i], z)
  {
    i := FlatMapSource(rows, Projection(parse, c), z);
    assert RowToZone(parse, c, rows[i]) == Some(z);
  }

  /** Every listed zone comes from one active data row. */
  lemma LayoutSound(parse: string -> Option<int>, values: Table, z: Zone)
    requires z in ListZones(parse, values)
    ensures |values| >= 2
    ensures exists k :: 1 <= k < |values| && ReadFrom(parse, LocateColumns(values), values[k], z)
  {
    var i := RowSound(parse, LocateColumns(values), values[1..], z);
    assert values[1..][i] == values[i + 1];
  }

  /** Every active data row with a non-empty zone id is listed. */
  lemma LayoutComplete(parse: string -> Option<int>, values: Table, k: int)
    requires 1 <= k < |values|
    requires var c := LocateColumns(values); Field(values[k], c.zone) != "" && RowIsActive(values[k], c.active)
    ensures RowToZone(parse, LocateColumns(values), values[k]).Some?
    ensures RowToZone(parse, LocateColumns(values), values[k]).value in ListZones(parse, values)
  {
    assert values[k] in values[1..] by { assert values[1..][k - 1] == values[k]; }
    FlatMapComplete(values[1..], Projection(parse, LocateColumns(values)), values[k]);
  }

  /**
   * Rows appended under the same header add their zones after the existing
   * ones: the list follows sheet order and the header itself is never a zone.
   */
  lemma LayoutFollowRowOrder(parse: string -> Option<int>, values: Table, more: Table)
    requires |values| >= 1
    ensures ListZones(parse, values + more) == ListZones(parse, values) + ListZones(parse, [values[0]] + more)
  {
    var all := values + more;
    assert all[0] == values[0];
    assert ([values[0]] + more)[0] == values[0];
    assert LocateColumns(all) == LocateColumns(values) == LocateColumns([values[0]] + more);
    var f := Projection(parse, LocateColumns(values));
    if |all| >= 2 {
      assert all[1..] == values[1..] + more;
      FlatMapAppend(values[1..], more, f);
      assert ([values[0]] + more)[1..] == more;
      if |values| < 2 {
        assert values[1..] == [];
      }
      if |more| == 0 {
        assert more == [];
      }
    }
  }

  // ---------------------------------------------------------------- POST

  /**
   * One element of the posted `zones` array. `zoneId` is `String(z.zoneId || "")`
   * before trimming; a coordinate is `num`'s view of the JSON value (`None`
   * when it is not a finite number); `active` is the JSON value when it is a boolean.
   */
  datatype ZoneInput = ZoneInput(zoneId: string, x: Option<int>, y: Option<int>, w: Option<int>, h: Option<int>,
                                 active: Option<bool>)

  /** The `zones` member of the body: missing or null, some non-array value, or an array. */
  datatype ZonesField = Missing | NotAnArray | Items(items: seq<ZoneInput>)

  /** The request body: not JSON at all, or an object. */
  datatype Payload = Unparsable | Parsed(zones: ZonesField)

  /**
   * `body?.zones ?? []` followed by the array check: an unreadable body or a
   * missing `zones` is the empty list; only a non-array is refused (`None`).
   */
  function Submitted(p: Payload): (r: Option<seq<ZoneInput>>)
    ensures r.None? <==> p.Parsed? && p.zones.NotAnArray?
    ensures p.Unparsable? || p.zones.Missing? ==> r == Some([])
    ensures p.Parsed? && p.zones.Items? ==> r == Some(p.zones.items)
  {
    match p
    case Unparsable => Some([])
    case Parsed(Missing) => Some([])
    case Parsed(NotAnArray) => None
    case Parsed(Items(zs)) => Some(zs)
  }

  /** Inside the warehouse, at least one foot wide and high. */
  predicate InBounds(z: Zone) {
    0 <= z.x <= WarehouseW && 0 <= z.y <= WarehouseH && 1 <= z.w <= WarehouseW && 1 <= z.h <= WarehouseH
  }

  /** The per-zone sanitising map: trimmed id, clamped geometry, active unless explicitly false. */
  function SanitiseZone(z: ZoneInput): (s: Zone)
    ensures s.zoneId == Trim(z.zoneId) && InBounds(s)
    ensures s.active <==> z.active != Some(false)
    ensures z.x.Some? && 0 <= z.x.value <= WarehouseW ==> s.x == z.x.value
    ensures z.y.Some? && 0 <= z.y.value <= WarehouseH ==> s.y == z.y.value
    ensures z.w.Some? && 1 <= z.w.value <= WarehouseW ==> s.w == z.w.value
    ensures z.h.Some? && 1 <= z.h.value <= WarehouseH ==> s.h == z.h.value
    ensures z.x.None? ==> s.x == 0
    ensures z.y.None? ==> s.y == 0
    ensures z.w.None? ==> s.w == 10
    ensures z.h.None? ==> s.h == 10
  {
    Zone(Trim(z.zoneId),
         Clamp(Num(z.x, 0), 0, WarehouseW), Clamp(Num(z.y, 0), 0, WarehouseH),
         Clamp(Num(z.w, 10), 1, WarehouseW), Clamp(Num(z.h, 10), 1, WarehouseH),
         z.active != Some(false))
  }

  /** Sanitise, then drop zones whose trimmed id is empty. */
  function KeepNamed(z: ZoneInput): Option<Zone> {
    var s := SanitiseZone(z);
    if s.zoneId == "" then None else Some(s)
  }

  function Keep(): ZoneInput -> Option<Zone> {
    z => KeepNamed(z)
  }

  /** The `clean` list, before it is turned into rows. */
  function Sanitise(zs: seq<ZoneInput>): (clean: seq<Zone>)
    ensures |clean| <= |zs|
    ensures forall s :: s in clean ==> InBounds(s) && s.zoneId != "" && IsTrimmed(s.zoneId)
  {
    FlatMap(zs, Keep())
  }

  /** Sanitising keeps the submitted order: a concatenation is sanitised piece by piece. */
  lemma SanitiseAppend(a: seq<ZoneInput>, b: seq<ZoneInput>)
    ensures Sanitise(a + b) == Sanitise(a) + Sanitise(b)
  {
    FlatMapAppend(a, b, Keep());
  }

  /** Every submitted zone whose trimmed id is not blank is kept, sanitised. */
  lemma SanitiseComplete(zs: seq<ZoneInput>, z: ZoneInput)
    requires z in zs && Trim(z.zoneId) != ""
    ensures SanitiseZone(z) in Sanitise(zs)
  {
    assert Keep()(z) == Some(SanitiseZone(z));
    FlatMapComplete(zs, Keep(), z);
  }

  /** One saved row: the id, the four numbers as decimal text, and "TRUE" or "FALSE". */
  function ZoneRow(s: Zone): (row: Row)
    ensures |row| == AtoF
  {
    [s.zoneId, IntToString(s.x), IntToString(s.y), IntToString(s.w), IntToString(s.h),
     if s.active then "TRUE" else "FALSE"]
  }

  function RowsOf(clean: seq<Zone>): (rows: Table)
    ensures |rows| == |clean| && Narrow(rows, AtoF)
    ensures forall i :: 0 <= i < |clean| ==> rows[i] == ZoneRow(clean[i])
  {
    seq(|clean|, i requires 0 <= i < |clean| => ZoneRow(clean[i]))
  }

  /** The whole tab after a save: the header, then one row per clean zone. */
  function SavedTable(clean: seq<Zone>): (t: Table)
    ensures |t| == |clean| + 1 && t[0] == Header && Narrow(t, AtoF)
    ensures forall i :: 0 <= i < |clean| ==> t[i + 1] == ZoneRow(clean[i])
  {
    [Header] + RowsOf(clean)
  }

  /** The POST handler as a function: the response (`count` on success) and the tab afterwards. */
  function SaveOutcome(authorized: bool, p: Payload, before: Table): (r: (Response<nat>, Table))
    ensures r.0.Fail? ==> r.1 == before
    ensures !authorized ==> r.0 == Fail(401, "Unauthorized")
    ensures authorized && Submitted(p).None? ==> r.0 == Fail(400, "Invalid payload")
    ensures r.0.Ok? ==> r.0.body == |r.1| - 1 && r.1[0] == Header
    ensures authorized && Submitted(p).Some? ==>
      r == (Ok(|Sanitise(Submitted(p).value)|), SavedTable(Sanitise(Submitted(p).value)))
  {
    if !authorized then (Fail(401, "Unauthorized"), before)
    else match Submitted(p)
      case None => (Fail(400, "Invalid payload"), before)
      case Some(zs) =>
        var clean := Sanitise(zs);
        (Ok(|clean|), SavedTable(clean))
  }

  /** The first two writes of the handler: the header to A1:F1, then a clear of A2:F. */
  method WriteHeader(wb: Workbook)
    requires wb.Valid()
    modifies wb
    ensures wb.Valid()
    ensures wb.zoneLayout == [Header]
    ensures wb.lots == old(wb.lots) && wb.bins == old(wb.bins)
  {
    ghost var lots, bins := wb.lots, wb.bins;
    wb.UpdateRows(ZoneLayout, 1, [Header]);
    assert wb.Read(Lots) == lots && wb.Read(Bins) == bins;
    assert |wb.zoneLayout| >= 1 && wb.zoneLayout[0] == Header;
    wb.ClearFrom(ZoneLayout, 2);
    assert wb.Read(Lots) == lots && wb.Read(Bins) == bins;
  }

  /** All three writes: header, clear, then the rows from A2 when there are any. */
  method WriteLayout(wb: Workbook, rows: Table)
    requires wb.Valid() && Narrow(rows, AtoF)
    modifies wb
    ensures wb.Valid()
    ensures wb.zoneLayout == [Header] + rows
    ensures wb.lots == old(wb.lots) && wb.bins == old(wb.bins)
  {
    WriteHeader(wb);
    if |rows| > 0 {
      ghost var lots, bins := wb.lots, wb.bins;
      wb.UpdateRows(ZoneLayout, 2, rows);
      assert wb.Read(Lots) == lots && wb.Read(Bins) == bins;
    }
  }

  /** The handler: refuse, or sanitise and replace the layout with the clean rows. */
  method Save(wb: Workbook, authorized: bool, p: Payload) returns (resp: Response<nat>)
    requires wb.Valid()
    modifies wb
    ensures wb.Valid()
    ensures (resp, wb.zoneLayout) == SaveOutcome(authorized, p, old(wb.zoneLayout))
    ensures wb.lots == old(wb.lots) && wb.bins == old(wb.bins)
  {
    if !authorized {
      return Fail(401, "Unauthorized");
    }
    var zones := Submitted(p);
    if zones.None? {
      return Fail(400, "Invalid payload");
    }
    var clean := Sanitise(zones.value);
    WriteLayout(wb, RowsOf(clean));
    resp := Ok(|clean|);
  }

  /** A save replaces the layout: what was there before leaves no trace. */
  lemma SaveReplaces(p: Payload, before1: Table, before2: Table)
    requires Submitted(p).Some?
    ensures SaveOutcome(true, p, before1) == SaveOutcome(true, p, before2)
  {
  }

  /** Out-of-range numbers are clamped to the warehouse; a missing width defaults to 10. */
  lemma ClampExample()
    ensures SanitiseZone(ZoneInput("A1", Some(-5), Some(80), None, Some(0), None)) == Zone("A1", 0, 50, 10, 1, true)
    ensures SanitiseZone(ZoneInput("A1", None, None, Some(1000), Some(1000), Some(false))) == Zone("A1", 0, 0, 75, 50, false)
  {
    TrimIdempotent("A1");
  }

  /** What the editor would post back for an already sanitised zone. */
  function AsInput(s: Zone): ZoneInput {
    ZoneInput(s.zoneId, Some(s.x), Some(s.y), Some(s.w), Some(s.h), Some(s.active))
  }

  function Resubmit(clean: seq<Zone>): seq<ZoneInput> {
    seq(|clean|, i requires 0 <= i < |clean| => AsInput(clean[i]))
  }

  /** A clean list passes through sanitising unchanged. */
  lemma {:induction false} SanitiseKeepsClean(clean: seq<Zone>)
    requires forall s :: s in clean ==> InBounds(s) && s.zoneId != "" && IsTrimmed(s.zoneId)
    ensures Sanitise(Resubmit(clean)) == clean
  {
    if clean != [] {
      var s := clean[0];
      TrimIdempotent(s.zoneId);
      assert KeepNamed(AsInput(s)) == Some(s);
      assert Resubmit(clean)[1..] == Resubmit(clean[1..]);
      SanitiseKeepsClean(clean[1..]);
      assert clean == [s] + clean[1..];
    }
  }

  /** Saving what a save produced produces it again. */
  lemma SanitiseIdempotent(zs: seq<ZoneInput>)
    ensures Sanitise(Resubmit(Sanitise(zs))) == Sanitise(zs)
  {
    SanitiseKeepsClean(Sanitise(zs));
  }

  function IsActive(): Zone -> bool {
    (z: Zone) => z.active
  }

  /** One saved row reads back as its zone when active, and not at all when inactive. */
  lemma ReadSavedRow(parse: string -> Option<int>, s: Zone)
    requires forall n :: 0 <= n <= WarehouseW ==> parse(IntToString(n)) == Some(n)
    requires InBounds(s) && s.zoneId != "" && IsTrimmed(s.zoneId)
    ensures RowToZone(parse, Columns(0, 1, 2, 3, 4, 5), ZoneRow(s)) == if s.active then Some(s) else None
  {
    var row := ZoneRow(s);
    TrimIdempotent(s.zoneId);
    assert Field(row, 0) == s.zoneId;
    SavedActiveCell(s);
    if s.active {
      SavedCoordinates(parse, s);
    }
  }

  /** The saved Active cell reads back as the zone's flag. */
  lemma SavedActiveCell(s: Zone)
    ensures RowIsActive(ZoneRow(s), 5) == s.active
  {
    if s.active {
      assert Upper("TRUE")[0] == 'T';
    } else {
      assert Upper("FALSE") == "FALSE";
    }
  }

  /** The saved coordinate cells read back as the zone's coordinates. */
  lemma SavedCoordinates(parse: string -> Option<int>, s: Zone)
    requires forall n :: 0 <= n <= WarehouseW ==> parse(IntToString(n)) == Some(n)
    requires InBounds(s)
    ensures var row := ZoneRow(s);
      Coordinate(parse, row, 1, 0) == s.x && Coordinate(parse, row, 2, 0) == s.y
      && Coordinate(parse, row, 3, 10) == s.w && Coordinate(parse, row, 4, 10) == s.h
  {
    var row := ZoneRow(s);
    assert parse(row[1]) == Some(s.x);
    assert parse(row[2]) == Some(s.y);
    assert parse(row[3]) == Some(s.w);
    assert parse(row[4]) == Some(s.h);
  }

  lemma {:induction false} ReadSavedRows(parse: string -> Option<int>, clean: seq<Zone>)
    requires forall n :: 0 <= n <= WarehouseW ==> parse(IntToString(n)) == Some(n)
    requires forall s :: s in clean ==> InBounds(s) && s.zoneId != "" && IsTrimmed(s.zoneId)
    ensures FlatMap(RowsOf(clean), Projection(parse, Columns(0, 1, 2, 3, 4, 5))) == Filter(clean, IsActive())
  {
    if clean != [] {
      ReadSavedRow(parse, clean[0]);
      assert RowsOf(clean)[0] == ZoneRow(clean[0]);
      assert RowsOf(clean)[1..] == RowsOf(clean[1..]);
      ReadSavedRows(parse, clean[1..]);
    }
  }

  /**
   * Reading the layout back after a save gives exactly the saved zones that
   * are active, in the order they were posted, given that the reader's number
   * parsing recovers the decimal text the save wrote.
   */
  lemma SaveThenLoad(parse: string -> Option<int>, zs: seq<ZoneInput>)
    requires forall n :: 0 <= n <= WarehouseW ==> parse(IntToString(n)) == Some(n)
    ensures ListZones(parse, SavedTable(Sanitise(zs))) == Filter(Sanitise(zs), IsActive())
  {
    var clean := Sanitise(zs);
    var t := SavedTable(clean);
    HeaderColumns(RowsOf(clean));
    if |t| >= 2 {
      assert t[1..] == RowsOf(clean);
      ReadSavedRows(parse, clean);
    } else {
      assert clean == [];
    }
  }

  /** With decimal parsing, the round trip holds outright. */
  lemma SaveThenLoadDecimal(zs: seq<ZoneInput>)
    ensures ListZones(ParseDecimal, SavedTable(Sanitise(zs))) == Filter(Sanitise(zs), IsActive())
  {
    forall n | 0 <= n <= WarehouseW ensures ParseDecimal(IntToString(n)) == Some(n) {
      ParseDecimalInvertsIntToString(n);
    }
    SaveThenLoad(ParseDecimal, zs);
  }
}

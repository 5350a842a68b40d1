/**
 * The map editor page (`/map`): the bin colour palette, the grouping of bins
 * by zone, the placement of bin tiles inside a zone, snapping of dragged and
 * resized zones to whole feet, and the editor state (the loaded layout, the
 * bins, the selected zone and bin, edit mode) with the actions that change it.
 * Lengths are in feet in the layout and in stage pixels on screen, 20 pixels
 * to the foot, with a 24 pixel margin around the warehouse.
 */
module MapPage {
  import opened Results
  import opened Text
  import opened Sheet
  import opened Numbers
  import opened Store
  import BinsRoute
  import LotsRoute
  import ZoneLayoutRoute

  type Zone = ZoneLayoutRoute.Zone
  type Layout = ZoneLayoutRoute.Layout
  type Bin = BinsRoute.Bin
  type Lot = LotsRoute.Lot

  const PxPerFt: int := 20
  const Pad: int := 24

  // ------------------------------------------------------------ bin colours

  const EmptyColour: string := "rgba(203,213,225,0.95)"
  const PhotoProcessColour: string := "rgba(14,165,233,0.95)"
  const ReadyForAnalysisColour: string := "rgba(245,158,11,0.95)"
  const ReadyForFlexColour: string := "rgba(168,85,247,0.95)"
  const DoneColour: string := "rgba(100,116,139,0.95)"
  const BrokenColour: string := "rgba(185,28,28,0.95)"

  /** The statuses that have a colour of their own, written in upper case. */
  const Palette: map<string, string> := map[
    "EMPTY" := EmptyColour,
    "PHOTO_PROCESS" := PhotoProcessColour,
    "READY_FOR_ANALYSIS" := ReadyForAnalysisColour,
    "READY_FOR_FLEX" := ReadyForFlexColour,
    "DONE" := DoneColour,
    "BROKEN" := BrokenColour
  ]

  /**
   * A tile's fill for a bin status: the status is upper-cased and looked up in
   * the palette; anything else, the empty status included, is drawn like EMPTY.
   */
  function BinColor(status: string): (colour: string)
    ensures colour == if Upper(status) in Palette then Palette[Upper(status)] else EmptyColour
  {
    var s := Upper(status);
    if s == "EMPTY" then EmptyColour
    else if s == "PHOTO_PROCESS" then PhotoProcessColour
    else if s == "READY_FOR_ANALYSIS" then ReadyForAnalysisColour
    else if s == "READY_FOR_FLEX" then ReadyForFlexColour
    else if s == "DONE" then DoneColour
    else if s == "BROKEN" then BrokenColour
    else EmptyColour
  }

  /** The colour does not depend on letter case, and an unknown status looks empty. */
  lemma BinColorIgnoresCase(status: string)
    ensures BinColor(Upper(status)) == BinColor(status)
    ensures Upper(status) !in Palette ==> BinColor(status) == BinColor("EMPTY")
  {
    UpperIdempotent(status);
    assert Upper("EMPTY") == "EMPTY";
  }

  // ------------------------------------------------------- bins by zone

  function InZone(zone: string): Bin -> bool {
    (b: Bin) => b.zone == zone
  }

  /** `groups` holds one group per zone named in `bins`: that zone's bins, in list order. */
  ghost predicate Grouped(bins: seq<Bin>, groups: map<string, seq<Bin>>) {
    (forall zone :: zone in groups <==> exists b :: b in bins && b.zone == zone)
    && forall zone :: zone in groups ==> groups[zone] == Filter(bins, InZone(zone))
  }

  /** Pushing one more bin onto its zone's group keeps the grouping exact. */
  lemma GroupStep(bins: seq<Bin>, b: Bin, groups: map<string, seq<Bin>>)
    requires Grouped(bins, groups)
    ensures Grouped(bins + [b], groups[b.zone := (if b.zone in groups then groups[b.zone] else []) + [b]])
  {
    GroupStepKeys(bins, b, groups);
    GroupStepValues(bins, b, groups);
  }

  /** After the push, the groups are still keyed by exactly the zones the bins name. */
  lemma GroupStepKeys(bins: seq<Bin>, b: Bin, groups: map<string, seq<Bin>>)
    requires forall zone :: zone in groups <==> exists b :: b in bins && b.zone == zone
    ensures var after := groups[b.zone := (if b.zone in groups then groups[b.zone] else []) + [b]];
      forall zone :: zone in after <==> exists c :: c in bins + [b] && c.zone == zone
  {
    var after := groups[b.zone := (if b.zone in groups then groups[b.zone] else []) + [b]];
    forall zone ensures zone in after <==> exists c :: c in bins + [b] && c.zone == zone {
      if zone in after && zone != b.zone {
        var c :| c in bins && c.zone == zone;
        assert c in bins + [b];
      }
      if exists c :: c in bins + [b] && c.zone == zone {
        var c :| c in bins + [b] && c.zone == zone;
        if c != b {
          assert c in bins;
        }
      }
    }
  }

  /** After the push, every group is still its zone's bins in list order. */
  lemma GroupStepValues(bins: seq<Bin>, b: Bin, groups: map<string, seq<Bin>>)
    requires Grouped(bins, groups)
    ensures var after := groups[b.zone := (if b.zone in groups then groups[b.zone] else []) + [b]];
      forall zone :: zone in after ==> after[zone] == Filter(bins + [b], InZone(zone))
  {
    var after := groups[b.zone := (if b.zone in groups then groups[b.zone] else []) + [b]];
    if b.zone !in groups {
      FilterNone(bins, InZone(b.zone));
    }
    forall zone | zone in after ensures after[zone] == Filter(bins + [b], InZone(zone)) {
      FilterAppend(bins, [b], InZone(zone));
    }
  }

  /**
   * `binsByZone`: one group per zone named by some bin, holding that zone's
   * bins in the order they were listed.
   */
  method GroupByZone(bins: seq<Bin>) returns (groups: map<string, seq<Bin>>)
    ensures forall zone :: zone in groups <==> exists b :: b in bins && b.zone == zone
    ensures forall zone :: zone in groups ==> groups[zone] == Filter(bins, InZone(zone))
  {
    groups := map[];
    for i := 0 to |bins|
      invariant Grouped(bins[..i], groups)
    {
      var b := bins[i];
      assert bins[..i + 1] == bins[..i] + [b];
      GroupStep(bins[..i], b, groups);
      var group := if b.zone in groups then groups[b.zone] else [];
      groups := groups[b.zone := group + [b]];
    }
    assert bins[..|bins|] == bins;
  }

  /** Nothing passes a filter that no element satisfies. */
  lemma {:induction false} FilterNone<T>(s: seq<T>, p: T -> bool)
    requires forall x :: x in s ==> !p(x)
    ensures Filter(s, p) == []
  {
    if s != [] {
      FilterNone(s[1..], p);
    }
  }

  /** `binsByZone.get(z.zoneId) || []` */
  function ZoneBins(groups: map<string, seq<Bin>>, zoneId: string): seq<Bin> {
    if zoneId in groups then groups[zoneId] else []
  }

  /**
   * Looking a zone up in the grouping gives that zone's bins in list order,
   * none when no bin names it; every bin shows up under its own zone only.
   */
  lemma ZoneBinsLookup(bins: seq<Bin>, groups: map<string, seq<Bin>>, zoneId: string)
    requires forall zone :: zone in groups <==> exists b :: b in bins && b.zone == zone
    requires forall zone :: zone in groups ==> groups[zone] == Filter(bins, InZone(zone))
    ensures ZoneBins(groups, zoneId) == Filter(bins, InZone(zoneId))
    ensures forall b :: b in ZoneBins(groups, zoneId) ==> b in bins && b.zone == zoneId
    ensures forall b :: b in bins && b.zone == zoneId ==> b in ZoneBins(groups, zoneId)
  {
    if zoneId !in groups {
      FilterNone(bins, InZone(zoneId));
    }
  }

  // ------------------------------------------------------- bin tiles

  const Tile: int := 10
  const Gap: int := 4
  /** Inner padding of a zone: 10 pixels at the sides, 28 at the top to clear the label. */
  const PadX: int := 10
  const PadY: int := 28

  /** How many tiles fit across and down a zone of the given pixel size, at least one each way. */
  datatype Grid = Grid(cols: int, rows: int)

  function Max(a: int, b: int): int {
    if a > b then a else b
  }

  function Min(a: int, b: int): int {
    if a < b then a else b
  }

  function TileGrid(wPx: int, hPx: int): (g: Grid)
    ensures g.cols >= 1 && g.rows >= 1
    ensures wPx >= 2 * PadX + Tile ==> g.cols * (Tile + Gap) - Gap <= wPx - 2 * PadX
    ensures hPx >= PadY + 10 + Tile ==> g.rows * (Tile + Gap) - Gap <= hPx - PadY - 10
    ensures wPx >= 2 * PadX + Tile ==> (g.cols + 1) * (Tile + Gap) - Gap > wPx - 2 * PadX
    ensures hPx >= PadY + 10 + Tile ==> (g.rows + 1) * (Tile + Gap) - Gap > hPx - PadY - 10
  {
    var innerW := Max(0, wPx - PadX * 2);
    var innerH := Max(0, hPx - PadY - 10);
    Grid(Max(1, (innerW + Gap) / (Tile + Gap)), Max(1, (innerH + Gap) / (Tile + Gap)))
  }

  /** One drawn tile: its bin and its top-left corner in stage pixels. */
  datatype TileAt = TileAt(bin: Bin, x: int, y: int)

  /** The grid cell of the `i`-th tile: column `i mod cols`, row `i div cols`. */
  function TileCell(i: nat, cols: int): (cell: (int, int))
    requires cols >= 1
    ensures 0 <= cell.0 < cols && cell.1 >= 0
    ensures i == cell.1 * cols + cell.0
  {
    (i % cols, i / cols)
  }

  /**
   * The tiles drawn inside a zone: the first `cols * rows` of its bins, laid
   * out row by row from the zone's top-left corner.
   */
  function Tiles(z: Zone, zoneBins: seq<Bin>): (ts: seq<TileAt>)
    ensures var g := TileGrid(z.w * PxPerFt, z.h * PxPerFt);
      |ts| == Min(|zoneBins|, g.cols * g.rows)
    ensures forall i :: 0 <= i < |ts| ==> ts[i].bin == zoneBins[i]
  {
    var g := TileGrid(z.w * PxPerFt, z.h * PxPerFt);
    var n := Min(|zoneBins|, g.cols * g.rows);
    seq(n, i requires 0 <= i < n =>
      var cell := TileCell(i, g.cols);
      TileAt(zoneBins[i], Pad + z.x * PxPerFt + PadX + cell.0 * (Tile + Gap),
                         Pad + z.y * PxPerFt + PadY + cell.1 * (Tile + Gap)))
  }

  /** Two different indices never land in the same grid cell. */
  lemma CellsDiffer(i: nat, j: nat, cols: int)
    requires cols >= 1 && i != j
    ensures TileCell(i, cols) != TileCell(j, cols)
  {
  }

  /** Cells whose column or row differ are at least one tile and one gap apart. */
  lemma SpacedApart(a: int, b: int)
    requires a != b
    ensures a * (Tile + Gap) - b * (Tile + Gap) >= Tile + Gap || b * (Tile + Gap) - a * (Tile + Gap) >= Tile + Gap
  {
    if a < b {
      assert b * (Tile + Gap) - a * (Tile + Gap) == (b - a) * (Tile + Gap);
    } else {
      assert a * (Tile + Gap) - b * (Tile + Gap) == (a - b) * (Tile + Gap);
    }
  }

  /** No two tiles overlap: any two are a full tile and a gap apart across or down. */
  lemma TilesDisjoint(z: Zone, zoneBins: seq<Bin>, i: nat, j: nat)
    requires i < j < |Tiles(z, zoneBins)|
    ensures var ts := Tiles(z, zoneBins);
      ts[j].x - ts[i].x >= Tile + Gap || ts[i].x - ts[j].x >= Tile + Gap
      || ts[j].y - ts[i].y >= Tile + Gap || ts[i].y - ts[j].y >= Tile + Gap
  {
    var g := TileGrid(z.w * PxPerFt, z.h * PxPerFt);
    var ci, cj := TileCell(i, g.cols), TileCell(j, g.cols);
    CellsDiffer(i, j, g.cols);
    if ci.0 != cj.0 {
      SpacedApart(ci.0, cj.0);
    } else {
      SpacedApart(ci.1, cj.1);
    }
  }

  /** A row of a grid cell shown lies inside the grid. */
  lemma RowInGrid(i: nat, cols: int, rows: int)
    requires cols >= 1 && rows >= 1 && i < cols * rows
    ensures TileCell(i, cols).1 < rows
  {
  }

  /**
   * When the zone is large enough for one tile, every drawn tile lies inside
   * the zone's padded area: past the side padding and the label, and clear of
   * the right and bottom edges by the padding.
   */
  lemma TilesInsideZone(z: Zone, zoneBins: seq<Bin>, i: nat)
    requires z.w * PxPerFt >= 2 * PadX + Tile && z.h * PxPerFt >= PadY + 10 + Tile
    requires i < |Tiles(z, zoneBins)|
    ensures var t := Tiles(z, zoneBins)[i];
      var left, top := Pad + z.x * PxPerFt, Pad + z.y * PxPerFt;
      left + PadX <= t.x && t.x + Tile <= left + z.w * PxPerFt - PadX
      && top + PadY <= t.y && t.y + Tile <= top + z.h * PxPerFt - 10
  {
    var g := TileGrid(z.w * PxPerFt, z.h * PxPerFt);
    var cell := TileCell(i, g.cols);
    RowInGrid(i, g.cols, g.rows);
    assert cell.0 * (Tile + Gap) <= (g.cols - 1) * (Tile + Gap);
    assert cell.1 * (Tile + Gap) <= (g.rows - 1) * (Tile + Gap);
  }

  // ------------------------------------------------------- snapping

  /**
   * `Math.round(px / 20)` for a whole number of pixels: the nearest whole
   * foot, a half foot rounding up.
   */
  function RoundFt(px: int): (ft: int)
    ensures ft * PxPerFt - PxPerFt / 2 <= px < ft * PxPerFt + PxPerFt / 2
  {
    (px + PxPerFt / 2) / PxPerFt
  }

  /** A drop exactly on a foot boundary keeps that foot. */
  lemma RoundFtExact(ft: int)
    ensures RoundFt(ft * PxPerFt) == ft
  {
    var r := RoundFt(ft * PxPerFt);
    assert (r - ft) * PxPerFt == r * PxPerFt - ft * PxPerFt;
  }

  /**
   * Where a zone dropped at stage position (`px`, `py`) ends up: snapped to
   * the nearest foot and clamped into the warehouse.
   */
  function DragTarget(px: int, py: int, warehouseW: int, warehouseH: int): (at: (int, int))
    ensures warehouseW >= 0 ==> 0 <= at.0 <= warehouseW
    ensures warehouseH >= 0 ==> 0 <= at.1 <= warehouseH
    ensures 0 <= RoundFt(px - Pad) <= warehouseW ==> at.0 == RoundFt(px - Pad)
    ensures 0 <= RoundFt(py - Pad) <= warehouseH ==> at.1 == RoundFt(py - Pad)
  {
    (Clamp(RoundFt(px - Pad), 0, warehouseW), Clamp(RoundFt(py - Pad), 0, warehouseH))
  }

  /**
   * The size a zone gets after a resize to `wPx` by `hPx` scaled pixels:
   * at least one foot, snapped, and no larger than the warehouse.
   */
  function ResizeTarget(wPx: int, hPx: int, warehouseW: int, warehouseH: int): (size: (int, int))
    ensures warehouseW >= 1 ==> 1 <= size.0 <= warehouseW
    ensures warehouseH >= 1 ==> 1 <= size.1 <= warehouseH
    ensures 1 <= RoundFt(wPx) <= warehouseW ==> size.0 == RoundFt(wPx)
    ensures 1 <= RoundFt(hPx) <= warehouseH ==> size.1 == RoundFt(hPx)
  {
    (Clamp(Max(1, RoundFt(wPx)), 1, warehouseW), Clamp(Max(1, RoundFt(hPx)), 1, warehouseH))
  }

  /** A zone dragged inside the warehouse lands within half a foot of where it was dropped. */
  lemma DragNearest(px: int, py: int, warehouseW: int, warehouseH: int)
    requires 0 <= px - Pad <= warehouseW * PxPerFt && 0 <= py - Pad <= warehouseH * PxPerFt
    ensures var at := DragTarget(px, py, warehouseW, warehouseH);
      at.0 * PxPerFt - PxPerFt / 2 <= px - Pad < at.0 * PxPerFt + PxPerFt / 2
      && at.1 * PxPerFt - PxPerFt / 2 <= py - Pad < at.1 * PxPerFt + PxPerFt / 2
  {
  }

  // ------------------------------------------------------- zone edits

  /** A partial zone, as merged by `{ ...z, ...patch }`: each given field replaces the zone's. */
  datatype Patch = Patch(zoneId: Option<string>, x: Option<int>, y: Option<int>, w: Option<int>, h: Option<int>,
                         active: Option<bool>)

  function Apply(z: Zone, p: Patch): (r: Zone)
    ensures r.zoneId == p.zoneId.GetOr(z.zoneId) && r.active == p.active.GetOr(z.active)
    ensures r.x == p.x.GetOr(z.x) && r.y == p.y.GetOr(z.y) && r.w == p.w.GetOr(z.w) && r.h == p.h.GetOr(z.h)
  {
    ZoneLayoutRoute.Zone(p.zoneId.GetOr(z.zoneId), p.x.GetOr(z.x), p.y.GetOr(z.y), p.w.GetOr(z.w), p.h.GetOr(z.h),
                         p.active.GetOr(z.active))
  }

  /** The `updateZone` mapping: every zone with the id is patched, in place in the list. */
  function UpdateZones(zones: seq<Zone>, zoneId: string, p: Patch): (r: seq<Zone>)
    ensures |r| == |zones|
    ensures forall i :: 0 <= i < |zones| && zones[i].zoneId != zoneId ==> r[i] == zones[i]
    ensures forall i :: 0 <= i < |zones| && zones[i].zoneId == zoneId ==> r[i] == Apply(zones[i], p)
  {
    seq(|zones|, i requires 0 <= i < |zones| => if zones[i].zoneId == zoneId then Apply(zones[i], p) else zones[i])
  }

  predicate Taken(zones: seq<Zone>, zoneId: string) {
    exists z :: z in zones && z.zoneId == zoneId
  }

  /** Updating an id no zone has changes nothing. */
  lemma UpdateAbsent(zones: seq<Zone>, zoneId: string, p: Patch)
    requires !Taken(zones, zoneId)
    ensures UpdateZones(zones, zoneId, p) == zones
  {
    var r := UpdateZones(zones, zoneId, p);
    forall i | 0 <= i < |zones| ensures r[i] == zones[i] {
      assert zones[i] in zones;
    }
  }

  /** Applying the same update twice is the same as applying it once. */
  lemma UpdateIdempotent(zones: seq<Zone>, zoneId: string, p: Patch)
    ensures UpdateZones(UpdateZones(zones, zoneId, p), zoneId, p) == UpdateZones(zones, zoneId, p)
  {
    var once := UpdateZones(zones, zoneId, p);
    var twice := UpdateZones(once, zoneId, p);
    forall i | 0 <= i < |zones| ensures twice[i] == once[i] {
      if zones[i].zoneId == zoneId {
        assert Apply(Apply(zones[i], p), p) == Apply(zones[i], p);
      }
    }
  }

  /** The index of the first zone at or after `from` with the given id. */
  function FindFrom(zones: seq<Zone>, zoneId: string, from: nat): (r: Option<nat>)
    decreases |zones| - from
    ensures r.None? <==> forall j :: from <= j < |zones| ==> zones[j].zoneId != zoneId
    ensures r.Some? ==> from <= r.value < |zones| && zones[r.value].zoneId == zoneId
                        && forall j :: from <= j < r.value ==> zones[j].zoneId != zoneId
  {
    if from >= |zones| then None
    else if zones[from].zoneId == zoneId then Some(from)
    else FindFrom(zones, zoneId, from + 1)
  }

  /** The first zone with the given id, as `zones.find`. */
  function Find(zones: seq<Zone>, zoneId: string): (r: Option<Zone>)
    ensures r.None? <==> !Taken(zones, zoneId)
    ensures r.Some? ==> exists k :: 0 <= k < |zones| && zones[k] == r.value && r.value.zoneId == zoneId
                                     && forall j :: 0 <= j < k ==> zones[j].zoneId != zoneId
  {
    match FindFrom(zones, zoneId, 0)
    case None => None
    case Some(k) => Some(zones[k])
  }

  // ------------------------------------------------------- new zone names

  function NewZoneName(i: int): string {
    "NEW_ZONE_" + IntToString(i)
  }

  lemma NewZoneNameInjective(i: int, j: int)
    requires NewZoneName(i) == NewZoneName(j)
    ensures i == j
  {
    assert NewZoneName(i)[9..] == IntToString(i);
    assert NewZoneName(j)[9..] == IntToString(j);
    IntToStringInjective(i, j);
  }

  /** Every candidate before `NEW_ZONE_i` is already used. */
  ghost predicate TakenBefore(zones: seq<Zone>, i: int) {
    forall j :: 1 <= j < i ==> Taken(zones, NewZoneName(j))
  }

  /** `id` is `NEW_ZONE_n` for the least `n >= 1` whose name no zone uses. */
  ghost predicate FirstFreeName(zones: seq<Zone>, id: string) {
    !Taken(zones, id) && exists n :: n >= 1 && id == NewZoneName(n) && TakenBefore(zones, n)
  }

  ghost function Ids(zones: seq<Zone>): set<string> {
    set z | z in zones :: z.zoneId
  }

  ghost function Tried(i: int): set<string> {
    set j | 1 <= j < i :: NewZoneName(j)
  }

  /** How many names in use have not been tried yet: the search's measure. */
  ghost function Untried(zones: seq<Zone>, i: int): nat {
    |Ids(zones) - Tried(i)|
  }

  /** A taken candidate extends the taken run by one and leaves one name in use fewer untried. */
  lemma TriedStep(zones: seq<Zone>, i: int)
    requires i >= 1 && TakenBefore(zones, i) && Taken(zones, NewZoneName(i))
    ensures TakenBefore(zones, i + 1)
    ensures Untried(zones, i + 1) < Untried(zones, i)
  {
    var id := NewZoneName(i);
    NotYetTried(i);
    var z :| z in zones && z.zoneId == id;
    assert id in Ids(zones) - Tried(i);
    assert Tried(i + 1) == Tried(i) + {id};
    assert Ids(zones) - Tried(i + 1) == (Ids(zones) - Tried(i)) - {id};
  }

  /** The candidate `NEW_ZONE_i` is none of the names tried before it. */
  lemma NotYetTried(i: int)
    ensures NewZoneName(i) !in Tried(i)
  {
    if NewZoneName(i) in Tried(i) {
      var j :| 1 <= j < i && NewZoneName(j) == NewZoneName(i);
      NewZoneNameInjective(i, j);
    }
  }

  /** A free candidate after a taken run is the first free name. */
  lemma FoundFree(zones: seq<Zone>, i: int)
    requires i >= 1 && TakenBefore(zones, i) && !Taken(zones, NewZoneName(i))
    ensures FirstFreeName(zones, NewZoneName(i))
  {
  }

  /** `NEW_ZONE_1`, `NEW_ZONE_2`, ... until a name is free. */
  method FreshZoneId(zones: seq<Zone>) returns (id: string)
    ensures FirstFreeName(zones, id)
  {
    var i := 1;
    id := NewZoneName(i);
    while Taken(zones, id)
      invariant i >= 1 && id == NewZoneName(i) && TakenBefore(zones, i)
      decreases Untried(zones, i)
    {
      TriedStep(zones, i);
      i := i + 1;
      id := NewZoneName(i);
    }
    FoundFree(zones, i);
  }

  // ------------------------------------------------------- editor state

  /** The page's state: the loaded layout (none until the first load), the bins, and the selection. */
  class MapEditor {
    var data: Option<Layout>
    var bins: seq<Bin>
    var selected: Option<string>
    var selectedBin: Option<Bin>
    var binLots: seq<Lot>
    var editMode: bool

    constructor ()
      ensures data == None && bins == [] && selected == None && selectedBin == None
      ensures binLots == [] && !editMode
    {
      data := None;
      bins := [];
      selected := None;
      selectedBin := None;
      binLots := [];
      editMode := false;
    }

    /** `selectedZone`: the first zone whose id is the selected one. */
    function SelectedZone(): (r: Option<Zone>)
      reads this
      ensures r.Some? ==> data.Some? && selected.Some? && r.value in data.value.zones
                          && r.value.zoneId == selected.value
      ensures r.None? <==> data.None? || selected.None? || !Taken(data.value.zones, selected.value)
    {
      if data.None? || selected.None? then None
      else
        var r := Find(data.value.zones, selected.value);
        assert r.Some? ==> r.value in data.value.zones;
        r
    }

    /** A layout load: a successful reply replaces the layout, a failed one leaves it. */
    method Load(reply: Option<Layout>)
      modifies this
      ensures data == (if reply.Some? then reply else old(data))
      ensures bins == old(bins) && selected == old(selected) && selectedBin == old(selectedBin)
      ensures binLots == old(binLots) && editMode == old(editMode)
    {
      if reply.Some? {
        data := reply;
      }
    }

    /** The bins load: `j.bins || []` when the reply is OK, nothing otherwise. */
    method LoadBins(reply: Option<seq<Bin>>)
      modifies this
      ensures bins == (if reply.Some? then reply.value else old(bins))
      ensures data == old(data) && selected == old(selected) && selectedBin == old(selectedBin)
      ensures binLots == old(binLots) && editMode == old(editMode)
    {
      if reply.Some? {
        bins := reply.value;
      }
    }

    method ToggleEditMode()
      modifies this
      ensures editMode == !old(editMode)
      ensures data == old(data) && bins == old(bins) && selected == old(selected)
      ensures selectedBin == old(selectedBin) && binLots == old(binLots)
    {
      editMode := !editMode;
    }

    /** `updateZone`: patch the zones with the id; nothing happens before a layout is loaded. */
    method UpdateZone(zoneId: string, p: Patch)
      modifies this
      ensures old(data).None? ==> data == None
      ensures old(data).Some? ==> data == Some(old(data).value.(zones := UpdateZones(old(data).value.zones, zoneId, p)))
      ensures bins == old(bins) && selected == old(selected) && selectedBin == old(selectedBin)
      ensures binLots == old(binLots) && editMode == old(editMode)
    {
      if data.Some? {
        data := Some(data.value.(zones := UpdateZones(data.value.zones, zoneId, p)));
      }
    }

    /**
     * `+ Zone`: append a 10 by 10 active zone at the origin under the first
     * free `NEW_ZONE_n` name, select it and switch edit mode on.
     */
    method AddZone()
      modifies this
      ensures old(data).None? ==> data == None && selected == old(selected) && editMode == old(editMode)
      ensures old(data).Some? ==>
        var before := old(data).value.zones;
        data.Some? && data.value.warehouseW == old(data).value.warehouseW
        && data.value.warehouseH == old(data).value.warehouseH
        && |data.value.zones| == |before| + 1 && data.value.zones[..|before|] == before
        && var z := data.value.zones[|before|];
           FirstFreeName(before, z.zoneId) && z == ZoneLayoutRoute.Zone(z.zoneId, 0, 0, 10, 10, true)
           && selected == Some(z.zoneId) && SelectedZone() == Some(z) && editMode
      ensures bins == old(bins) && selectedBin == old(selectedBin) && binLots == old(binLots)
    {
      if data.None? {
        return;
      }
      var before := data.value.zones;
      var id := FreshZoneId(before);
      var z := ZoneLayoutRoute.Zone(id, 0, 0, 10, 10, true);
      data := Some(data.value.(zones := before + [z]));
      selected := Some(id);
      editMode := true;
      assert data.value.zones[..|before|] == before;
      assert Find(data.value.zones, id) == Some(z) by {
        var k :| 0 <= k < |data.value.zones| && data.value.zones[k] == Find(data.value.zones, id).value
                 && forall j :: 0 <= j < k ==> data.value.zones[j].zoneId != id;
        if k < |before| {
          assert data.value.zones[k] in before;
        }
      }
    }

    /** A click on a zone selects it and drops the bin selection, unless it landed on a bin tile. */
    method ClickZone(zoneId: string, onBinTile: bool)
      modifies this
      ensures onBinTile ==> selected == old(selected) && selectedBin == old(selectedBin)
      ensures !onBinTile ==> selected == Some(zoneId) && selectedBin == None
      ensures data == old(data) && bins == old(bins) && binLots == old(binLots) && editMode == old(editMode)
    {
      if onBinTile {
        return;
      }
      selected := Some(zoneId);
      selectedBin := None;
    }

    /** A press on the empty stage clears the zone selection; the bin selection stays. */
    method ClickStage(onEmptySpace: bool)
      modifies this
      ensures selected == (if onEmptySpace then None else old(selected))
      ensures data == old(data) && bins == old(bins) && selectedBin == old(selectedBin)
      ensures binLots == old(binLots) && editMode == old(editMode)
    {
      if onEmptySpace {
        selected := None;
      }
    }

    /**
     * A click on a bin tile selects the bin and shows the lots the lot listing
     * returns for it; `lotsTab` is the LOTS tab the listing reads.
     */
    method ClickBinTile(b: Bin, lotsTab: Table)
      modifies this
      ensures selectedBin == Some(b) && binLots == LotsRoute.ListLots(lotsTab, Some(b.binId))
      ensures data == old(data) && bins == old(bins) && selected == old(selected) && editMode == old(editMode)
    {
      selectedBin := Some(b);
      binLots := LotsRoute.ListLots(lotsTab, Some(b.binId));
    }

    /** The end of a drag, possible only in edit mode, where zones are draggable: the zone's x and y become the snapped, clamped drop position. */
    method DragEnd(zoneId: string, px: int, py: int)
      requires editMode
      modifies this
      ensures old(data).None? ==> data == None
      ensures old(data).Some? ==>
        var d := old(data).value;
        var at := DragTarget(px, py, d.warehouseW, d.warehouseH);
        data == Some(d.(zones := UpdateZones(d.zones, zoneId, Patch(None, Some(at.0), Some(at.1), None, None, None))))
      ensures bins == old(bins) && selected == old(selected) && selectedBin == old(selectedBin)
      ensures binLots == old(binLots) && editMode == old(editMode)
    {
      if data.None? {
        return;
      }
      var at := DragTarget(px, py, data.value.warehouseW, data.value.warehouseH);
      UpdateZone(zoneId, Patch(None, Some(at.0), Some(at.1), None, None, None));
    }

    /** The end of a resize, possible only in edit mode, where the resize handles show: the zone's w and h become the snapped, clamped scaled size. */
    method TransformEnd(zoneId: string, wPx: int, hPx: int)
      requires editMode
      modifies this
      ensures old(data).None? ==> data == None
      ensures old(data).Some? ==>
        var d := old(data).value;
        var size := ResizeTarget(wPx, hPx, d.warehouseW, d.warehouseH);
        data == Some(d.(zones := UpdateZones(d.zones, zoneId, Patch(None, None, None, Some(size.0), Some(size.1), None))))
      ensures bins == old(bins) && selected == old(selected) && selectedBin == old(selectedBin)
      ensures binLots == old(binLots) && editMode == old(editMode)
    {
      if data.None? {
        return;
      }
      var size := ResizeTarget(wPx, hPx, data.value.warehouseW, data.value.warehouseH);
      UpdateZone(zoneId, Patch(None, None, None, Some(size.0), Some(size.1), None));
    }

    /**
     * `Rename (local)`: with a zone selected and a non-empty answer `name`,
     * every zone carrying the selected id takes the new name and the selection
     * follows it, so the renamed zone stays selected. The zone panel holding
     * the button is shown only while no bin is selected.
     */
    method Rename(name: string)
      requires selectedBin.None?
      modifies this
      ensures old(SelectedZone()).None? || name == "" ==> data == old(data) && selected == old(selected)
      ensures old(SelectedZone()).Some? && name != "" ==>
        var d := old(data).value;
        data == Some(d.(zones := UpdateZones(d.zones, old(selected).value, Patch(Some(name), None, None, None, None, None))))
        && selected == Some(name) && SelectedZone().Some? && SelectedZone().value.zoneId == name
      ensures bins == old(bins) && selectedBin == old(selectedBin) && binLots == old(binLots)
      ensures editMode == old(editMode)
    {
      var current := SelectedZone();
      if current.None? || name == "" {
        return;
      }
      var zones := data.value.zones;
      var k :| 0 <= k < |zones| && zones[k] == current.value;
      UpdateZone(current.value.zoneId, Patch(Some(name), None, None, None, None, None));
      selected := Some(name);
      assert data.value.zones[k].zoneId == name;
      assert data.value.zones[k] in data.value.zones;
    }

    /**
     * `Deactivate (local)`: once confirmed, the selected zone is marked inactive
     * and deselected. Like `Rename`, it is offered only while no bin is selected.
     */
    method Deactivate(confirmed: bool)
      requires selectedBin.None?
      modifies this
      ensures old(SelectedZone()).None? || !confirmed ==> data == old(data) && selected == old(selected)
      ensures old(SelectedZone()).Some? && confirmed ==>
        var d := old(data).value;
        data == Some(d.(zones := UpdateZones(d.zones, old(selected).value, Patch(None, None, None, None, None, Some(false)))))
        && selected == None
      ensures bins == old(bins) && selectedBin == old(selectedBin) && binLots == old(binLots)
      ensures editMode == old(editMode)
    {
      var current := SelectedZone();
      if current.None? || !confirmed {
        return;
      }
      UpdateZone(current.value.zoneId, Patch(None, None, None, None, None, Some(false)));
      selected := None;
    }

    /**
     * `Save Layout`: post the zones to the layout handler and, when it
     * accepts them, load the layout again with `parse` as the reader's number
     * coercion. A refused save leaves the editor as it was. The button is
     * enabled only in edit mode.
     */
    method Save(wb: Workbook, authorized: bool, parse: string -> Option<int>)
      requires editMode && wb.Valid()
      modifies this, wb
      ensures wb.Valid()
      ensures old(data).None? ==> data == None && wb.zoneLayout == old(wb.zoneLayout)
      ensures old(data).Some? ==>
        var sent := ZoneLayoutRoute.Resubmit(old(data).value.zones);
        var outcome := ZoneLayoutRoute.SaveOutcome(authorized, ZoneLayoutRoute.Parsed(ZoneLayoutRoute.Items(sent)),
                                                   old(wb.zoneLayout));
        wb.zoneLayout == outcome.1
        && data == (if outcome.0.Ok? then Some(ZoneLayoutRoute.Get(parse, outcome.1)) else old(data))
      ensures wb.lots == old(wb.lots) && wb.bins == old(wb.bins)
      ensures bins == old(bins) && selected == old(selected) && selectedBin == old(selectedBin)
      ensures binLots == old(binLots) && editMode == old(editMode)
    {
      if data.None? {
        return;
      }
      var sent := ZoneLayoutRoute.Resubmit(data.value.zones);
      var resp := ZoneLayoutRoute.Save(wb, authorized, ZoneLayoutRoute.Parsed(ZoneLayoutRoute.Items(sent)));
      if resp.Ok? {
        data := Some(ZoneLayoutRoute.Get(parse, wb.zoneLayout));
      }
    }
  }

  /**
   * After a save and reload, the map shows exactly the saved zones that are
   * active, sanitised and in their order: a zone deactivated in the editor is
   * gone from the map, and every other zone with a non-blank name comes back.
   */
  lemma SaveThenReload(zones: seq<Zone>, before: Table)
    ensures var out := ZoneLayoutRoute.SaveOutcome(true, ZoneLayoutRoute.Parsed(ZoneLayoutRoute.Items(ZoneLayoutRoute.Resubmit(zones))), before);
      out.0.Ok? && ZoneLayoutRoute.Get(ParseDecimal, out.1)
        == ZoneLayoutRoute.Layout(WarehouseW, WarehouseH,
                                  Filter(ZoneLayoutRoute.Sanitise(ZoneLayoutRoute.Resubmit(zones)), ZoneLayoutRoute.IsActive()))
    ensures var clean := ZoneLayoutRoute.Sanitise(ZoneLayoutRoute.Resubmit(zones));
      ZoneLayoutRoute.Get(ParseDecimal, ZoneLayoutRoute.SavedTable(clean))
        == ZoneLayoutRoute.Layout(WarehouseW, WarehouseH, Filter(clean, ZoneLayoutRoute.IsActive()))
    ensures forall z :: z in ZoneLayoutRoute.Get(ParseDecimal,
                               ZoneLayoutRoute.SavedTable(ZoneLayoutRoute.Sanitise(ZoneLayoutRoute.Resubmit(zones)))).zones
                        ==> z.active
  {
    ZoneLayoutRoute.SaveThenLoadDecimal(ZoneLayoutRoute.Resubmit(zones));
  }
}

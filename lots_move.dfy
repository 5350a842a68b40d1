/**
 * POST /api/lots/move: find the first LOTS row whose trimmed LotID equals the
 * requested lot id and overwrite that row's BinID cell with the target bin.
 */
module LotsMove {
  import opened Results
  import opened Text
  import opened Sheet
  import opened Store
  import LotsRoute

  /** The success body: `{ success: true, lotId, targetBinId }`. */
  datatype Moved = Moved(lotId: string, targetBinId: string)

  /**
   * The handler as a function of the LOTS tab (read as A:Z): the response and
   * the tab afterwards. `lotId` and `targetBinId` are the body's fields, `""`
   * when missing or falsy.
   */
  function MoveOutcome(authorized: bool, lotId: string, target: string, lots: Table): (r: (Response<Moved>, Table))
    requires Narrow(lots, AtoZ)
    ensures r.0.Fail? ==> r.1 == lots
    ensures r.0.Ok? ==> r.0.body == Moved(lotId, target) && lotId != "" && target != ""
    ensures !authorized ==> r.0 == Fail(401, "Unauthorized")
    ensures authorized && (lotId == "" || target == "") ==> r.0 == Fail(400, "lotId and targetBinId are required")
    ensures authorized && lotId != "" && target != "" && |lots| < 2 ==> r.0 == Fail(404, "No lots found")
    ensures authorized && lotId != "" && target != "" && |lots| >= 2 ==>
      var c := LotsRoute.LocateColumns(lots);
      (c.lot < 0 || c.bin < 0 ==> r.0 == Fail(400, "Missing LotID or BinID column"))
      && (c.lot >= 0 && c.bin >= 0 ==>
            (r.0 == Fail(404, "Lot not found") <==> forall k :: 1 <= k < |lots| ==> !Matches(lots[k], c.lot, lotId))
            && (r.0.Ok? <==> FirstMatch(lots, c.lot, lotId, 1).Some?))
  {
    if !authorized then (Fail(401, "Unauthorized"), lots)
    else if lotId == "" || target == "" then (Fail(400, "lotId and targetBinId are required"), lots)
    else if |lots| < 2 then (Fail(404, "No lots found"), lots)
    else
      var c := LotsRoute.LocateColumns(lots);
      if c.lot < 0 || c.bin < 0 then (Fail(400, "Missing LotID or BinID column"), lots)
      else
        assert |lots[0]| <= AtoZ;
        match FirstMatch(lots, c.lot, lotId, 1)
        case None => (Fail(404, "Lot not found"), lots)
        case Some(k) => (Ok(Moved(lotId, target)), WriteCell(lots, CellUpdate(A1(c.bin, k), target), AtoZ))
  }

  /** The handler: the row scan stops at the first match and writes one cell. */
  method Move(wb: Workbook, authorized: bool, lotId: string, target: string) returns (resp: Response<Moved>)
    requires wb.Valid()
    modifies wb
    ensures wb.Valid()
    ensures (resp, wb.lots) == MoveOutcome(authorized, lotId, target, old(wb.lots))
    ensures wb.bins == old(wb.bins) && wb.zoneLayout == old(wb.zoneLayout)
  {
    if !authorized {
      return Fail(401, "Unauthorized");
    }
    if lotId == "" || target == "" {
      return Fail(400, "lotId and targetBinId are required");
    }
    var values := wb.lots;
    if |values| < 2 {
      return Fail(404, "No lots found");
    }
    var c := LotsRoute.LocateColumns(values);
    if c.lot < 0 || c.bin < 0 {
      return Fail(400, "Missing LotID or BinID column");
    }
    assert |values[0]| <= AtoZ;
    var found := false;
    var rowIdx := 1;
    while rowIdx < |values|
      invariant 1 <= rowIdx <= |values|
      invariant !found && wb.lots == values
      invariant wb.bins == old(wb.bins) && wb.zoneLayout == old(wb.zoneLayout)
      invariant FirstMatch(values, c.lot, lotId, 1) == FirstMatch(values, c.lot, lotId, rowIdx)
    {
      if Field(values[rowIdx], c.lot) == lotId {
        assert FirstMatch(values, c.lot, lotId, 1) == Some(rowIdx);
        wb.Update(Lots, CellUpdate(A1(c.bin, rowIdx), target));
        assert wb.Read(Bins) == old(wb.bins) && wb.Read(ZoneLayout) == old(wb.zoneLayout);
        assert (Ok(Moved(lotId, target)), wb.lots) == MoveOutcome(true, lotId, target, values);
        found := true;
        break;
      }
      rowIdx := rowIdx + 1;
    }
    if !found {
      assert FirstMatch(values, c.lot, lotId, 1).None?;
      return Fail(404, "Lot not found");
    }
    resp := Ok(Moved(lotId, target));
  }

  /** A successful move rewrites the first row carrying the lot id, in its BinID cell only. */
  lemma MovedRow(lotId: string, target: string, lots: Table) returns (k: nat)
    requires Narrow(lots, AtoZ)
    requires MoveOutcome(true, lotId, target, lots).0.Ok?
    ensures var c := LotsRoute.LocateColumns(lots);
      |lots| >= 2 && c.lot >= 0 && c.bin >= 0 && FirstMatch(lots, c.lot, lotId, 1) == Some(k)
      && MoveOutcome(true, lotId, target, lots).1 == lots[k := SetCell(lots[k], c.bin, target)]
  {
    var c := LotsRoute.LocateColumns(lots);
    k := FirstMatch(lots, c.lot, lotId, 1).value;
    assert |lots[0]| <= AtoZ;
  }

  /**
   * A successful move changes exactly one cell: the BinID cell of the first
   * row carrying the lot id now holds the target; every other row, and every
   * other cell of that row, is as before.
   */
  lemma MoveWritesOneCell(lotId: string, target: string, lots: Table)
    requires Narrow(lots, AtoZ)
    requires MoveOutcome(true, lotId, target, lots).0.Ok?
    ensures var c := LotsRoute.LocateColumns(lots);
      var after := MoveOutcome(true, lotId, target, lots).1;
      exists k :: 1 <= k < |lots| && Matches(lots[k], c.lot, lotId)
        && (forall j :: 1 <= j < k ==> !Matches(lots[j], c.lot, lotId))
        && |after| == |lots|
        && (forall j :: 0 <= j < |lots| && j != k ==> after[j] == lots[j])
        && Cell(after[k], c.bin) == target
        && (forall col :: 0 <= col && col != c.bin ==> Cell(after[k], col) == Cell(lots[k], col))
  {
    var c := LotsRoute.LocateColumns(lots);
    var k := MovedRow(lotId, target, lots);
    WriteOneCell(lots, k, c.bin, target);
  }

  /**
   * After a move to a trimmed bin id, listing that bin returns the moved lot:
   * the lot keeps its id and the listing reads the new BinID.
   */
  lemma MoveThenList(lotId: string, target: string, lots: Table)
    requires Narrow(lots, AtoZ)
    requires MoveOutcome(true, lotId, target, lots).0.Ok?
    requires IsTrimmed(target)
    ensures exists l :: (l in LotsRoute.ListLots(MoveOutcome(true, lotId, target, lots).1, Some(target))
                         && l.lotId == lotId && l.binId == target)
  {
    var c := LotsRoute.LocateColumns(lots);
    var k := MovedRow(lotId, target, lots);
    var after := MoveOutcome(true, lotId, target, lots).1;
    assert after[0] == lots[0];
    assert LotsRoute.LocateColumns(after) == c;
    assert c.lot != c.bin;
    assert Field(after[k], c.lot) == lotId;
    TrimIdempotent(target);
    assert Field(after[k], c.bin) == target;
    LotsRoute.FilteredComplete(after, target, k);
    var l := LotsRoute.RowToLot(c, Some(target), after[k]).value;
    assert l.lotId == lotId && l.binId == target;
  }
}

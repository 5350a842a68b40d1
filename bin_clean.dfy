/**
 * POST /api/bin/clean: empty the BinID cell of every LOTS row filed under a
 * bin, in one batch, and unless told otherwise mark the bin's first BINS row
 * with status "EMPTY".
 */
module BinClean {
  import opened Results
  import opened Text
  import opened Sheet
  import opened Store
  import LotsRoute
  import BinsRoute

  /** The body: `binId` (`""` when missing or falsy) and `setEmpty` when it is a boolean. */
  datatype CleanRequest = CleanRequest(binId: string, setEmpty: Option<bool>)

  /** The success body: `{ success: true, cleaned, setEmpty }`. */
  datatype Cleaned = Cleaned(cleaned: nat, setEmpty: bool)

  /** `body.setEmpty !== false`: only an explicit `false` turns the status update off. */
  predicate SetsEmpty(req: CleanRequest) {
    req.setEmpty != Some(false)
  }

  // ------------------------------------------------- clearing the LOTS rows

  /** The row test of the scan: the trimmed `col` cell is `key`. */
  function BinIs(col: int, key: string): Row -> bool {
    row => Matches(row, col, key)
  }

  /** The data rows before row `n` that pass `hit`. */
  function MatchingRows(t: Table, hit: Row -> bool, n: nat): set<nat>
    requires n <= |t|
  {
    set k: nat | 1 <= k < n && hit(t[k])
  }

  /** The reference result: every data row before row `n` passing `hit` has `col` emptied, nothing else changes. */
  function ClearedTable(t: Table, col: nat, hit: Row -> bool, n: nat): (r: Table)
    requires n <= |t|
    ensures |r| == |t|
  {
    seq(|t|, k requires 0 <= k < |t| => if 1 <= k < n && hit(t[k]) then SetCell(t[k], col, "") else t[k])
  }

  /** Emptying a cell inside the first `width` columns keeps the table that narrow. */
  lemma ClearedNarrow(t: Table, col: nat, hit: Row -> bool, n: nat)
    requires col < AtoZ && n <= |t| && Narrow(t, AtoZ)
    ensures Narrow(ClearedTable(t, col, hit, n), AtoZ)
  {
    var r := ClearedTable(t, col, hit, n);
    forall k | 0 <= k < |r| ensures |r[k]| <= AtoZ {
      if 1 <= k < n && hit(t[k]) {
        assert r[k] == SetCell(t[k], col, "");
      }
    }
  }

  /** The batch the scan collects over rows `1 .. n-1`: one `""` write per passing row, in row order. */
  function ClearUpdates(t: Table, col: nat, hit: Row -> bool, n: nat): (us: seq<CellUpdate>)
    requires col < AtoZ && n <= |t|
    ensures forall u :: u in us ==> InRange(t, u.at, AtoZ)
  {
    if n <= 1 then []
    else ClearUpdates(t, col, hit, n - 1)
         + (if hit(t[n - 1]) then [CellUpdate(A1(col, n - 1), "")] else [])
  }

  /** Scanning one more row adds that row's write, if it passes, after the others. */
  lemma ClearUpdatesStep(t: Table, col: nat, hit: Row -> bool, n: nat)
    requires col < AtoZ && 1 <= n < |t|
    ensures ClearUpdates(t, col, hit, n + 1)
      == ClearUpdates(t, col, hit, n) + if hit(t[n]) then [CellUpdate(A1(col, n), "")] else []
  {
  }

  /** The writes for the rows before `n` whose `col` cell carries `binId`. */
  function BinClears(t: Table, col: nat, binId: string, n: nat): seq<CellUpdate>
    requires col < AtoZ && n <= |t|
  {
    ClearUpdates(t, col, BinIs(col, binId), n)
  }

  /** The step above for the bin-id filter, stated with the cell comparison itself. */
  lemma BinStep(t: Table, col: nat, binId: string, n: nat)
    requires col < AtoZ && 1 <= n < |t|
    ensures Matches(t[n], col, binId) ==>
      BinClears(t, col, binId, n + 1) == BinClears(t, col, binId, n) + [CellUpdate(A1(col, n), "")]
    ensures !Matches(t[n], col, binId) ==>
      BinClears(t, col, binId, n + 1) == BinClears(t, col, binId, n)
  {
    ClearUpdatesStep(t, col, BinIs(col, binId), n);
  }

  /** Extending the range over a passing row empties that row's cell. */
  lemma ClearedStepHit(t: Table, col: nat, hit: Row -> bool, n: nat)
    requires col < AtoZ && 2 <= n <= |t| && hit(t[n - 1])
    ensures ClearedTable(t, col, hit, n)
      == WriteCell(ClearedTable(t, col, hit, n - 1), CellUpdate(A1(col, n - 1), ""), AtoZ)
  {
    var mid := ClearedTable(t, col, hit, n - 1);
    var goal := ClearedTable(t, col, hit, n);
    var row := SetCell(t[n - 1], col, "");
    assert mid[n - 1] == t[n - 1];
    assert WriteCell(mid, CellUpdate(A1(col, n - 1), ""), AtoZ) == mid[n - 1 := row];
    forall k | 0 <= k < |t| ensures goal[k] == mid[n - 1 := row][k] {
      if k != n - 1 {
        assert goal[k] == mid[k];
      }
    }
  }

  /** Extending the range over a row that does not pass changes nothing. */
  lemma ClearedStepMiss(t: Table, col: nat, hit: Row -> bool, n: nat)
    requires 2 <= n <= |t| && !hit(t[n - 1])
    ensures ClearedTable(t, col, hit, n) == ClearedTable(t, col, hit, n - 1)
  {
    var mid := ClearedTable(t, col, hit, n - 1);
    var goal := ClearedTable(t, col, hit, n);
    forall k | 0 <= k < |t| ensures goal[k] == mid[k] {
      if k == n - 1 {
        assert goal[k] == t[k];
      } else {
        assert goal[k] == if 1 <= k < n - 1 && hit(t[k]) then SetCell(t[k], col, "") else t[k];
      }
    }
  }

  /** Applying the collected batch gives the reference table. */
  lemma {:induction false} ClearUpdatesWrite(t: Table, col: nat, hit: Row -> bool, n: nat)
    requires col < AtoZ && n <= |t|
    ensures WriteAll(t, ClearUpdates(t, col, hit, n), AtoZ) == ClearedTable(t, col, hit, n)
    decreases n, 1
  {
    if n <= 1 {
      BaseCase(t, col, hit, n);
    } else if hit(t[n - 1]) {
      HitCase(t, col, hit, n);
    } else {
      MissCase(t, col, hit, n);
    }
  }

  /** No rows scanned: no writes, nothing cleared. */
  lemma BaseCase(t: Table, col: nat, hit: Row -> bool, n: nat)
    requires col < AtoZ && n <= 1 && n <= |t|
    ensures WriteAll(t, ClearUpdates(t, col, hit, n), AtoZ) == ClearedTable(t, col, hit, n)
  {
    assert ClearedTable(t, col, hit, n) == t;
  }

  /** One more row that does not pass: no new write, nothing new cleared. */
  lemma {:induction false} MissCase(t: Table, col: nat, hit: Row -> bool, n: nat)
    requires col < AtoZ && 2 <= n <= |t| && !hit(t[n - 1])
    ensures WriteAll(t, ClearUpdates(t, col, hit, n), AtoZ) == ClearedTable(t, col, hit, n)
    decreases n, 0
  {
    ClearUpdatesWrite(t, col, hit, n - 1);
    assert ClearUpdates(t, col, hit, n) == ClearUpdates(t, col, hit, n - 1);
    ClearedStepMiss(t, col, hit, n);
  }

  /** One more passing row: one more write, clearing exactly that row. */
  lemma {:induction false} HitCase(t: Table, col: nat, hit: Row -> bool, n: nat)
    requires col < AtoZ && 2 <= n <= |t| && hit(t[n - 1])
    ensures WriteAll(t, ClearUpdates(t, col, hit, n), AtoZ) == ClearedTable(t, col, hit, n)
    decreases n, 0
  {
    ClearUpdatesWrite(t, col, hit, n - 1);
    var before := ClearUpdates(t, col, hit, n - 1);
    var us := ClearUpdates(t, col, hit, n);
    var u := CellUpdate(A1(col, n - 1), "");
    assert us == before + [u];
    assert us[..|us| - 1] == before;
    ClearedStepHit(t, col, hit, n);
  }

  /** The batch has one write per passing row. */
  lemma {:induction false} ClearUpdatesCount(t: Table, col: nat, hit: Row -> bool, n: nat)
    requires col < AtoZ && n <= |t|
    ensures |ClearUpdates(t, col, hit, n)| == |MatchingRows(t, hit, n)|
  {
    if n <= 1 {
      assert MatchingRows(t, hit, n) == {};
    } else {
      ClearUpdatesCount(t, col, hit, n - 1);
      var prev := MatchingRows(t, hit, n - 1);
      if hit(t[n - 1]) {
        assert MatchingRows(t, hit, n) == prev + {n - 1};
      } else {
        assert MatchingRows(t, hit, n) == prev;
      }
    }
  }

  // ------------------------------------------------- marking the BINS row

  /**
   * The status write on the BINS tab: when it has data rows, both a BinID and
   * a Status column, and a row whose trimmed BinID is `key`, the first such
   * row's Status cell becomes "EMPTY"; otherwise the tab is unchanged.
   */
  function MarkEmpty(bins: Table, key: string): (r: Table)
    requires Narrow(bins, AtoZ)
    ensures |r| == |bins| && Narrow(r, AtoZ)
    ensures |bins| < 2 ==> r == bins
    ensures |bins| >= 2 && (BinsRoute.LocateColumns(bins).bin < 0 || BinsRoute.LocateColumns(bins).status < 0) ==> r == bins
    ensures |bins| >= 2 && FirstMatch(bins, BinsRoute.LocateColumns(bins).bin, key, 1).None? ==> r == bins
  {
    if |bins| < 2 then bins
    else
      var bc := BinsRoute.LocateColumns(bins);
      if bc.bin < 0 || bc.status < 0 then bins
      else
        assert |bins[0]| <= AtoZ;
        match FirstMatch(bins, bc.bin, key, 1)
        case None => bins
        case Some(k) => WriteCell(bins, CellUpdate(A1(bc.status, k), "EMPTY"), AtoZ)
  }

  // ------------------------------------------------- the handler

  /**
   * The LOTS part of the handler: `None` when the tab has data rows but no
   * LotID or BinID column (the 400 answer), otherwise the tab afterwards and
   * the `cleaned` count. A tab without data rows is left alone.
   */
  function LotsPhase(lots: Table, key: string): (r: Option<(Table, nat)>)
    requires Narrow(lots, AtoZ)
    ensures r.Some? ==> Narrow(r.value.0, AtoZ) && |r.value.0| == |lots|
    ensures |lots| < 2 ==> r == Some((lots, 0))
    ensures r.None? <==> |lots| >= 2 && (LotsRoute.LocateColumns(lots).lot < 0 || LotsRoute.LocateColumns(lots).bin < 0)
  {
    if |lots| < 2 then Some((lots, 0))
    else
      var c := LotsRoute.LocateColumns(lots);
      if c.lot < 0 || c.bin < 0 then None
      else
        assert |lots[0]| <= AtoZ;
        var after := ClearedTable(lots, c.bin, BinIs(c.bin, key), |lots|);
        ClearedNarrow(lots, c.bin, BinIs(c.bin, key), |lots|);
        Some((after, |MatchingRows(lots, BinIs(c.bin, key), |lots|)|))
  }

  /**
   * The handler as a function of the LOTS and BINS tabs: the response and
   * both tabs afterwards. A LOTS tab with data rows but without a LotID or
   * BinID column is refused before anything is written, BINS included.
   */
  function CleanOutcome(authorized: bool, req: CleanRequest, lots: Table, bins: Table): (r: (Response<Cleaned>, Table, Table))
    requires Narrow(lots, AtoZ) && Narrow(bins, AtoZ)
    ensures Narrow(r.1, AtoZ) && Narrow(r.2, AtoZ)
    ensures r.0.Fail? ==> r.1 == lots && r.2 == bins
    ensures !authorized ==> r.0 == Fail(401, "Unauthorized")
    ensures authorized && req.binId == "" ==> r.0 == Fail(400, "binId is required")
    ensures authorized && req.binId != "" && |lots| < 2 ==> r.0.Ok? && r.1 == lots && r.0.body.cleaned == 0
    ensures r.0.Ok? ==> r.0.body.setEmpty == SetsEmpty(req)
    ensures r.0.Ok? && !SetsEmpty(req) ==> r.2 == bins
    ensures r.0.Ok? && SetsEmpty(req) ==> r.2 == MarkEmpty(bins, req.binId)
    ensures authorized && req.binId != "" ==> (r.0.Ok? <==> LotsPhase(lots, req.binId).Some?)
    ensures authorized && req.binId != "" && LotsPhase(lots, req.binId).None? ==>
      r.0 == Fail(400, "Missing LotID or BinID column")
  {
    if !authorized then (Fail(401, "Unauthorized"), lots, bins)
    else if req.binId == "" then (Fail(400, "binId is required"), lots, bins)
    else match LotsPhase(lots, req.binId)
      case None => (Fail(400, "Missing LotID or BinID column"), lots, bins)
      case Some((after, cleaned)) =>
        (Ok(Cleaned(cleaned, SetsEmpty(req))), after, if SetsEmpty(req) then MarkEmpty(bins, req.binId) else bins)
  }

  /** The handler: the LOTS scan and batch, then, when asked, the BINS status write. */
  method Clean(wb: Workbook, authorized: bool, req: CleanRequest) returns (resp: Response<Cleaned>)
    requires wb.Valid()
    modifies wb
    ensures wb.Valid()
    ensures (resp, wb.lots, wb.bins) == CleanOutcome(authorized, req, old(wb.lots), old(wb.bins))
    ensures wb.zoneLayout == old(wb.zoneLayout)
  {
    if !authorized {
      return Fail(401, "Unauthorized");
    }
    var binId := req.binId;
    if binId == "" {
      return Fail(400, "binId is required");
    }
    var ok, cleaned := ClearLots(wb, binId);
    if !ok {
      return Fail(400, "Missing LotID or BinID column");
    }
    var setEmpty := SetsEmpty(req);
    if setEmpty {
      MarkBin(wb, binId);
    }
    resp := Ok(Cleaned(cleaned, setEmpty));
  }

  /** The LOTS scan: collect one `""` write per row filed under the bin, then send them as one batch. */
  method ClearLots(wb: Workbook, binId: string) returns (ok: bool, cleaned: nat)
    requires wb.Valid()
    modifies wb
    ensures wb.Valid()
    ensures LotsPhase(old(wb.lots), binId) == if ok then Some((wb.lots, cleaned)) else None
    ensures !ok ==> wb.lots == old(wb.lots)
    ensures wb.bins == old(wb.bins) && wb.zoneLayout == old(wb.zoneLayout)
  {
    var lotsValues := wb.lots;
    cleaned := 0;
    if |lotsValues| < 2 {
      return true, 0;
    }
    var c := LotsRoute.LocateColumns(lotsValues);
    if c.lot < 0 || c.bin < 0 {
      return false, 0;
    }
    assert |lotsValues[0]| <= AtoZ;
    var updates := CollectClears(lotsValues, c.bin, binId);
    ghost var hit := BinIs(c.bin, binId);
    ghost var after := ClearedTable(lotsValues, c.bin, hit, |lotsValues|);
    ClearUpdatesWrite(lotsValues, c.bin, hit, |lotsValues|);
    ClearUpdatesCount(lotsValues, c.bin, hit, |lotsValues|);
    assert LotsPhase(lotsValues, binId) == Some((after, |updates|));
    if |updates| > 0 {
      wb.BatchUpdate(Lots, updates);
      assert wb.Read(Bins) == old(wb.bins) && wb.Read(ZoneLayout) == old(wb.zoneLayout);
      assert wb.lots == after;
      cleaned := |updates|;
    } else {
      assert after == lotsValues;
    }
    ok := true;
  }

  /** The scan over the data rows, collecting the `""` writes for the rows filed under `binId`. */
  method CollectClears(t: Table, col: nat, binId: string) returns (updates: seq<CellUpdate>)
    requires col < AtoZ && |t| >= 1
    ensures updates == ClearUpdates(t, col, BinIs(col, binId), |t|)
  {
    updates := [];
    var rowIdx := 1;
    while rowIdx < |t|
      invariant 1 <= rowIdx <= |t|
      invariant updates == BinClears(t, col, binId, rowIdx)
    {
      BinStep(t, col, binId, rowIdx);
      if Matches(t[rowIdx], col, binId) {
        updates := updates + [CellUpdate(A1(col, rowIdx), "")];
      }
      rowIdx := rowIdx + 1;
    }
  }

  /** The BINS scan: the first row carrying the bin id gets status "EMPTY". */
  method MarkBin(wb: Workbook, binId: string)
    requires wb.Valid()
    modifies wb
    ensures wb.Valid()
    ensures wb.bins == MarkEmpty(old(wb.bins), binId)
    ensures wb.lots == old(wb.lots) && wb.zoneLayout == old(wb.zoneLayout)
  {
    var binsValues := wb.bins;
    if |binsValues| < 2 {
      return;
    }
    var bc := BinsRoute.LocateColumns(binsValues);
    if bc.bin < 0 || bc.status < 0 {
      return;
    }
    assert |binsValues[0]| <= AtoZ;
    var rowIdx := 1;
    while rowIdx < |binsValues|
      invariant 1 <= rowIdx <= |binsValues|
      invariant wb.bins == binsValues
      invariant wb.lots == old(wb.lots) && wb.zoneLayout == old(wb.zoneLayout)
      invariant FirstMatch(binsValues, bc.bin, binId, 1) == FirstMatch(binsValues, bc.bin, binId, rowIdx)
    {
      if Field(binsValues[rowIdx], bc.bin) == binId {
        wb.Update(Bins, CellUpdate(A1(bc.status, rowIdx), "EMPTY"));
        assert wb.Read(Lots) == old(wb.lots) && wb.Read(ZoneLayout) == old(wb.zoneLayout);
        return;
      }
      rowIdx := rowIdx + 1;
    }
  }

  // ------------------------------------------------- properties

  /** The `cleaned` count is the number of data rows whose trimmed BinID was the bin. */
  lemma CleanedCountsMatches(req: CleanRequest, lots: Table, bins: Table)
    requires Narrow(lots, AtoZ) && Narrow(bins, AtoZ)
    requires |lots| >= 2
    requires CleanOutcome(true, req, lots, bins).0.Ok?
    ensures var c := LotsRoute.LocateColumns(lots);
      CleanOutcome(true, req, lots, bins).0.body.cleaned
        == |set k: nat | 1 <= k < |lots| && Matches(lots[k], c.bin, req.binId)|
  {
    var c := LotsRoute.LocateColumns(lots);
    var rows := MatchingRows(lots, BinIs(c.bin, req.binId), |lots|);
    var direct := set k: nat | 1 <= k < |lots| && Matches(lots[k], c.bin, req.binId);
    forall k: nat ensures k in rows <==> k in direct {
    }
    assert rows == direct;
  }

  /**
   * After a clean, the rows that named the bin have an empty BinID and every
   * other cell of the tab is unchanged.
   */
  lemma CleanEmptiesBinCells(req: CleanRequest, lots: Table, bins: Table)
    requires Narrow(lots, AtoZ) && Narrow(bins, AtoZ)
    requires |lots| >= 2
    requires CleanOutcome(true, req, lots, bins).0.Ok?
    ensures var c := LotsRoute.LocateColumns(lots); var after := CleanOutcome(true, req, lots, bins).1;
      |after| == |lots| && after[0] == lots[0]
      && forall k :: 1 <= k < |lots| ==>
           (Matches(lots[k], c.bin, req.binId) ==> Cell(after[k], c.bin) == "")
           && (!Matches(lots[k], c.bin, req.binId) ==> after[k] == lots[k])
           && forall j :: 0 <= j && j != c.bin ==> Cell(after[k], j) == Cell(lots[k], j)
  {
    var c := LotsRoute.LocateColumns(lots);
    assert |lots[0]| <= AtoZ;
    var after := CleanOutcome(true, req, lots, bins).1;
    assert after == ClearedTable(lots, c.bin, BinIs(c.bin, req.binId), |lots|);
    ClearedRows(lots, c.bin, req.binId);
  }

  /** The reference table row by row: matching rows lose the bin cell, the others are untouched. */
  lemma ClearedRows(t: Table, col: nat, key: string)
    ensures var after := ClearedTable(t, col, BinIs(col, key), |t|);
      forall k :: 1 <= k < |t| ==>
        (Matches(t[k], col, key) ==> Cell(after[k], col) == "")
        && (!Matches(t[k], col, key) ==> after[k] == t[k])
        && forall j :: 0 <= j && j != col ==> Cell(after[k], j) == Cell(t[k], j)
  {
    var after := ClearedTable(t, col, BinIs(col, key), |t|);
    forall k | 1 <= k < |t|
      ensures Matches(t[k], col, key) ==> Cell(after[k], col) == ""
      ensures !Matches(t[k], col, key) ==> after[k] == t[k]
      ensures forall j :: 0 <= j && j != col ==> Cell(after[k], j) == Cell(t[k], j)
    {
      assert after[k] == if Matches(t[k], col, key) then SetCell(t[k], col, "") else t[k];
    }
  }

  /** A row after the clean no longer carries the bin: a cleared BinID reads as "", which is not a bin id. */
  lemma ClearedRowMisses(row: Row, col: nat, key: string)
    requires key != ""
    ensures !Matches(if Matches(row, col, key) then SetCell(row, col, "") else row, col, key)
  {
    if Matches(row, col, key) {
      assert Cell(SetCell(row, col, ""), col) == "";
      assert Trim("") == "";
    }
  }

  /** Rows none of which carries the bin give no lot when the listing is narrowed to that bin. */
  lemma NoMatchListsNothing(c: LotsRoute.Columns, rows: seq<Row>, key: string)
    requires key != "" && c.bin >= 0
    requires forall k :: 0 <= k < |rows| ==> !Matches(rows[k], c.bin, key)
    ensures FlatMap(rows, LotsRoute.Projection(c, Some(key))) == []
  {
    var f := LotsRoute.Projection(c, Some(key));
    forall row | row in rows ensures f(row).None? {
      var k :| 0 <= k < |rows| && rows[k] == row;
      assert Field(row, c.bin) != key;
    }
    FlatMapNone(rows, f);
  }

  /** After a clean, the lot listing for the bin is empty. */
  lemma CleanThenListIsEmpty(req: CleanRequest, lots: Table, bins: Table)
    requires Narrow(lots, AtoZ) && Narrow(bins, AtoZ)
    requires CleanOutcome(true, req, lots, bins).0.Ok?
    ensures LotsRoute.ListLots(CleanOutcome(true, req, lots, bins).1, Some(req.binId)) == []
  {
    var key := req.binId;
    if |lots| >= 2 {
      var c := LotsRoute.LocateColumns(lots);
      assert |lots[0]| <= AtoZ;
      var after := ClearedTable(lots, c.bin, BinIs(c.bin, key), |lots|);
      assert CleanOutcome(true, req, lots, bins).1 == after;
      assert after[0] == lots[0];
      assert LotsRoute.LocateColumns(after) == c;
      forall k | 0 <= k < |after[1..]| ensures !Matches(after[1..][k], c.bin, key) {
        assert after[1..][k] == after[k + 1];
        ClearedRowMisses(lots[k + 1], c.bin, key);
      }
      NoMatchListsNothing(c, after[1..], key);
    }
  }

  /** A cleared table has no row left carrying the bin, so clearing it again changes nothing. */
  lemma ClearedTwice(t: Table, col: nat, key: string)
    requires key != ""
    ensures var after := ClearedTable(t, col, BinIs(col, key), |t|);
      MatchingRows(after, BinIs(col, key), |after|) == {}
      && ClearedTable(after, col, BinIs(col, key), |after|) == after
  {
    var hit := BinIs(col, key);
    var after := ClearedTable(t, col, hit, |t|);
    forall k | 1 <= k < |after| ensures !hit(after[k]) {
      ClearedRowMisses(t[k], col, key);
    }
    var again := ClearedTable(after, col, hit, |after|);
    forall k | 0 <= k < |after| ensures again[k] == after[k] {
    }
  }

  /** Cleaning the LOTS tab a second time finds no row and changes nothing. */
  lemma LotsPhaseTwice(lots: Table, key: string)
    requires Narrow(lots, AtoZ) && key != "" && LotsPhase(lots, key).Some?
    ensures var after := LotsPhase(lots, key).value.0; LotsPhase(after, key) == Some((after, 0))
  {
    if |lots| >= 2 {
      var c := LotsRoute.LocateColumns(lots);
      assert |lots[0]| <= AtoZ;
      var after := ClearedTable(lots, c.bin, BinIs(c.bin, key), |lots|);
      assert LotsPhase(lots, key).value.0 == after;
      assert after[0] == lots[0];
      assert LotsRoute.LocateColumns(after) == c;
      ClearedTwice(lots, c.bin, key);
    }
  }

  /** Cleaning a bin twice: the second run finds nothing, writes nothing new, and reports 0. */
  lemma CleanIdempotent(req: CleanRequest, lots: Table, bins: Table)
    requires Narrow(lots, AtoZ) && Narrow(bins, AtoZ)
    requires CleanOutcome(true, req, lots, bins).0.Ok?
    ensures var r := CleanOutcome(true, req, lots, bins);
      CleanOutcome(true, req, r.1, r.2) == (Ok(Cleaned(0, SetsEmpty(req))), r.1, r.2)
  {
    LotsPhaseTwice(lots, req.binId);
    if SetsEmpty(req) {
      MarkEmptyIdempotent(bins, req.binId);
    }
  }

  /** Marking a bin that is already marked changes nothing. */
  lemma MarkEmptyIdempotent(bins: Table, key: string)
    requires Narrow(bins, AtoZ)
    ensures MarkEmpty(MarkEmpty(bins, key), key) == MarkEmpty(bins, key)
  {
    if |bins| >= 2 {
      var bc := BinsRoute.LocateColumns(bins);
      if bc.bin >= 0 && bc.status >= 0 {
        assert |bins[0]| <= AtoZ;
        var m := FirstMatch(bins, bc.bin, key, 1);
        if m.Some? {
          var once := MarkEmpty(bins, key);
          assert once == bins[m.value := SetCell(bins[m.value], bc.status, "EMPTY")];
          assert once[0] == bins[0];
          assert BinsRoute.LocateColumns(once) == bc;
          assert bc.bin != bc.status;
          MarkRowTwice(bins, bc.bin, bc.status, key, m.value);
        }
      }
    }
  }

  /**
   * Writing "EMPTY" into the status cell of the first row carrying `key`
   * leaves that row first, and writing it there again changes nothing.
   */
  lemma MarkRowTwice(bins: Table, binCol: nat, statusCol: nat, key: string, k: nat)
    requires binCol != statusCol && FirstMatch(bins, binCol, key, 1) == Some(k)
    ensures var once := bins[k := SetCell(bins[k], statusCol, "EMPTY")];
      FirstMatch(once, binCol, key, 1) == Some(k)
      && once[k := SetCell(once[k], statusCol, "EMPTY")] == once
  {
    var once := bins[k := SetCell(bins[k], statusCol, "EMPTY")];
    forall j | 1 <= j < |bins| ensures Matches(once[j], binCol, key) == Matches(bins[j], binCol, key) {
      if j == k {
        assert Cell(once[j], binCol) == Cell(bins[j], binCol);
      }
    }
    FirstMatchSame(bins, once, binCol, key, 1);
    assert statusCol < |once[k]| && once[k][statusCol] == "EMPTY";
    assert once[k][statusCol := "EMPTY"] == once[k];
  }

  /** Two tables that agree on which rows match from `from` on have the same first match. */
  lemma {:induction false} FirstMatchSame(s: Table, t: Table, col: int, key: string, from: nat)
    requires |s| == |t|
    requires forall j :: from <= j < |s| ==> Matches(s[j], col, key) == Matches(t[j], col, key)
    ensures FirstMatch(s, col, key, from) == FirstMatch(t, col, key, from)
    decreases |s| - from
  {
    if from < |s| && !Matches(s[from], col, key) {
      FirstMatchSame(s, t, col, key, from + 1);
    }
  }

  /**
   * With `setEmpty` on, the first BINS row carrying the bin id now has status
   * "EMPTY"; every other row is unchanged.
   */
  lemma MarkEmptyWritesStatus(bins: Table, key: string)
    requires Narrow(bins, AtoZ) && |bins| >= 2
    requires BinsRoute.LocateColumns(bins).bin >= 0 && BinsRoute.LocateColumns(bins).status >= 0
    requires FirstMatch(bins, BinsRoute.LocateColumns(bins).bin, key, 1).Some?
    ensures var bc := BinsRoute.LocateColumns(bins); var k := FirstMatch(bins, bc.bin, key, 1).value;
      var after := MarkEmpty(bins, key);
      Cell(after[k], bc.status) == "EMPTY"
      && (forall j :: 0 <= j && j != bc.status ==> Cell(after[k], j) == Cell(bins[k], j))
      && forall j :: 0 <= j < |bins| && j != k ==> after[j] == bins[j]
  {
    var bc := BinsRoute.LocateColumns(bins);
    var k := FirstMatch(bins, bc.bin, key, 1).value;
    assert |bins[0]| <= AtoZ;
    assert MarkEmpty(bins, key) == bins[k := SetCell(bins[k], bc.status, "EMPTY")];
    WriteOneCell(bins, k, bc.status, "EMPTY");
  }
}

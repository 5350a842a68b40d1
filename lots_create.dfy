/**
 * POST /api/lots/create: locate the LOTS columns by case-insensitive header
 * name, build a new row holding the lot id, the bin id and the optional
 * title, status and buyer, and append it after the last row.
 */
module LotsCreate {
  import opened Results
  import opened Text
  import opened Sheet
  import opened Store
  import LotsRoute

  /** The body's fields; `""` stands for a missing or falsy value. */
  datatype CreateRequest = CreateRequest(binId: string, lotId: string, title: string, status: string, buyer: string)

  /** The success body: `{ success: true, lotId, binId }`. */
  datatype Created = Created(lotId: string, binId: string)

  datatype Columns = Columns(lot: int, bin: int, title: int, status: int, buyer: int)

  /** `resp.data.values?.[0] || []`: the header row of A1:Z1, or none. */
  function HeaderOf(lots: Table): Row {
    if |lots| > 0 then lots[0] else []
  }

  function LocateColumns(header: Row): (c: Columns)
    ensures -1 <= c.lot < |header| && -1 <= c.bin < |header| && -1 <= c.title < |header|
    ensures -1 <= c.status < |header| && -1 <= c.buyer < |header|
  {
    Columns(IndexOfIgnoreCase(header, "LotID"), IndexOfIgnoreCase(header, "BinID"),
            IndexOfIgnoreCase(header, "Title"), IndexOfIgnoreCase(header, "Status"),
            IndexOfIgnoreCase(header, "Buyer"))
  }

  /** `Math.max(iLot, iBin, iTitle, iStatus, iBuyer) + 1`, the new row's length. */
  function Span(c: Columns): (n: int)
    ensures n > c.lot && n > c.bin && n > c.title && n > c.status && n > c.buyer
    ensures n - 1 == c.lot || n - 1 == c.bin || n - 1 == c.title || n - 1 == c.status || n - 1 == c.buyer
  {
    var m1 := if c.lot > c.bin then c.lot else c.bin;
    var m2 := if m1 > c.title then m1 else c.title;
    var m3 := if m2 > c.status then m2 else c.status;
    var m4 := if m3 > c.buyer then m3 else c.buyer;
    m4 + 1
  }

  /**
   * Cell `j` of the new row after the writes in the handler's order: lot id,
   * bin id, then title, status and buyer where the column exists and the
   * value is non-empty; a later write to the same column wins.
   */
  function NewCell(c: Columns, req: CreateRequest, j: int): string {
    if j == c.buyer && req.buyer != "" then req.buyer
    else if j == c.status && req.status != "" then req.status
    else if j == c.title && req.title != "" then req.title
    else if j == c.bin then req.binId
    else if j == c.lot then req.lotId
    else ""
  }

  function NewRow(c: Columns, req: CreateRequest): (row: Row)
    requires c.lot >= 0 && c.bin >= 0
    ensures |row| == Span(c)
  {
    seq(Span(c), j requires 0 <= j < Span(c) => NewCell(c, req, j))
  }

  /** The row is built in an array filled with `""` and written cell by cell. */
  method BuildRow(c: Columns, req: CreateRequest) returns (row: Row)
    requires c.lot >= 0 && c.bin >= 0
    ensures row == NewRow(c, req)
  {
    var a := new string[Span(c)](_ => "");
    ghost var s := seq(Span(c), _ => "");
    a[c.lot] := req.lotId;
    a[c.bin] := req.binId;
    s := s[c.lot := req.lotId][c.bin := req.binId];
    assert a[..] == s;
    if c.title >= 0 && req.title != "" {
      a[c.title] := req.title;
      s := s[c.title := req.title];
    }
    assert a[..] == s;
    if c.status >= 0 && req.status != "" {
      a[c.status] := req.status;
      s := s[c.status := req.status];
    }
    assert a[..] == s;
    if c.buyer >= 0 && req.buyer != "" {
      a[c.buyer] := req.buyer;
      s := s[c.buyer := req.buyer];
    }
    row := a[..];
    assert row == s;
    LastWriteWins(c, req);
  }

  /** Writing the five cells in the handler's order leaves in each cell the last value written there. */
  lemma LastWriteWins(c: Columns, req: CreateRequest)
    requires c.lot >= 0 && c.bin >= 0
    ensures var r0 := seq(Span(c), _ => "")[c.lot := req.lotId][c.bin := req.binId];
      var r1 := if c.title >= 0 && req.title != "" then r0[c.title := req.title] else r0;
      var r2 := if c.status >= 0 && req.status != "" then r1[c.status := req.status] else r1;
      var r3 := if c.buyer >= 0 && req.buyer != "" then r2[c.buyer := req.buyer] else r2;
      r3 == NewRow(c, req)
  {
    var r0 := seq(Span(c), _ => "")[c.lot := req.lotId][c.bin := req.binId];
    var r1 := if c.title >= 0 && req.title != "" then r0[c.title := req.title] else r0;
    var r2 := if c.status >= 0 && req.status != "" then r1[c.status := req.status] else r1;
    var r3 := if c.buyer >= 0 && req.buyer != "" then r2[c.buyer := req.buyer] else r2;
    forall j | 0 <= j < Span(c) ensures r3[j] == NewCell(c, req, j) {
    }
  }

  /**
   * The handler as a function of the LOTS tab: the response and the tab
   * afterwards. It succeeds exactly when authorised, both ids are given and
   * both key columns exist; whether the lot id is already in the tab plays no
   * part, so a duplicate lot id is appended like any other.
   */
  function CreateOutcome(authorized: bool, req: CreateRequest, lots: Table): (r: (Response<Created>, Table))
    requires Narrow(lots, AtoZ)
    ensures Narrow(r.1, AtoZ)
    ensures r.0.Fail? ==> r.1 == lots
    ensures !authorized ==> r.0 == Fail(401, "Unauthorized")
    ensures authorized && (req.binId == "" || req.lotId == "") ==> r.0 == Fail(400, "binId and lotId are required")
    ensures var c := LocateColumns(HeaderOf(lots));
      authorized && req.binId != "" && req.lotId != "" && (c.lot < 0 || c.bin < 0)
      ==> r.0 == Fail(400, "Missing LotID or BinID column")
    ensures var c := LocateColumns(HeaderOf(lots));
      r.0.Ok? <==> authorized && req.binId != "" && req.lotId != "" && c.lot >= 0 && c.bin >= 0
    ensures r.0.Ok? ==> (r.0.body == Created(req.lotId, req.binId)
                         && |r.1| == |lots| + 1 && r.1[..|lots|] == lots)
    ensures r.0.Ok? ==> r.1[|lots|] == NewRow(LocateColumns(HeaderOf(lots)), req)
  {
    if !authorized then (Fail(401, "Unauthorized"), lots)
    else if req.binId == "" || req.lotId == "" then (Fail(400, "binId and lotId are required"), lots)
    else
      var c := LocateColumns(HeaderOf(lots));
      if c.lot < 0 || c.bin < 0 then (Fail(400, "Missing LotID or BinID column"), lots)
      else
        assert |HeaderOf(lots)| <= AtoZ;
        var after := lots + [NewRow(c, req)];
        assert after[..|lots|] == lots;
        (Ok(Created(req.lotId, req.binId)), after)
  }

  /** The handler: read the header, build the row, append it. */
  method Create(wb: Workbook, authorized: bool, req: CreateRequest) returns (resp: Response<Created>)
    requires wb.Valid()
    modifies wb
    ensures wb.Valid()
    ensures (resp, wb.lots) == CreateOutcome(authorized, req, old(wb.lots))
    ensures wb.bins == old(wb.bins) && wb.zoneLayout == old(wb.zoneLayout)
  {
    if !authorized {
      return Fail(401, "Unauthorized");
    }
    if req.binId == "" || req.lotId == "" {
      return Fail(400, "binId and lotId are required");
    }
    var c := LocateColumns(HeaderOf(wb.lots));
    if c.lot < 0 || c.bin < 0 {
      return Fail(400, "Missing LotID or BinID column");
    }
    assert |HeaderOf(wb.lots)| <= AtoZ;
    var row := BuildRow(c, req);
    wb.Append(Lots, row);
    assert wb.Read(Bins) == old(wb.bins) && wb.Read(ZoneLayout) == old(wb.zoneLayout);
    resp := Ok(Created(req.lotId, req.binId));
  }

  /** The five located columns are pairwise different wherever they exist. */
  predicate Distinct(c: Columns) {
    (c.lot >= 0 ==> c.lot != c.bin && c.lot != c.title && c.lot != c.status && c.lot != c.buyer)
    && (c.bin >= 0 ==> c.bin != c.title && c.bin != c.status && c.bin != c.buyer)
    && (c.title >= 0 ==> c.title != c.status && c.title != c.buyer)
    && (c.status >= 0 ==> c.status != c.buyer)
  }

  /** No header cell names two of the five fields, so the located columns are distinct. */
  lemma ColumnsDistinct(header: Row)
    ensures Distinct(LocateColumns(header))
  {
    assert Upper("LotID")[0] == 'L' && Upper("BinID")[0] == 'B' && Upper("Title")[0] == 'T';
    assert Upper("Status")[0] == 'S' && Upper("Buyer")[0] == 'B';
    assert Upper("BinID")[1] == 'I' && Upper("Buyer")[1] == 'U';
  }

  /**
   * The appended row holds the lot id under LotID and the bin id under BinID,
   * the title, status and buyer under their columns (`""` when not given),
   * and `""` everywhere else.
   */
  lemma NewRowFields(c: Columns, req: CreateRequest)
    requires c.lot >= 0 && c.bin >= 0 && Distinct(c)
    ensures var row := NewRow(c, req);
      Cell(row, c.lot) == req.lotId && Cell(row, c.bin) == req.binId
      && (c.title >= 0 ==> Cell(row, c.title) == req.title)
      && (c.status >= 0 ==> Cell(row, c.status) == req.status)
      && (c.buyer >= 0 ==> Cell(row, c.buyer) == req.buyer)
      && forall j :: 0 <= j && j != c.lot && j != c.bin && j != c.title && j != c.status && j != c.buyer
           ==> Cell(row, j) == ""
  {
    var row := NewRow(c, req);
    assert row[c.lot] == NewCell(c, req, c.lot);
    assert row[c.bin] == NewCell(c, req, c.bin);
    if c.title >= 0 {
      assert row[c.title] == NewCell(c, req, c.title);
    }
    if c.status >= 0 {
      assert row[c.status] == NewCell(c, req, c.status);
    }
    if c.buyer >= 0 {
      assert row[c.buyer] == NewCell(c, req, c.buyer);
    }
    forall j | 0 <= j && j != c.lot && j != c.bin && j != c.title && j != c.status && j != c.buyer
      ensures Cell(row, j) == ""
    {
      if j < |row| {
        assert row[j] == NewCell(c, req, j);
      }
    }
  }

  /**
   * When the header names LotID and BinID exactly, so that the lot listing
   * finds the same columns, a lot created with trimmed ids is listed under
   * its bin right afterwards.
   */
  lemma CreateThenList(req: CreateRequest, lots: Table)
    requires Narrow(lots, AtoZ)
    requires CreateOutcome(true, req, lots).0.Ok?
    requires |lots| >= 1
    requires LotsRoute.LocateColumns(lots).lot == LocateColumns(lots[0]).lot
    requires LotsRoute.LocateColumns(lots).bin == LocateColumns(lots[0]).bin
    requires IsTrimmed(req.lotId) && IsTrimmed(req.binId)
    ensures exists l :: (l in LotsRoute.ListLots(CreateOutcome(true, req, lots).1, Some(req.binId))
                         && l.lotId == req.lotId && l.binId == req.binId)
  {
    var c := LocateColumns(lots[0]);
    var after := CreateOutcome(true, req, lots).1;
    var k := |lots|;
    assert after[0] == lots[0];
    var lc := LotsRoute.LocateColumns(after);
    assert lc == LotsRoute.LocateColumns(lots);
    ColumnsDistinct(lots[0]);
    NewRowFields(c, req);
    assert after[k] == NewRow(c, req);
    TrimIdempotent(req.lotId);
    TrimIdempotent(req.binId);
    assert Field(after[k], lc.lot) == req.lotId;
    assert Field(after[k], lc.bin) == req.binId;
    LotsRoute.FilteredComplete(after, req.binId, k);
    var l := LotsRoute.RowToLot(lc, Some(req.binId), after[k]).value;
    assert l.lotId == req.lotId && l.binId == req.binId;
  }
}

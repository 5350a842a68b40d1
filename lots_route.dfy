/**
 * GET /api/lots: the LOTS tab projected into lot records, optionally narrowed
 * to one bin. Rows without a lot id, or without a bin, are never returned.
 */
module LotsRoute {
  import opened Results
  import opened Text
  import opened Sheet

  /** Optional fields are `None` (undefined) exactly when their column is absent. */
  datatype Lot = Lot(lotId: string, binId: string, title: Option<string>, status: Option<string>,
                     buyer: Option<string>, folderUrl: Option<string>)

  datatype Columns = Columns(lot: int, bin: int, title: int, status: int, buyer: int, folderUrl: int)

  function LocateColumns(values: Table): Columns
    requires |values| >= 1
  {
    var header := TrimmedHeader(values);
    Columns(IndexOf(header, "LotID"), IndexOf(header, "BinID"), IndexOf(header, "Title"),
            IndexOf(header, "Status"), IndexOf(header, "Buyer"), IndexOf(header, "FolderURL"))
  }

  /**
   * `searchParams.get("bin") || searchParams.get("binId")`: the `bin` query
   * parameter unless it is absent or empty, else `binId`.
   */
  function BinFilter(bin: Option<string>, binId: Option<string>): (f: Option<string>)
    ensures f == bin || f == binId
    ensures f.Some? && f.value == "" ==> binId == f
    ensures bin.Some? && bin.value != "" ==> f == bin
    ensures !(bin.Some? && bin.value != "") ==> f == binId
  {
    if bin.Some? && bin.value != "" then bin else binId
  }

  /** The filter narrows the list only when it is a non-empty string. */
  predicate Filters(filter: Option<string>) {
    filter.Some? && filter.value != ""
  }

  /** `i >= 0 ? String(row[i] || "").trim() : undefined` */
  function OptionalField(row: Row, i: int): Option<string> {
    if i >= 0 then Some(Field(row, i)) else None
  }

  function RowToLot(c: Columns, filter: Option<string>, row: Row): Option<Lot> {
    var lotId := Field(row, c.lot);
    var lotBinId := Field(row, c.bin);
    if lotId == "" then None
    else if Filters(filter) && lotBinId != filter.value then None
    else if lotBinId == "" then None
    else Some(Lot(lotId, lotBinId, OptionalField(row, c.title), OptionalField(row, c.status),
                  OptionalField(row, c.buyer), OptionalField(row, c.folderUrl)))
  }

  function Projection(c: Columns, filter: Option<string>): Row -> Option<Lot> {
    row => RowToLot(c, filter, row)
  }

  /** The `lots` array of the response. */
  function ListLots(values: Table, filter: Option<string>): (lots: seq<Lot>)
    ensures |values| < 2 ==> lots == []
    ensures |values| >= 2 ==> |lots| <= |values| - 1
    ensures forall l :: l in lots ==>
      l.lotId != "" && l.binId != "" && IsTrimmed(l.lotId) && IsTrimmed(l.binId)
    ensures Filters(filter) ==> forall l :: l in lots ==> l.binId == filter.value
    ensures |values| >= 2 ==> var c := LocateColumns(values);
      forall l :: l in lots ==>
        (l.title.Some? <==> c.title >= 0) && (l.status.Some? <==> c.status >= 0)
        && (l.buyer.Some? <==> c.buyer >= 0) && (l.folderUrl.Some? <==> c.folderUrl >= 0)
  {
    if |values| < 2 then []
    else
      ProjectedLots(LocateColumns(values), filter, values[1..]);
      FlatMap(values[1..], Projection(LocateColumns(values), filter))
  }

  /** What every projected lot carries: ids present and trimmed, the filter's bin, optional fields as the columns. */
  lemma ProjectedLots(c: Columns, filter: Option<string>, rows: seq<Row>)
    ensures forall l :: l in FlatMap(rows, Projection(c, filter)) ==>
      l.lotId != "" && l.binId != "" && IsTrimmed(l.lotId) && IsTrimmed(l.binId)
      && (Filters(filter) ==> l.binId == filter.value)
      && (l.title.Some? <==> c.title >= 0) && (l.status.Some? <==> c.status >= 0)
      && (l.buyer.Some? <==> c.buyer >= 0) && (l.folderUrl.Some? <==> c.folderUrl >= 0)
  {
    forall l | l in FlatMap(rows, Projection(c, filter))
      ensures l.lotId != "" && l.binId != "" && IsTrimmed(l.lotId) && IsTrimmed(l.binId)
      ensures Filters(filter) ==> l.binId == filter.value
      ensures (l.title.Some? <==> c.title >= 0) && (l.status.Some? <==> c.status >= 0)
      ensures (l.buyer.Some? <==> c.buyer >= 0) && (l.folderUrl.Some? <==> c.folderUrl >= 0)
    {
      var i := FlatMapSource(rows, Projection(c, filter), l);
      assert RowToLot(c, filter, rows[i]) == Some(l);
    }
  }

  /** The handler: the query parameters choose the filter. */
  function Get(values: Table, bin: Option<string>, binId: Option<string>): seq<Lot> {
    ListLots(values, BinFilter(bin, binId))
  }

  function InBin(f: string): Lot -> bool {
    (l: Lot) => l.binId == f
  }

  /**
   * Filtering by a bin returns exactly the unfiltered list's lots in that bin,
   * in the same order.
   */
  lemma FilteredIsSublist(values: Table, f: string)
    requires f != ""
    ensures ListLots(values, Some(f)) == Filter(ListLots(values, None), InBin(f))
  {
    if |values| >= 2 {
      var c := LocateColumns(values);
      FlatMapThenFilter(values[1..], Projection(c, None), Projection(c, Some(f)), InBin(f));
    }
  }

  /** Without a filter, every data row with a non-empty lot id and bin is returned. */
  lemma UnfilteredComplete(values: Table, k: int)
    requires 1 <= k < |values|
    requires var c := LocateColumns(values); Field(values[k], c.lot) != "" && Field(values[k], c.bin) != ""
    ensures RowToLot(LocateColumns(values), None, values[k]).Some?
    ensures RowToLot(LocateColumns(values), None, values[k]).value in ListLots(values, None)
  {
    assert values[k] in values[1..] by { assert values[1..][k - 1] == values[k]; }
    FlatMapComplete(values[1..], Projection(LocateColumns(values), None), values[k]);
  }

  /** With a filter, every data row with a non-empty lot id filed under that bin is returned. */
  lemma FilteredComplete(values: Table, f: string, k: int)
    requires 1 <= k < |values| && f != ""
    requires var c := LocateColumns(values); Field(values[k], c.lot) != "" && Field(values[k], c.bin) == f
    ensures RowToLot(LocateColumns(values), Some(f), values[k]).Some?
    ensures RowToLot(LocateColumns(values), Some(f), values[k]).value in ListLots(values, Some(f))
  {
    assert values[k] in values[1..] by { assert values[1..][k - 1] == values[k]; }
    FlatMapComplete(values[1..], Projection(LocateColumns(values), Some(f)), values[k]);
  }

  /** `l` is the lot read from `row`: its id, bin and optional fields are that row's cells. */
  predicate ReadFrom(c: Columns, row: Row, l: Lot) {
    l == Lot(Field(row, c.lot), Field(row, c.bin), OptionalField(row, c.title),
             OptionalField(row, c.status), OptionalField(row, c.buyer), OptionalField(row, c.folderUrl))
  }

  /** A lot projected out of `rows` was read from one of them. */
  lemma RowSound(c: Columns, filter: Option<string>, rows: seq<Row>, l: Lot) returns (i: nat)
    requires l in FlatMap(rows, Projection(c, filter))
    ensures i < |rows| && ReadFrom(c, rows[i], l)
  {
    i := FlatMapSource(rows, Projection(c, filter), l);
    assert RowToLot(c, filter, rows[i]) == Some(l);
  }

  /** Every returned lot is the projection of one data row. */
  lemma LotsSound(values: Table, filter: Option<string>, l: Lot)
    requires l in ListLots(values, filter)
    ensures |values| >= 2
    ensures exists k :: 1 <= k < |values| && ReadFrom(LocateColumns(values), values[k], l)
  {
    var i := RowSound(LocateColumns(values), filter, values[1..], l);
    assert values[1..][i] == values[i + 1];
  }

  /** Rows appended under the same header add their lots after the existing ones. */
  lemma LotsFollowRowOrder(values: Table, more: Table, filter: Option<string>)
    requires |values| >= 1
    ensures ListLots(values + more, filter) == ListLots(values, filter) + ListLots([values[0]] + more, filter)
  {
    var all := values + more;
    var first := [values[0]] + more;
    var c := LocateColumns(values);
    assert all[0] == values[0] && first[0] == values[0];
    assert all[1..] == values[1..] + more;
    assert first[1..] == more;
    ListLotsOfRows(values, filter);
    ListLotsOfRows(first, filter);
    ListLotsOfRows(all, filter);
    FlatMapAppend(values[1..], more, Projection(c, filter));
  }

  /** With a header row present, the listing is the projection of the rows below it. */
  lemma ListLotsOfRows(values: Table, filter: Option<string>)
    requires |values| >= 1
    ensures ListLots(values, filter) == FlatMap(values[1..], Projection(LocateColumns(values), filter))
  {
    if |values| < 2 {
      assert values[1..] == [];
    }
  }
}

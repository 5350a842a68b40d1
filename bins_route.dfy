/**
 * GET /api/bins: the BINS tab projected into bin records. Columns are found
 * by exact (trimmed) header name; rows without a bin id or a zone are dropped.
 */
module BinsRoute {
  import opened Results
  import opened Text
  import opened Sheet

  datatype Bin = Bin(binId: string, zone: string, status: string, position: string, size: string)

  /** Where each field's column is; -1 when the header lacks it. */
  datatype Columns = Columns(bin: int, zone: int, status: int, position: int, size: int)

  function LocateColumns(values: Table): Columns
    requires |values| >= 1
  {
    var header := TrimmedHeader(values);
    Columns(IndexOf(header, "BinID"), IndexOf(header, "Zone"), IndexOf(header, "Status"),
            IndexOf(header, "Position"), IndexOf(header, "Size"))
  }

  /** One data row: a bin when its trimmed id and zone are both non-empty. */
  function RowToBin(c: Columns, row: Row): Option<Bin> {
    var binId := Field(row, c.bin);
    var zone := Field(row, c.zone);
    if binId == "" || zone == "" then None
    else Some(Bin(binId, zone, Field(row, c.status), Field(row, c.position), Field(row, c.size)))
  }

  function Projection(c: Columns): Row -> Option<Bin> {
    row => RowToBin(c, row)
  }

  /** Every field is trimmed text, and the key fields are non-empty. */
  predicate WellFormed(b: Bin) {
    b.binId != "" && b.zone != ""
    && IsTrimmed(b.binId) && IsTrimmed(b.zone)
    && IsTrimmed(b.status) && IsTrimmed(b.position) && IsTrimmed(b.size)
  }

  /** The `bins` array of the response, for the A:Z values of the tab. */
  function ListBins(values: Table): (bins: seq<Bin>)
    ensures |values| < 2 ==> bins == []
    ensures |values| >= 2 ==> |bins| <= |values| - 1
    ensures forall b :: b in bins ==> WellFormed(b)
  {
    if |values| < 2 then []
    else FlatMap(values[1..], Projection(LocateColumns(values)))
  }

  /** `b` is the bin read from `row`: every field is that row's trimmed cell. */
  predicate ReadFrom(c: Columns, row: Row, b: Bin) {
    b == Bin(Field(row, c.bin), Field(row, c.zone), Field(row, c.status), Field(row, c.position), Field(row, c.size))
  }

  /** A bin projected out of `rows` was read from one of them. */
  lemma RowSound(c: Columns, rows: seq<Row>, b: Bin) returns (i: nat)
    requires b in FlatMap(rows, Projection(c))
    ensures i < |rows| && ReadFrom(c, rows[i], b)
  {
    i := FlatMapSource(rows, Projection(c), b);
    assert RowToBin(c, rows[i]) == Some(b);
  }

  /**
   * Every listed bin is the projection of one data row: its id and zone are
   * that row's trimmed cells, and status, position and size its trimmed cells
   * or "" where the column is absent.
   */
  lemma BinsSound(values: Table, b: Bin)
    requires b in ListBins(values)
    ensures |values| >= 2
    ensures exists k :: 1 <= k < |values| && ReadFrom(LocateColumns(values), values[k], b)
  {
    var i := RowSound(LocateColumns(values), values[1..], b);
    assert values[1..][i] == values[i + 1];
  }

  /** Every data row with a non-empty trimmed id and zone is listed. */
  lemma BinsComplete(values: Table, k: int)
    requires 1 <= k < |values|
    requires var c := LocateColumns(values); Field(values[k], c.bin) != "" && Field(values[k], c.zone) != ""
    ensures RowToBin(LocateColumns(values), values[k]).Some?
    ensures RowToBin(LocateColumns(values), values[k]).value in ListBins(values)
  {
    assert values[k] in values[1..] by { assert values[1..][k - 1] == values[k]; }
    FlatMapComplete(values[1..], Projection(LocateColumns(values)), values[k]);
  }

  /** Without a BinID or a Zone column no row qualifies, so the list is empty. */
  lemma BinsNeedKeyColumns(values: Table)
    requires |values| >= 1
    requires LocateColumns(values).bin < 0 || LocateColumns(values).zone < 0
    ensures ListBins(values) == []
  {
    if |values| >= 2 {
      FlatMapNone(values[1..], Projection(LocateColumns(values)));
    }
  }

  /**
   * Rows appended under the same header add their bins after the existing
   * ones: the list follows sheet order and the header itself is never a bin.
   */
  lemma BinsFollowRowOrder(values: Table, more: Table)
    requires |values| >= 1
    ensures ListBins(values + more) == ListBins(values) + ListBins([values[0]] + more)
  {
    var all := values + more;
    assert all[0] == values[0];
    assert ([values[0]] + more)[0] == values[0];
    assert LocateColumns(all) == LocateColumns(values) == LocateColumns([values[0]] + more);
    var f := Projection(LocateColumns(values));
    if |all| >= 2 {
      assert all[1..] == values[1..] + more;
      FlatMapAppend(values[1..], more, f);
      assert ([values[0]] + more)[1..] == more;
      if |values| < 2 {
        assert values[1..] == [];
      }
      if |more| == 0 {
        assert more == [];
      }
    }
  }
}

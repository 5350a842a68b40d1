/**
 * The ZONE_LAYOUT tab's layout, shared by both zone GET handlers and the
 * layout save: the six header names and the "is this row active" rule.
 */
module ZoneSheet {
  import opened Results
  import opened Text
  import opened Sheet

  /** The header row the save writes to A1:F1. */
  const Header: Row := ["ZoneID", "X", "Y", "Width", "Height", "Active"]

  datatype Columns = Columns(zone: int, x: int, y: int, w: int, h: int, active: int)

  function LocateColumns(values: Table): Columns
    requires |values| >= 1
  {
    var header := TrimmedHeader(values);
    Columns(IndexOf(header, "ZoneID"), IndexOf(header, "X"), IndexOf(header, "Y"),
            IndexOf(header, "Width"), IndexOf(header, "Height"), IndexOf(header, "Active"))
  }

  /**
   * `(iActive >= 0 ? String(row[iActive] ?? "TRUE").toUpperCase() : "TRUE") !== "FALSE"`:
   * a row is active unless its Active cell upper-cases to "FALSE".
   */
  predicate RowIsActive(row: Row, active: int) {
    active < 0 || Upper(RawCell(row, active).GetOr("TRUE")) != "FALSE"
  }

  /**
   * Only an Active cell reading "false" in some letter case hides a row; an
   * absent column or a missing cell counts as active.
   */
  lemma InactiveOnlyWhenFalse(row: Row, active: int)
    ensures !RowIsActive(row, active) <==> 0 <= active < |row| && Upper(row[active]) == "FALSE"
  {
    if 0 <= active && active >= |row| {
      assert RawCell(row, active).GetOr("TRUE") == "TRUE";
      assert Upper("TRUE")[0] == 'T';
    }
  }

  /** The saved header puts every column at its fixed place. */
  lemma HeaderColumns(rows: Table)
    ensures LocateColumns([Header] + rows) == Columns(0, 1, 2, 3, 4, 5)
  {
    var values := [Header] + rows;
    assert values[0] == Header;
    HeaderTrimmed();
    assert TrimmedHeader(values) == Header;
    HeaderPosition(0);
    HeaderPosition(1);
    HeaderPosition(2);
    HeaderPosition(3);
    HeaderPosition(4);
    HeaderPosition(5);
  }

  /** Every header name is already trimmed. */
  lemma HeaderTrimmed()
    ensures forall j :: 0 <= j < |Header| ==> Trim(Header[j]) == Header[j]
  {
    forall j | 0 <= j < |Header| ensures Trim(Header[j]) == Header[j] {
      assert IsTrimmed(Header[j]);
      TrimIdempotent(Header[j]);
    }
  }

  /** Each header name is found at its own position: no name repeats an earlier one. */
  lemma HeaderPosition(i: nat)
    requires i < |Header|
    ensures IndexOf(Header, Header[i]) == i
  {
    IndexOfAt(Header, Header[i], i);
  }
}

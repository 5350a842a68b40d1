/**
 * The backing spreadsheet, in memory: the three tabs and the four kinds of
 * write the handlers issue (`values.update` of one cell or of whole rows,
 * `values.batchUpdate`, `values.append`, `values.clear`).
 */
module Store {
  import opened Sheet

  datatype Tab = Lots | Bins | ZoneLayout

  /** One entry of a write request: the address and the text to put there. */
  datatype CellUpdate = CellUpdate(at: CellRef, value: string)

  /** The columns each tab is read and written through (A:Z, or A:F for the layout). */
  function Width(tab: Tab): nat {
    if tab == ZoneLayout then AtoF else AtoZ
  }

  /** The address names an existing row and a column inside the tab's range. */
  predicate InRange(t: Table, ref: CellRef, width: nat) {
    0 <= ColumnIndex(ref.column) < width && 1 <= ref.row <= |t|
  }

  function WriteCell(t: Table, u: CellUpdate, width: nat): (r: Table)
    requires InRange(t, u.at, width)
    ensures |r| == |t|
    ensures Narrow(t, width) ==> Narrow(r, width)
  {
    t[u.at.row - 1 := SetCell(t[u.at.row - 1], ColumnIndex(u.at.column), u.value)]
  }

  /** The cells of a batch written in order, each over the result of the ones before. */
  function WriteAll(t: Table, us: seq<CellUpdate>, width: nat): (r: Table)
    requires forall k :: 0 <= k < |us| ==> InRange(t, us[k].at, width)
    ensures |r| == |t|
    ensures Narrow(t, width) ==> Narrow(r, width)
    decreases |us|
  {
    if us == [] then t
    else
      var before := WriteAll(t, us[..|us| - 1], width);
      assert InRange(t, us[|us| - 1].at, width);
      WriteCell(before, us[|us| - 1], width)
  }

  class Workbook {
    var lots: Table
    var bins: Table
    /** The A:F part of ZONE_LAYOUT, without the blank rows a clear leaves behind. */
    var zoneLayout: Table

    /** Every tab holds only the columns it is read through. */
    predicate Valid()
      reads this
    {
      Narrow(lots, AtoZ) && Narrow(bins, AtoZ) && Narrow(zoneLayout, AtoF)
    }

    function Read(tab: Tab): Table
      reads this
    {
      match tab
      case Lots => lots
      case Bins => bins
      case ZoneLayout => zoneLayout
    }

    constructor(lots: Table, bins: Table, zoneLayout: Table)
      requires Narrow(lots, AtoZ) && Narrow(bins, AtoZ) && Narrow(zoneLayout, AtoF)
      ensures Valid()
      ensures this.lots == lots && this.bins == bins && this.zoneLayout == zoneLayout
    {
      this.lots := lots;
      this.bins := bins;
      this.zoneLayout := zoneLayout;
    }

    method Write(tab: Tab, t: Table)
      requires Narrow(t, Width(tab))
      requires Valid()
      modifies this
      ensures Valid()
      ensures Read(tab) == t
      ensures forall other :: other != tab ==> Read(other) == old(Read(other))
    {
      match tab
      case Lots => lots := t;
      case Bins => bins := t;
      case ZoneLayout => zoneLayout := t;
    }

    /** `values.update` of a single cell. */
    method Update(tab: Tab, u: CellUpdate)
      requires Valid() && InRange(Read(tab), u.at, Width(tab))
      modifies this
      ensures Valid()
      ensures Read(tab) == WriteCell(old(Read(tab)), u, Width(tab))
      ensures forall other :: other != tab ==> Read(other) == old(Read(other))
    {
      Write(tab, WriteCell(Read(tab), u, Width(tab)));
    }

    /** `values.batchUpdate`: every listed cell, in order. */
    method BatchUpdate(tab: Tab, us: seq<CellUpdate>)
      requires Valid() && forall k :: 0 <= k < |us| ==> InRange(Read(tab), us[k].at, Width(tab))
      modifies this
      ensures Valid()
      ensures Read(tab) == WriteAll(old(Read(tab)), us, Width(tab))
      ensures forall other :: other != tab ==> Read(other) == old(Read(other))
    {
      Write(tab, WriteAll(Read(tab), us, Width(tab)));
    }

    /** `values.append` of one row after the last row of the tab. */
    method Append(tab: Tab, row: Row)
      requires Valid() && |row| <= Width(tab)
      modifies this
      ensures Valid()
      ensures Read(tab) == old(Read(tab)) + [row]
      ensures forall other :: other != tab ==> Read(other) == old(Read(other))
    {
      Write(tab, Read(tab) + [row]);
    }

    /**
     * `values.update` of the block of rows starting at 1-based row `first`:
     * those rows are replaced, the ones before and after are kept.
     */
    method UpdateRows(tab: Tab, first: nat, rows: Table)
      requires Valid() && 1 <= first <= |Read(tab)| + 1 && Narrow(rows, Width(tab))
      modifies this
      ensures Valid()
      ensures Read(tab) == old(Read(tab))[..first - 1] + rows
                          + (if |old(Read(tab))| > first - 1 + |rows| then old(Read(tab))[first - 1 + |rows|..] else [])
      ensures forall other :: other != tab ==> Read(other) == old(Read(other))
    {
      var t := Read(tab);
      var after := if |t| > first - 1 + |rows| then t[first - 1 + |rows|..] else [];
      Write(tab, t[..first - 1] + rows + after);
    }

    /** `values.clear` of every row from 1-based row `first` on: those rows read back as absent. */
    method ClearFrom(tab: Tab, first: nat)
      requires Valid() && 1 <= first
      modifies this
      ensures Valid()
      ensures Read(tab) == if |old(Read(tab))| >= first then old(Read(tab))[..first - 1] else old(Read(tab))
      ensures forall other :: other != tab ==> Read(other) == old(Read(other))
    {
      var t := Read(tab);
      Write(tab, if |t| >= first then t[..first - 1] else t);
    }
  }
}

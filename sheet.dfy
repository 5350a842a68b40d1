/**
 * A spreadsheet tab as the handlers see it after a `values.get`: a sequence of
 * rows of cell text, row 0 being the header. Rows may be shorter than the
 * header; a missing cell reads as `""` (`row[i] || ""`) or as `undefined`.
 */
module Sheet {
  import opened Results
  import opened Text

  type Row = seq<string>
  type Table = seq<Row>

  /** Columns A to Z: the range the LOTS and BINS handlers read and write. */
  const AtoZ: nat := 26
  /** Columns A to F: the range the zone handlers read and write. */
  const AtoF: nat := 6

  /** No row of `t` has cells beyond the first `width` columns. */
  predicate Narrow(t: Table, width: nat) {
    forall k :: 0 <= k < |t| ==> |t[k]| <= width
  }

  /** `String(row[i] || "")`: the cell text, or `""` past the end of a short row. */
  function Cell(row: Row, i: int): string {
    if 0 <= i < |row| then row[i] else ""
  }

  /** `row[i]` itself: `undefined` (here `None`) past the end of a short row. */
  function RawCell(row: Row, i: int): Option<string> {
    if 0 <= i < |row| then Some(row[i]) else None
  }

  /** `i >= 0 ? String(row[i] || "").trim() : ""`: a column read that tolerates an absent column. */
  function Field(row: Row, i: int): (s: string)
    ensures IsTrimmed(s)
    ensures i < 0 || i >= |row| ==> s == ""
  {
    if i >= 0 then Trim(Cell(row, i)) else ""
  }

  /** `values[0].map(h => String(h || "").trim())` */
  function TrimmedHeader(values: Table): seq<string>
    requires |values| >= 1
  {
    seq(|values[0]|, j requires 0 <= j < |values[0]| => Trim(values[0][j]))
  }

  /** `header.indexOf(name)`: the first exact match, or -1 when there is none. */
  function IndexOf(header: seq<string>, name: string): (r: int)
    ensures -1 <= r < |header|
    ensures r == -1 <==> name !in header
    ensures r >= 0 ==> header[r] == name && name !in header[..r]
  {
    if header == [] then -1
    else if header[0] == name then 0
    else
      var k := IndexOf(header[1..], name);
      assert header[1..][..if k < 0 then 0 else k] == header[1..if k < 0 then 1 else k + 1];
      if k < 0 then -1 else k + 1
  }

  /** The header cell names `name` when both are trimmed and upper-cased. */
  predicate NamesIgnoringCase(h: string, name: string) {
    Upper(Trim(h)) == Upper(name)
  }

  /**
   * `header.findIndex(h => String(h || "").trim().toUpperCase() === name.toUpperCase())`:
   * the first header cell naming `name` in any letter case, or -1.
   */
  function IndexOfIgnoreCase(header: Row, name: string): (r: int)
    ensures -1 <= r < |header|
    ensures r >= 0 ==> NamesIgnoringCase(header[r], name)
    ensures forall j :: 0 <= j < |header| && (r < 0 || j < r) ==> !NamesIgnoringCase(header[j], name)
  {
    if header == [] then -1
    else if NamesIgnoringCase(header[0], name) then 0
    else
      var k := IndexOfIgnoreCase(header[1..], name);
      if k < 0 then -1 else k + 1
  }

  /** `name` found at `i` and nowhere before is found at `i`. */
  lemma IndexOfAt(header: seq<string>, name: string, i: nat)
    requires i < |header| && header[i] == name
    requires forall j :: 0 <= j < i ==> header[j] != name
    ensures IndexOf(header, name) == i
  {
    assert name in header;
  }

  /** `String(row[col] || "").trim() === key`, the row test of the scans in move and clean. */
  predicate Matches(row: Row, col: int, key: string) {
    Trim(Cell(row, col)) == key
  }

  /** The first row at or after `from` whose trimmed `col` cell equals `key`. */
  function FirstMatch(values: Table, col: int, key: string, from: nat): (r: Option<nat>)
    ensures r.Some? ==> from <= r.value < |values| && Matches(values[r.value], col, key)
    ensures r.Some? ==> forall k :: from <= k < r.value ==> !Matches(values[k], col, key)
    ensures r.None? ==> forall k :: from <= k < |values| ==> !Matches(values[k], col, key)
    decreases |values| - from
  {
    if from >= |values| then None
    else if Matches(values[from], col, key) then Some(from)
    else FirstMatch(values, col, key, from + 1)
  }

  /**
   * Writing `v` into column `i` of a row: a short row grows, with `""` in the
   * cells between its old end and `i`.
   */
  function SetCell(row: Row, i: nat, v: string): (r: Row)
    ensures |r| == if i < |row| then |row| else i + 1
    ensures Cell(r, i) == v
    ensures forall j :: 0 <= j && j != i ==> Cell(r, j) == Cell(row, j)
    ensures i < |row| ==> r == row[i := v]
  {
    if i < |row| then row[i := v] else row + seq(i - |row|, _ => "") + [v]
  }

  /** Writing one cell of row `k` changes that cell and nothing else. */
  lemma WriteOneCell(t: Table, k: nat, col: nat, v: string)
    requires k < |t|
    ensures var after := t[k := SetCell(t[k], col, v)];
      |after| == |t| && Cell(after[k], col) == v
      && (forall j :: 0 <= j && j != col ==> Cell(after[k], j) == Cell(t[k], j))
      && forall j :: 0 <= j < |t| && j != k ==> after[j] == t[j]
  {
  }

  /** An A1-notation cell address: a column letter and a 1-based row number. */
  datatype CellRef = CellRef(column: char, row: nat)

  /** `String.fromCharCode(65 + i)` */
  function ColumnLetter(i: nat): (c: char)
    requires i < AtoZ
    ensures 'A' <= c <= 'Z'
  {
    (65 + i) as char
  }

  function ColumnIndex(c: char): int {
    c as int - 'A' as int
  }

  /** The address of `values[rowIdx][col]`: column letter `'A' + col`, row `rowIdx + 1`. */
  function A1(col: nat, rowIdx: nat): (ref: CellRef)
    requires col < AtoZ
    ensures ColumnIndex(ref.column) == col && ref.row == rowIdx + 1
  {
    CellRef(ColumnLetter(col), rowIdx + 1)
  }

  /** `xs.flatMap(x => ...)` where each element yields at most one result. */
  function FlatMap<A, B>(xs: seq<A>, f: A -> Option<B>): (r: seq<B>)
    ensures |r| <= |xs|
    ensures forall y :: y in r ==> exists x :: x in xs && f(x) == Some(y)
  {
    if xs == [] then []
    else (match f(xs[0]) case Some(y) => [y] case None => []) + FlatMap(xs[1..], f)
  }

  /** Projecting two runs of rows one after the other gives the two projections in the same order. */
  lemma {:induction false} FlatMapAppend<A, B>(xs: seq<A>, ys: seq<A>, f: A -> Option<B>)
    ensures FlatMap(xs + ys, f) == FlatMap(xs, f) + FlatMap(ys, f)
  {
    if xs != [] {
      assert (xs + ys)[0] == xs[0] && (xs + ys)[1..] == xs[1..] + ys;
      FlatMapAppend(xs[1..], ys, f);
    } else {
      assert xs + ys == ys;
    }
  }

  /** Every element that projects to something contributes that value. */
  lemma {:induction false} FlatMapComplete<A, B>(xs: seq<A>, f: A -> Option<B>, x: A)
    requires x in xs && f(x).Some?
    ensures f(x).value in FlatMap(xs, f)
  {
    if xs[0] != x {
      FlatMapComplete(xs[1..], f, x);
    }
  }

  /** The position of an element whose projection gave `y`. */
  lemma FlatMapSource<A, B>(xs: seq<A>, f: A -> Option<B>, y: B) returns (i: nat)
    requires y in FlatMap(xs, f)
    ensures i < |xs| && f(xs[i]) == Some(y)
  {
    var x :| x in xs && f(x) == Some(y);
    i :| i < |xs| && xs[i] == x;
  }

  /** A projection that drops everything yields nothing. */
  lemma {:induction false} FlatMapNone<A, B>(xs: seq<A>, f: A -> Option<B>)
    requires forall x :: x in xs ==> f(x).None?
    ensures FlatMap(xs, f) == []
  {
    if xs != [] {
      FlatMapNone(xs[1..], f);
    }
  }

  /** The elements of `s` that satisfy `p`, in order (`s.filter(p)`). */
  function Filter<T>(s: seq<T>, p: T -> bool): (r: seq<T>)
    ensures |r| <= |s|
    ensures forall i :: 0 <= i < |r| ==> r[i] in s && p(r[i])
    ensures forall i :: 0 <= i < |s| && p(s[i]) ==> s[i] in r
  {
    if s == [] then [] else (if p(s[0]) then [s[0]] else []) + Filter(s[1..], p)
  }

  /**
   * A projection `g` that agrees with `f` but also drops the results failing
   * `p` yields exactly the results of `f` filtered by `p`.
   */
  lemma {:induction false} FlatMapThenFilter<A, B>(xs: seq<A>, f: A -> Option<B>, g: A -> Option<B>, p: B -> bool)
    requires forall x :: x in xs ==> g(x) == (if f(x).Some? && p(f(x).value) then f(x) else None)
    ensures FlatMap(xs, g) == Filter(FlatMap(xs, f), p)
  {
    if xs != [] {
      FlatMapThenFilter(xs[1..], f, g, p);
      var head := match f(xs[0]) case Some(y) => [y] case None => [];
      assert FlatMap(xs, f) == head + FlatMap(xs[1..], f);
      FilterAppend(head, FlatMap(xs[1..], f), p);
    }
  }

  lemma {:induction false} FilterAppend<T>(s: seq<T>, t: seq<T>, p: T -> bool)
    ensures Filter(s + t, p) == Filter(s, p) + Filter(t, p)
  {
    if s != [] {
      assert (s + t)[0] == s[0] && (s + t)[1..] == s[1..] + t;
      FilterAppend(s[1..], t, p);
    } else {
      assert s + t == t;
    }
  }
}

/**
 * The number handling shared by the zone handlers and the map editor: the
 * fixed warehouse size, JavaScript `Number` coercion of a cell, the `num`
 * fallback helper, and clamping into a range.
 */
module Numbers {
  import opened Results

  /** The warehouse floor, in feet. */
  const WarehouseW: int := 75
  const WarehouseH: int := 50

  /**
   * `Number(row[i])` for a cell: `undefined` is NaN (`None`), and a present
   * cell is whatever `parse` makes of its text (`None` when not finite).
   */
  function Coerce(parse: string -> Option<int>, cell: Option<string>): (n: Option<int>)
    ensures cell.None? ==> n.None?
    ensures cell.Some? ==> n == parse(cell.value)
  {
    match cell
    case None => None
    case Some(s) => parse(s)
  }

  /** `num(v, fallback)`: the coerced number when it is finite, otherwise the fallback. */
  function Num(v: Option<int>, fallback: int): (n: int)
    ensures v.Some? ==> n == v.value
    ensures v.None? ==> n == fallback
  {
    v.GetOr(fallback)
  }

  /** `Math.max(lo, Math.min(hi, n))` */
  function Clamp(n: int, lo: int, hi: int): (r: int)
    ensures lo <= hi ==> lo <= r <= hi
    ensures lo <= n <= hi ==> r == n
    ensures lo <= hi && n < lo ==> r == lo
    ensures lo <= hi && n > hi ==> r == hi
    ensures lo > hi ==> r == lo
  {
    var m := if n < hi then n else hi;
    if lo > m then lo else m
  }

  /** Clamping a clamped value changes nothing. */
  lemma ClampIdempotent(n: int, lo: int, hi: int)
    ensures Clamp(Clamp(n, lo, hi), lo, hi) == Clamp(n, lo, hi)
  {
  }
}

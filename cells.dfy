/** The cells of a data frame and the numeric coercion that
    `pd.to_numeric(..., errors='coerce')` applies to them (app.py lines 88 and 129). */
module Cells {
  import opened Wrappers

  /** One cell of a frame: text as read from a file or a form field, a number,
      or the missing marker (`np.nan`). */
  datatype Cell = Str(s: string) | Num(x: real) | Missing

  /** The numeric grammar of `pd.to_numeric` on one string: `Some(x)` when the
      text denotes the number `x`, `None` when it does not. Its details are not
      part of this model; it is passed in and only assumed total. */
  type Parser = string -> Option<real>

  /** A cell after coercion: a number or missing, never text. */
  predicate IsNumeric(c: Cell) {
    c.Num? || c.Missing?
  }

  /** Coercion of one cell with `errors='coerce'`: it never fails; a number
      keeps its value, missing stays missing, text becomes the number it
      denotes or missing when it denotes none. */
  function Coerce(parse: Parser, c: Cell): (r: Cell)
    ensures IsNumeric(r)
    ensures IsNumeric(c) ==> r == c
    ensures c.Str? ==> (r.Missing? <==> parse(c.s).None?)
    ensures c.Str? && r.Num? ==> parse(c.s) == Some(r.x)
  {
    match c
    case Str(s) => (match parse(s) case Some(x) => Num(x) case None => Missing)
    case _ => c
  }

  /** Coercion of a whole column, cell by cell. */
  function CoerceAll(parse: Parser, col: seq<Cell>): (r: seq<Cell>)
    ensures |r| == |col|
    ensures forall i :: 0 <= i < |r| ==> r[i] == Coerce(parse, col[i])
  {
    seq(|col|, i requires 0 <= i < |col| => Coerce(parse, col[i]))
  }

  /** A column of numbers and missing markers only. */
  predicate AllNumeric(col: seq<Cell>) {
    forall i :: 0 <= i < |col| ==> IsNumeric(col[i])
  }

  /** Coercing a column yields numbers and missing markers only. */
  lemma CoerceAllIsNumeric(parse: Parser, col: seq<Cell>)
    ensures AllNumeric(CoerceAll(parse, col))
  {
  }

  /** Coercion is idempotent: the manual path coerces its row once (line 129)
      and the alignment coerces it again (line 88); the second pass changes
      nothing. */
  lemma CoerceAllIdempotent(parse: Parser, col: seq<Cell>)
    ensures CoerceAll(parse, CoerceAll(parse, col)) == CoerceAll(parse, col)
  {
  }

  /** A column that is already numeric is left exactly as it is. */
  lemma CoerceAllKeepsNumeric(parse: Parser, col: seq<Cell>)
    requires AllNumeric(col)
    ensures CoerceAll(parse, col) == col
  {
  }
}

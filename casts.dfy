/**
 * `astype(str)` and `astype(int)` on single cells and on whole columns, as the
 * modelled code uses them to normalise keys and to read positions.
 */
module Casts {
  import opened Wrappers
  import opened Text
  import opened Frames

  /** `astype(str)` on one cell: NaN prints as "nan", booleans as "True"/"False". */
  function CellText(c: Cell): string {
    match c
    case Null => "nan"
    case Int(i) => IntToString(i)
    case Str(s) => s
    case Bool(b) => if b then "True" else "False"
  }

  /** `astype(int)` on one cell: an integer, a boolean as 0/1, or a string `int()` accepts; NaN has no integer. */
  function CellToInt(c: Cell): Option<int> {
    match c
    case Int(i) => Some(i)
    case Bool(b) => Some(if b then 1 else 0)
    case Str(s) => ParseInt(s)
    case Null => None
  }

  /** `df[c].astype(int)`: the integers of a column, or a ValueError if one cell does not convert. */
  function IntColumn(f: Frame, c: string): (r: Result<seq<int>>)
    ensures r.Ok? <==> forall i :: 0 <= i < |f.rows| ==> CellToInt(Get(f.rows[i], c)).Some?
    ensures r.Ok? ==> |r.value| == |f.rows| && forall i :: 0 <= i < |f.rows| ==> r.value[i] == CellToInt(Get(f.rows[i], c)).value
  {
    if exists i :: 0 <= i < |f.rows| && CellToInt(Get(f.rows[i], c)).None? then
      Err(ValueError("invalid literal for int()"))
    else Ok(seq(|f.rows|, i requires 0 <= i < |f.rows| => CellToInt(Get(f.rows[i], c)).value))
  }

  /** An integer written out by `astype(str)` reads back as itself with `astype(int)`. */
  lemma CellToIntOfText(n: int)
    ensures CellToInt(Str(CellText(Int(n)))) == Some(n)
  {
    ParseIntOfIntToString(n);
  }
}

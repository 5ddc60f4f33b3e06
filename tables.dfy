/** Cells and tables as the reconciliation engine sees them once pandas has read a file.
    A cell is either missing (pandas NaN) or holds the text that `str()` gives for its value. */
module Tables {

  datatype Option<+T> = None | Some(value: T)

  /** One cell of a data frame: `None` is a missing value (NaN). */
  type Cell = Option<string>

  /** `str()` of a cell: the text of a present value, "nan" for a missing one. */
  function Str(c: Cell): string
  {
    match c
    case None => "nan"
    case Some(s) => s
  }

  /** A data frame with `width` columns addressed by position. */
  datatype Table = Table(width: nat, rows: seq<seq<Cell>>)

  /** Positional access `iloc[i, col]`. A column at or beyond the width, or a cell a short
      row does not have, reads as missing (read_csv pads ragged rows with NaN). */
  function CellAt(t: Table, i: nat, col: nat): (c: Cell)
    requires i < |t.rows|
    ensures t.width <= col ==> c == None
  {
    if col < t.width && col < |t.rows[i]| then t.rows[i][col] else None
  }
}

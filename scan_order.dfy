/**
 * The order in which both fill loops visit the canvas:
 * `for x in range(d): for y in range(d)`, so x is the outer (column)
 * coordinate and y the inner one.
 */
module ScanOrder {
  import opened ArtTypes

  /** The cells (x, 0), ..., (x, rows - 1), in the order the inner loop writes them. */
  function ColumnOrder(x: nat, rows: nat): seq<Cell>
  {
    seq(rows, (y: nat) => Cell(x, y))
  }

  /** The cells of the first `columns` columns of a canvas with `rows` rows, column after column. */
  function ColumnMajor(columns: nat, rows: nat): (cells: seq<Cell>)
    ensures forall i | 0 <= i < |cells| :: cells[i].x < columns && cells[i].y < rows
  {
    if columns == 0 then [] else ColumnMajor(columns - 1, rows) + ColumnOrder(columns - 1, rows)
  }


  /** One more pass of the inner loop appends cell (x, y). */
  lemma ColumnOrderExtend(x: nat, y: nat)
    ensures ColumnOrder(x, y + 1) == ColumnOrder(x, y) + [Cell(x, y)]
  {
  }

  /** Each cell (x, y) with y < rows appears once in column x and no other cell does. */
  lemma {:induction false} ColumnOrderOnce(x: nat, rows: nat, c: Cell)
    ensures multiset(ColumnOrder(x, rows))[c] == if c.x == x && c.y < rows then 1 else 0
  {
    if rows > 0 {
      ColumnOrderOnce(x, rows - 1, c);
      ColumnOrderExtend(x, rows - 1);
    }
  }

  /**
   * The scan writes every cell of the canvas exactly once and nothing
   * outside it: each in-range cell occurs once, any other cell never.
   */
  lemma {:induction false} ColumnMajorOnce(columns: nat, rows: nat, c: Cell)
    ensures multiset(ColumnMajor(columns, rows))[c] == if c.x < columns && c.y < rows then 1 else 0
  {
    if columns > 0 {
      ColumnMajorOnce(columns - 1, rows, c);
      ColumnOrderOnce(columns - 1, rows, c);
    }
  }

  /** The scan of `columns` full columns writes columns * rows cells. */
  lemma {:induction false} ColumnMajorLength(columns: nat, rows: nat)
    ensures |ColumnMajor(columns, rows)| == columns * rows
  {
    if columns > 0 {
      ColumnMajorLength(columns - 1, rows);
      assert columns * rows == (columns - 1) * rows + rows;
    }
  }
}

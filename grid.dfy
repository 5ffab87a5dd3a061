/**
 * The two-column card tables of `create_doc`.  A page is a list of rows
 * of two cells.  A front page reads its cells left to right, top to bottom.
 * A back page swaps the two cells of every row, so that once the sheet is
 * printed on both sides and flipped on its short edge, each card's back
 * lands behind its front.
 */
module Grid {

  type Row = (string, string)
  type Page = seq<Row>

  /** Grouping two at a time: row i is (cells[2i], cells[2i+1]). */
  function FrontGrid(cells: seq<string>): (rows: Page)
    requires |cells| % 2 == 0
    ensures |rows| == |cells| / 2
  {
    if |cells| == 0 then [] else [(cells[0], cells[1])] + FrontGrid(cells[2..])
  }

  /** The same grouping with left and right swapped: row i is (cells[2i+1], cells[2i]). */
  function BackGrid(cells: seq<string>): (rows: Page)
    requires |cells| % 2 == 0
    ensures |rows| == |cells| / 2
  {
    if |cells| == 0 then [] else [(cells[1], cells[0])] + BackGrid(cells[2..])
  }

  function Swap(row: Row): Row {
    (row.1, row.0)
  }

  function SwapAll(rows: Page): (swapped: Page)
    ensures |swapped| == |rows|
    ensures forall i :: 0 <= i < |rows| ==> swapped[i] == Swap(rows[i])
  {
    seq(|rows|, i requires 0 <= i < |rows| => Swap(rows[i]))
  }

  /** The cells of a page in reading order: left to right, top to bottom. */
  function Cells(rows: Page): seq<string> {
    if |rows| == 0 then [] else [rows[0].0, rows[0].1] + Cells(rows[1..])
  }

  lemma {:induction false} FrontGridAt(cells: seq<string>, i: nat)
    requires |cells| % 2 == 0 && i < |cells| / 2
    ensures FrontGrid(cells)[i] == (cells[2 * i], cells[2 * i + 1])
  {
    if i > 0 {
      FrontGridAt(cells[2..], i - 1);
    }
  }

  lemma {:induction false} BackGridAt(cells: seq<string>, i: nat)
    requires |cells| % 2 == 0 && i < |cells| / 2
    ensures BackGrid(cells)[i] == (cells[2 * i + 1], cells[2 * i])
  {
    if i > 0 {
      BackGridAt(cells[2..], i - 1);
    }
  }

  /** The back page of a batch is its front grouping mirrored row by row. */
  lemma BackMirrorsFront(cells: seq<string>)
    requires |cells| % 2 == 0
    ensures BackGrid(cells) == SwapAll(FrontGrid(cells))
  {
    forall i | 0 <= i < |cells| / 2 ensures BackGrid(cells)[i] == SwapAll(FrontGrid(cells))[i] {
      FrontGridAt(cells, i);
      BackGridAt(cells, i);
    }
  }

  /** Reading a front page in order gives back its cells in input order. */
  lemma {:induction false} CellsOfFrontGrid(cells: seq<string>)
    requires |cells| % 2 == 0
    ensures Cells(FrontGrid(cells)) == cells
  {
    if |cells| > 0 {
      CellsOfFrontGrid(cells[2..]);
      assert FrontGrid(cells)[1..] == FrontGrid(cells[2..]);
      assert [cells[0], cells[1]] + cells[2..] == cells;
    }
  }

  /** Undoing the mirroring of a back page gives its cells in input order. */
  lemma {:induction false} CellsOfMirroredBack(cells: seq<string>)
    requires |cells| % 2 == 0
    ensures Cells(SwapAll(BackGrid(cells))) == cells
  {
    if |cells| > 0 {
      CellsOfMirroredBack(cells[2..]);
      assert SwapAll(BackGrid(cells))[1..] == SwapAll(BackGrid(cells[2..]));
      assert [cells[0], cells[1]] + cells[2..] == cells;
    }
  }

  /**
   * The front-table loop: at every even position start a row holding
   * that cell and the next; `rowCntr` is the row being filled.
   */
  method BuildFrontTable(content: seq<string>) returns (rows: Page)
    requires |content| % 2 == 0
    ensures rows == FrontGrid(content)
  {
    rows := [];
    var rowCntr := 0;
    for item := 0 to |content|
      invariant rowCntr == |rows| == (item + 1) / 2
      invariant forall i :: 0 <= i < |rows| ==> rows[i] == (content[2 * i], content[2 * i + 1])
    {
      if item % 2 == 0 {
        rows := rows + [(content[item], content[item + 1])];
        rowCntr := rowCntr + 1;
      }
    }
    forall i | 0 <= i < |rows| ensures rows[i] == FrontGrid(content)[i] {
      FrontGridAt(content, i);
    }
  }

  /** The back-table loop: as the front one, with the later cell written first. */
  method BuildBackTable(content: seq<string>) returns (rows: Page)
    requires |content| % 2 == 0
    ensures rows == BackGrid(content)
  {
    rows := [];
    var rowCntr := 0;
    for item := 0 to |content|
      invariant rowCntr == |rows| == (item + 1) / 2
      invariant forall i :: 0 <= i < |rows| ==> rows[i] == (content[2 * i + 1], content[2 * i])
    {
      if item % 2 == 0 {
        rows := rows + [(content[item + 1], content[item])];
        rowCntr := rowCntr + 1;
      }
    }
    forall i | 0 <= i < |rows| ensures rows[i] == BackGrid(content)[i] {
      BackGridAt(content, i);
    }
  }
}

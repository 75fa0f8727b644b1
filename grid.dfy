/** The class `TerminalBuffer` of mt/TerminalBuffer.swift: a fixed grid of
    cells filled with a repeating test pattern, and a write position that
    moves through the grid in row-major order. */
module Grid {
  import opened Attributes

  /** `charSet`. */
  const CharSet := "1234567890abcdefghijklmnopqrstuvwxyz"

  /** The cell `init` puts at linear position `idx`: the character set read
      cyclically, in the default attributes. */
  function PatternCell(idx: nat): (c: Cell)
    ensures c.attrs == Default && c.ch in CharSet
  {
    Cell(CharSet[idx % |CharSet|], Default)
  }

  /** The row-major index of a position in a grid `columns` wide. */
  function Linear(pos: (int, int), columns: int): int
  {
    pos.0 * columns + pos.1
  }

  /** The position after `insertText`: the next column, or column 0 of the
      next row after the last column. */
  function Advance(pos: (int, int), columns: int): (r: (int, int))
    ensures 0 <= pos.1 < columns ==> 0 <= r.1 < columns
    ensures 0 <= pos.1 < columns ==> Linear(r, columns) == Linear(pos, columns) + 1
    ensures pos.0 <= r.0 <= pos.0 + 1
  {
    if pos.1 + 1 >= columns then (pos.0 + 1, 0) else (pos.0, pos.1 + 1)
  }

  /** The position after `n` calls from the origin. */
  function AdvanceFromOrigin(columns: int, n: nat): (int, int)
  {
    if n == 0 then (0, 0) else Advance(AdvanceFromOrigin(columns, n - 1), columns)
  }

  /** The `n`-th call writes at row-major index `n`, so text fills the grid
      in the same order as the pattern `init` lays down. */
  lemma {:induction false} InsertOrderIsRowMajor(columns: int, n: nat)
    requires columns > 0
    ensures var p := AdvanceFromOrigin(columns, n);
      Linear(p, columns) == n && 0 <= p.1 < columns && p.0 >= 0
  {
    if n > 0 {
      InsertOrderIsRowMajor(columns, n - 1);
    }
  }

  /** Row `i` of the pattern. */
  function PatternRow(i: nat, columns: nat): (r: seq<Cell>)
    ensures |r| == columns && forall j :: 0 <= j < columns ==> r[j] == PatternCell(i * columns + j)
  {
    seq(columns, j requires 0 <= j < columns => PatternCell(i * columns + j))
  }

  class TerminalBuffer {
    var buffer: seq<seq<Cell>>
    var columns: int
    var rows: int
    var currentPosition: (int, int)

    /** Every row `columns` wide; the write position inside the grid, or
        at column 0 of the row just below it. */
    predicate Valid()
      reads this
    {
      |buffer| == rows && (forall i :: 0 <= i < rows ==> |buffer[i]| == columns)
      && 0 <= currentPosition.0 <= rows
      && 0 <= currentPosition.1 && (currentPosition.1 < columns || currentPosition.1 == 0)
    }

    /** `init(columns:rows:)`. Swift stops on a negative `rows`, as the
        range `0..<rows` would be invalid, and on a negative `columns` once a
        row is built; with no rows any `columns` is accepted. */
    constructor (columns: int, rows: int)
      requires rows >= 0 && (rows == 0 || columns >= 0)
      ensures Valid() && this.columns == columns && this.rows == rows && currentPosition == (0, 0)
      ensures forall i :: 0 <= i < rows ==> buffer[i] == PatternRow(i, columns)
    {
      var idx := 0;
      var grid: seq<seq<Cell>> := [];
      for i := 0 to rows
        invariant |grid| == i && idx == i * columns
        invariant forall r :: 0 <= r < i ==> grid[r] == PatternRow(r, columns)
      {
        grid := grid + [[]];
        for j := 0 to columns
          invariant |grid| == i + 1 && idx == i * columns + j
          invariant forall r :: 0 <= r < i ==> grid[r] == PatternRow(r, columns)
          invariant grid[i] == PatternRow(i, columns)[..j]
        {
          var c := CharSet[idx % |CharSet|];
          assert PatternRow(i, columns)[..j + 1] == PatternRow(i, columns)[..j] + [PatternCell(idx)];
          grid := grid[i := grid[i] + [Cell(c, Default)]];
          idx := idx + 1;
        }
        assert idx == (i + 1) * columns by {
          assert (i + 1) * columns == i * columns + columns;
        }
      }
      buffer := grid;
      this.rows := rows;
      this.columns := columns;
      currentPosition := (0, 0);
    }

    /** `insertText(char:)`: the cell at the write position gets the
        character in the default attributes, every other cell and the grid's
        size stay, and the position advances with wrap but no scroll. */
    method InsertText(c: char)
      requires Valid() && currentPosition.0 < rows && currentPosition.1 < columns
      modifies this
      ensures Valid() && rows == old(rows) && columns == old(columns)
      ensures buffer == old(buffer[currentPosition.0 := buffer[currentPosition.0][currentPosition.1 := Cell(c, Default)]])
      ensures currentPosition == Advance(old(currentPosition), columns)
    {
      var (row, col) := currentPosition;
      buffer := buffer[row := buffer[row][col := Cell(c, Default)]];
      currentPosition := (row, col + 1);
      if currentPosition.1 >= columns {
        currentPosition := (row + 1, 0);
      }
    }
  }
}

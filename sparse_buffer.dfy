/** The class `Buffer` of mt/Buffer.swift: the row dictionary, the viewport,
    the cursor and the attributes are fields that each method updates in
    place. Every method is specified by the function of the same name in
    SparseScreen; a method that Swift could stop on an invalid index
    requires the input for which that function does not trap. */
module SparseBuffer {
  import opened Base
  import opened Attributes
  import S = SparseScreen

  class Buffer {
    var buffer: map<int, seq<Cell>>
    var viewport: S.Viewport
    var cursorX: int
    var cursorY: int
    var currentForegroundColor: Color
    var currentBackgroundColor: Color
    var isBold: bool
    var isUnderlined: bool

    /** The value the fields stand for. */
    function Model(): S.Screen
      reads this
    {
      S.Screen(buffer, viewport, cursorX, cursorY,
               Attrs(currentForegroundColor, currentBackgroundColor, isBold, isUnderlined))
    }

    constructor (rows: int, cols: int)
      ensures Model() == S.Init(rows, cols)
    {
      buffer := map[];
      viewport := S.Viewport(0, rows, cols);
      cursorX, cursorY := 0, 0;
      currentForegroundColor, currentBackgroundColor := White, Clear;
      isBold, isUnderlined := false, false;
    }

    // Cursor movement

    method MoveCursorUp(n: int)
      modifies this
      ensures Model() == S.MoveCursorUp(old(Model()), n)
    {
      cursorY := Max(cursorY - n, 0);
    }

    method MoveCursorDown(n: int)
      modifies this
      ensures Model() == S.MoveCursorDown(old(Model()), n)
    {
      cursorY := cursorY + n;
    }

    method MoveCursorForward(n: int)
      modifies this
      ensures Model() == S.MoveCursorForward(old(Model()), n)
    {
      cursorX := cursorX + n;
    }

    method MoveCursorBackward(n: int)
      modifies this
      ensures Model() == S.MoveCursorBackward(old(Model()), n)
    {
      cursorX := Max(cursorX - n, 0);
    }

    method SetCursorPosition(x: int, y: int)
      modifies this
      ensures Model() == S.SetCursorPosition(old(Model()), x, y)
    {
      cursorX := x;
      cursorY := y;
    }

    // Erasing

    method EraseInDisplay(mode: int)
      requires mode == 0 || mode == 1 ==> cursorX >= 0
      modifies this
      ensures S.EraseInDisplay(old(Model()), mode) == Ok(Model())
    {
      if mode == 0 {
        EraseBelow();
      } else if mode == 1 {
        EraseAbove();
      } else if mode == 2 {
        buffer := map[];
      }
    }

    method EraseInLine(mode: int)
      requires mode == 0 || mode == 1 ==> cursorX >= 0
      requires mode == 2 ==> viewport.cols >= 0
      modifies this
      ensures S.EraseInLine(old(Model()), mode) == Ok(Model())
    {
      if mode == 0 {
        EraseLineFromCursor();
      } else if mode == 1 {
        EraseLineToCursor();
      } else if mode == 2 {
        EraseEntireLine();
      }
    }

    method ApplyGraphicRendition(params: seq<int>)
      modifies this
      ensures Model() == S.ApplyGraphicRendition(old(Model()), params)
    {
      for i := 0 to |params|
        invariant Model() == S.ApplyGraphicRendition(old(Model()), params[..i])
      {
        assert params[..i + 1][..i] == params[..i];
        var code := params[i];
        if code == 0 {
          ResetAttributes();
        } else if code == 1 {
          isBold := true;
        } else if code == 4 {
          isUnderlined := true;
        } else if 30 <= code <= 37 {
          currentForegroundColor := AnsiColor(code - 30);
        } else if 40 <= code <= 47 {
          currentBackgroundColor := AnsiColor(code - 40);
        }
      }
      assert params[..|params|] == params;
    }

    // Writing

    method AppendChar(c: char)
      requires cursorX >= 0
      modifies this
      ensures S.AppendChar(old(Model()), c) == Ok(Model())
    {
      EnsureSize(cursorY, cursorX);
      var cell := Cell(c, Attrs(currentForegroundColor, currentBackgroundColor, isBold, isUnderlined));
      buffer := buffer[cursorY := buffer[cursorY][cursorX := cell]];
      cursorX := cursorX + 1;
    }

    method HandleBackspace()
      modifies this
      ensures Model() == S.HandleBackspace(old(Model()))
    {
      if cursorX > 0 {
        cursorX := cursorX - 1;
      }
    }

    method AddCarriageReturn()
      modifies this
      ensures Model() == S.AddCarriageReturn(old(Model()))
    {
      cursorX := 0;
    }

    method AddLineFeed()
      modifies this
      ensures Model() == S.AddLineFeed(old(Model()))
    {
      cursorY := cursorY + 1;
      buffer := buffer[cursorY := []];
      var top := viewport.topRow;
      while cursorY >= top + viewport.rows
        invariant top == viewport.topRow || (top > viewport.topRow && cursorY >= top + viewport.rows - 1)
        decreases cursorY - top - viewport.rows
      {
        top := top + 1;
      }
      viewport := viewport.(topRow := top);
    }

    method AddNewLine()
      modifies this
      ensures Model() == S.AddNewLine(old(Model()))
    {
      AddCarriageReturn();
      AddLineFeed();
    }

    method AdvanceCursorToNextTabStop()
      modifies this
      ensures Model() == S.AdvanceCursorToNextTabStop(old(Model()))
    {
      var tabSize := 8;
      var nextTabStop := (TruncDiv(cursorX, tabSize) + 1) * tabSize;
      cursorX := nextTabStop;
    }

    method ResetAttributes()
      modifies this
      ensures Model() == S.ResetAttributes(old(Model()))
    {
      currentForegroundColor := White;
      currentBackgroundColor := Clear;
      isBold := false;
      isUnderlined := false;
    }

    /** Pads row `row` with default cells until it has a cell at `col`. */
    method EnsureSize(row: int, col: int)
      modifies this
      ensures Model() == old(Model()).(buffer := S.EnsureSize(old(buffer), row, col))
    {
      var line := S.Row(buffer, row);
      ghost var original := line;
      while |line| <= col
        invariant line == original + S.Repeat(S.DefaultCell, |line| - |original|)
        invariant |line| > |original| ==> |line| <= col + 1
        decreases col - |line|
      {
        line := line + [S.DefaultCell];
      }
      buffer := buffer[row := line];
    }

    method EraseBelow()
      requires cursorX >= 0
      modifies this
      ensures S.EraseBelow(old(Model())) == Ok(Model())
    {
      EraseLineFromCursor();
      var currentRow := cursorY;
      var rowsToRemove := set k | k in buffer && k > currentRow;
      ghost var start := buffer;
      var lines := buffer;
      assert lines == map k | k in start && (k <= currentRow || k in rowsToRemove) :: start[k];
      while rowsToRemove != {}
        invariant rowsToRemove <= start.Keys
        invariant forall k :: k in rowsToRemove ==> k > currentRow
        invariant lines == map k | k in start && (k <= currentRow || k in rowsToRemove) :: start[k]
        decreases |rowsToRemove|
      {
        var row :| row in rowsToRemove;
        lines := lines - {row};
        rowsToRemove := rowsToRemove - {row};
      }
      assert lines == S.RowsThrough(start, currentRow);
      buffer := lines;
    }

    method EraseAbove()
      requires cursorX >= 0
      modifies this
      ensures S.EraseAbove(old(Model())) == Ok(Model())
    {
      EraseLineToCursor();
      var currentRow := cursorY;
      var rowsToRemove := set k | k in buffer && k < currentRow;
      ghost var start := buffer;
      var lines := buffer;
      assert lines == map k | k in start && (k >= currentRow || k in rowsToRemove) :: start[k];
      while rowsToRemove != {}
        invariant rowsToRemove <= start.Keys
        invariant forall k :: k in rowsToRemove ==> k < currentRow
        invariant lines == map k | k in start && (k >= currentRow || k in rowsToRemove) :: start[k]
        decreases |rowsToRemove|
      {
        var row :| row in rowsToRemove;
        lines := lines - {row};
        rowsToRemove := rowsToRemove - {row};
      }
      assert lines == S.RowsFrom(start, currentRow);
      buffer := lines;
    }

    method EraseLineFromCursor()
      requires cursorX >= 0
      modifies this
      ensures S.EraseLineFromCursor(old(Model())) == Ok(Model())
    {
      EnsureSize(cursorY, cursorX);
      var row := buffer[cursorY];
      for i := cursorX to |row|
        invariant |row| == |buffer[cursorY]|
        invariant forall j :: 0 <= j < |row| ==> row[j] == if cursorX <= j < i then S.DefaultCell else buffer[cursorY][j]
      {
        row := row[i := S.DefaultCell];
      }
      assert row == buffer[cursorY][..cursorX] + S.Repeat(S.DefaultCell, |buffer[cursorY]| - cursorX);
      buffer := buffer[cursorY := row];
    }

    method EraseLineToCursor()
      requires cursorX >= 0
      modifies this
      ensures S.EraseLineToCursor(old(Model())) == Ok(Model())
    {
      EnsureSize(cursorY, cursorX);
      var row := buffer[cursorY];
      for i := 0 to cursorX + 1
        invariant |row| == |buffer[cursorY]|
        invariant forall j :: 0 <= j < |row| ==> row[j] == if j < i then S.DefaultCell else buffer[cursorY][j]
      {
        row := row[i := S.DefaultCell];
      }
      assert row == S.Repeat(S.DefaultCell, cursorX + 1) + buffer[cursorY][cursorX + 1..];
      buffer := buffer[cursorY := row];
    }

    method EraseEntireLine()
      requires viewport.cols >= 0
      modifies this
      ensures S.EraseEntireLine(old(Model())) == Ok(Model())
    {
      EnsureSize(cursorY, viewport.cols - 1);
      buffer := buffer[cursorY := S.Repeat(S.DefaultCell, viewport.cols)];
    }

    method ResizeViewport(rows: int, cols: int)
      modifies this
      ensures Model() == S.ResizeViewport(old(Model()), rows, cols)
    {
      viewport := viewport.(rows := rows, cols := cols);
    }
  }
}

/** The class `Buffer` of mt/terminal/Buffer.swift: the lines, the cursor
    and the attributes are fields that each method updates in place. Every
    method is specified by the function of the same name in LineScreen. */
module LineBuffer {
  import opened Base
  import opened Attributes
  import S = LineScreen

  class Buffer {
    var buffer: seq<S.Line>
    var rows: int
    var cols: int
    var cursorX: int
    var cursorY: int
    var currentForegroundColor: Color
    var currentBackgroundColor: Color
    var isBold: bool
    var isUnderlined: bool

    /** The value the fields stand for. */
    function Model(): S.Screen
      reads this
    {
      S.Screen(buffer, rows, cols, cursorX, cursorY,
               Attrs(currentForegroundColor, currentBackgroundColor, isBold, isUnderlined))
    }

    predicate Valid()
      reads this
    {
      S.WellFormed(Model())
    }

    constructor (rows: int, cols: int)
      requires 1 <= rows && 1 <= cols
      ensures Valid() && Model() == S.Init(rows, cols)
    {
      this.rows := rows;
      this.cols := cols;
      buffer := seq(rows, _ => []);
      cursorX, cursorY := 0, 0;
      currentForegroundColor, currentBackgroundColor := White, Clear;
      isBold, isUnderlined := false, false;
    }

    // Cursor movement

    method MoveCursorUp(n: nat)
      requires Valid()
      modifies this
      ensures Valid() && Model() == S.MoveCursorUp(old(Model()), n)
    {
      cursorY := Max(cursorY - n, 0);
    }

    method MoveCursorDown(n: nat)
      requires Valid()
      modifies this
      ensures Valid() && Model() == S.MoveCursorDown(old(Model()), n)
    {
      cursorY := Min(cursorY + n, rows - 1);
    }

    method MoveCursorForward(n: nat)
      requires Valid()
      modifies this
      ensures Valid() && Model() == S.MoveCursorForward(old(Model()), n)
    {
      cursorX := Min(cursorX + n, cols - 1);
    }

    method MoveCursorBackward(n: nat)
      requires Valid()
      modifies this
      ensures Valid() && Model() == S.MoveCursorBackward(old(Model()), n)
    {
      cursorX := Max(cursorX - n, 0);
    }

    method SetCursorPosition(x: int, y: int)
      requires Valid()
      modifies this
      ensures Valid() && Model() == S.SetCursorPosition(old(Model()), x, y)
    {
      cursorX := Min(Max(x, 0), cols - 1);
      cursorY := Min(Max(y, 0), rows - 1);
    }

    /** Also called with the cursor one row below the grid (from
        `appendChar` and `addLineFeed`), so it asks only for the grid shape. */
    method ScrollUp()
      requires S.GridShape(Model())
      modifies this
      ensures Model() == S.ScrollUp(old(Model()))
    {
      if buffer != [] {
        buffer := buffer[1..];
      }
      buffer := buffer + [[]];
      cursorY := rows - 1;
    }

    // Erasing

    method EraseInDisplay(mode: int)
      requires Valid()
      modifies this
      ensures Valid() && Model() == S.EraseInDisplay(old(Model()), mode)
    {
      if mode == 0 {
        EraseBelow();
      } else if mode == 1 {
        EraseAbove();
      } else if mode == 2 {
        buffer := seq(rows, _ => []);
        SetCursorPosition(0, 0);
      }
    }

    method EraseInLine(mode: int)
      requires Valid()
      modifies this
      ensures Valid() && Model() == S.EraseInLine(old(Model()), mode)
    {
      if mode == 0 {
        EraseLineFromCursor();
      } else if mode == 1 {
        EraseLineToCursor();
      } else if mode == 2 {
        EraseEntireLine();
      }
    }

    // The source guards each erase helper with `y >= 0 && y < buffer.count`
    // (and `x >= 0`); both always hold under Valid(), so they are not repeated.

    method EraseBelow()
      requires Valid()
      modifies this
      ensures Valid() && Model() == S.EraseBelow(old(Model()))
    {
      var y, x := cursorY, cursorX;
      var lines := buffer;
      var line := lines[y];
      if |line| > x {
        lines := lines[y := line[..x]];
      }
      ghost var cut := lines;
      for row := y + 1 to |lines|
        invariant |lines| == rows
        invariant forall i :: 0 <= i < rows ==> lines[i] == if y < i < row then [] else cut[i]
      {
        lines := lines[row := []];
      }
      buffer := lines;
    }

    method EraseAbove()
      requires Valid()
      modifies this
      ensures Valid() && Model() == S.EraseAbove(old(Model()))
    {
      var y, x := cursorY, cursorX;
      var lines := buffer;
      var line := lines[y];
      lines := lines[y := line[Min(x + 1, |line|)..]];
      ghost var cut := lines;
      for row := 0 to y
        invariant |lines| == rows
        invariant forall i :: 0 <= i < rows ==> lines[i] == if i < row then [] else cut[i]
      {
        lines := lines[row := []];
      }
      buffer := lines;
    }

    method EraseLineFromCursor()
      requires Valid()
      modifies this
      ensures Valid() && Model() == S.EraseLineFromCursor(old(Model()))
    {
      var line := buffer[cursorY];
      if |line| > cursorX {
        buffer := buffer[cursorY := line[..cursorX]];
      }
    }

    method EraseLineToCursor()
      requires Valid()
      modifies this
      ensures Valid() && Model() == S.EraseLineToCursor(old(Model()))
    {
      var line := buffer[cursorY];
      buffer := buffer[cursorY := line[Min(cursorX + 1, |line|)..]];
    }

    method EraseEntireLine()
      requires Valid()
      modifies this
      ensures Valid() && Model() == S.EraseEntireLine(old(Model()))
    {
      buffer := buffer[cursorY := []];
    }

    // Attributes

    method ApplyGraphicRendition(params: seq<int>)
      requires Valid()
      modifies this
      ensures Valid() && Model() == S.ApplyGraphicRendition(old(Model()), params)
    {
      for i := 0 to |params|
        invariant Valid()
        invariant Model() == S.ApplyGraphicRendition(old(Model()), params[..i])
      {
        assert params[..i + 1][..i] == params[..i];
        var code := params[i];
        if code == 0 {
          ResetAttributes();
        } else if code == 1 {
          isBold := true;
        } else if code == 4 {
          isUnderlined := true;
        } else if 30 <= code <= 37 {
          currentForegroundColor := AnsiColor(code - 30);
        } else if 40 <= code <= 47 {
          currentBackgroundColor := AnsiColor(code - 40);
        }
      }
      assert params[..|params|] == params;
    }

    method ResetAttributes()
      requires Valid()
      modifies this
      ensures Valid() && Model() == S.ResetAttributes(old(Model()))
    {
      currentForegroundColor := White;
      currentBackgroundColor := Clear;
      isBold := false;
      isUnderlined := false;
    }

    // Characters and control codes

    /** The source's guard `currentRow >= 0 && currentRow < rows` always
        holds under Valid(). */
    method AppendChar(c: char)
      requires Valid()
      modifies this
      ensures Valid() && Model() == S.AppendChar(old(Model()), c)
    {
      var currentRow := cursorY;
      var line := buffer[currentRow];
      if cursorX > |line| {
        line := line + seq(cursorX - |line|, _ => S.Blank);
      }
      var g := S.Written(c, Attrs(currentForegroundColor, currentBackgroundColor, isBold, isUnderlined));
      if cursorX < |line| {
        line := line[cursorX := g];
      } else {
        line := line + [g];
      }
      buffer := buffer[currentRow := line];
      cursorX := cursorX + 1;
      if cursorX >= cols {
        cursorX := 0;
        cursorY := cursorY + 1;
        if cursorY >= rows {
          ScrollUp();
        }
      }
    }

    method HandleBackspace()
      requires Valid()
      modifies this
      ensures Valid() && Model() == S.HandleBackspace(old(Model()))
    {
      if cursorX > 0 {
        cursorX := cursorX - 1;
      } else if cursorY > 0 {
        cursorY := cursorY - 1;
        cursorX := cols - 1;
      }
      var line := buffer[cursorY];
      if |line| > cursorX {
        buffer := buffer[cursorY := line[..cursorX] + line[cursorX + 1..]];
      }
    }

    method AddCarriageReturn()
      requires Valid()
      modifies this
      ensures Valid() && Model() == S.AddCarriageReturn(old(Model()))
    {
      cursorX := 0;
    }

    method AddLineFeed()
      requires Valid()
      modifies this
      ensures Valid() && Model() == S.AddLineFeed(old(Model()))
    {
      cursorY := cursorY + 1;
      if cursorY >= rows {
        ScrollUp();
      }
    }

    method AddNewLine()
      requires Valid()
      modifies this
      ensures Valid() && Model() == S.AddNewLine(old(Model()))
    {
      AddCarriageReturn();
      AddLineFeed();
    }

    method AdvanceCursorToNextTabStop()
      requires Valid()
      modifies this
      ensures Valid() && Model() == S.AdvanceCursorToNextTabStop(old(Model()))
    {
      var tabSize := 8;
      var nextTabStop := (cursorX / tabSize + 1) * tabSize;
      cursorX := Min(nextTabStop, cols - 1);
    }

    // Resizing

    method Resize(newRows: int, newCols: int)
      requires Valid() && 1 <= newRows && 1 <= newCols
      modifies this
      ensures Valid() && Model() == S.Resize(old(Model()), newRows, newCols)
    {
      rows := newRows;
      cols := newCols;
      if newRows > |buffer| {
        buffer := buffer + seq(newRows - |buffer|, _ => []);
      } else if newRows < |buffer| {
        buffer := buffer[..newRows];
      }
      cursorX := Min(cursorX, newCols - 1);
      cursorY := Min(cursorY, newRows - 1);
    }
  }
}

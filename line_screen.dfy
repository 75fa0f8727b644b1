/** The screen of mt/terminal/Buffer.swift as a value: one variable-length
    line per row, a cursor that is kept on the grid, and the current text
    attributes. Every operation of the buffer is a function here; the class
    in module LineBuffer performs the same operations in place. */
module LineScreen {
  import opened Base
  import opened Attributes

  /** A slot of a line. The spaces `appendChar` pads with carry no
      attributes (`Blank`); a written character carries the attributes that
      were current when it was written. */
  datatype Glyph = Blank | Written(ch: char, attrs: Attrs)

  type Line = seq<Glyph>

  /** `buffer`, `rows`, `cols`, `cursorPosition` and the four attribute fields. */
  datatype Screen = Screen(lines: seq<Line>, rows: int, cols: int, x: int, y: int, attrs: Attrs)

  /** One line per row, at least one row and one column. */
  predicate GridShape(s: Screen)
  {
    1 <= s.rows && 1 <= s.cols && |s.lines| == s.rows
  }

  /** The grid shape, and the cursor on the grid. */
  predicate WellFormed(s: Screen)
  {
    GridShape(s) && 0 <= s.x < s.cols && 0 <= s.y < s.rows
  }

  function EmptyLines(n: nat): (r: seq<Line>)
    ensures |r| == n && forall i :: 0 <= i < n ==> r[i] == []
  {
    seq(n, _ => [])
  }

  /** `init(rows:cols:)`: empty lines, cursor at the origin, default attributes. */
  function Init(rows: int, cols: int): (s: Screen)
    requires 1 <= rows && 1 <= cols
    ensures WellFormed(s) && s.rows == rows && s.cols == cols
    ensures s.x == 0 && s.y == 0 && s.attrs == Default
    ensures forall i :: 0 <= i < rows ==> s.lines[i] == []
  {
    Screen(EmptyLines(rows), rows, cols, 0, 0, Default)
  }

  // Cursor movement

  /** Up by `n`, stopping at row 0. */
  function MoveCursorUp(s: Screen, n: nat): (r: Screen)
    requires WellFormed(s)
    ensures WellFormed(r) && r == s.(y := r.y)
    ensures r.y == s.y - n || (r.y == 0 && s.y < n)
  {
    s.(y := Max(s.y - n, 0))
  }

  /** Down by `n`, stopping at the last row. */
  function MoveCursorDown(s: Screen, n: nat): (r: Screen)
    requires WellFormed(s)
    ensures WellFormed(r) && r == s.(y := r.y)
    ensures r.y == s.y + n || (r.y == s.rows - 1 && s.y + n >= s.rows)
  {
    s.(y := Min(s.y + n, s.rows - 1))
  }

  /** Right by `n`, stopping at the last column. */
  function MoveCursorForward(s: Screen, n: nat): (r: Screen)
    requires WellFormed(s)
    ensures WellFormed(r) && r == s.(x := r.x)
    ensures r.x == s.x + n || (r.x == s.cols - 1 && s.x + n >= s.cols)
  {
    s.(x := Min(s.x + n, s.cols - 1))
  }

  /** Left by `n`, stopping at column 0. */
  function MoveCursorBackward(s: Screen, n: nat): (r: Screen)
    requires WellFormed(s)
    ensures WellFormed(r) && r == s.(x := r.x)
    ensures r.x == s.x - n || (r.x == 0 && s.x < n)
  {
    s.(x := Max(s.x - n, 0))
  }

  /** Each axis clamped into the grid: in-range values are kept, values
      below the grid go to 0, values beyond it to the last row or column. */
  function SetCursorPosition(s: Screen, x: int, y: int): (r: Screen)
    requires WellFormed(s)
    ensures WellFormed(r) && r == s.(x := r.x, y := r.y)
    ensures 0 <= x < s.cols ==> r.x == x
    ensures x < 0 ==> r.x == 0
    ensures x >= s.cols ==> r.x == s.cols - 1
    ensures 0 <= y < s.rows ==> r.y == y
    ensures y < 0 ==> r.y == 0
    ensures y >= s.rows ==> r.y == s.rows - 1
  {
    s.(x := Min(Max(x, 0), s.cols - 1), y := Min(Max(y, 0), s.rows - 1))
  }

  /** `scrollUp`: line 0 is dropped, every other line moves up by one, an
      empty line is added at the bottom and the cursor goes to the last row.
      It is also entered with the cursor one row below the grid. */
  function ScrollUp(s: Screen): (r: Screen)
    requires GridShape(s)
    ensures GridShape(r) && r == s.(lines := r.lines, y := s.rows - 1)
    ensures forall i :: 0 <= i < s.rows - 1 ==> r.lines[i] == s.lines[i + 1]
    ensures r.lines[s.rows - 1] == []
    ensures 0 <= s.x < s.cols ==> WellFormed(r)
  {
    s.(lines := (if s.lines != [] then s.lines[1..] else []) + [[]], y := s.rows - 1)
  }

  // Erasing

  /** `eraseLineFromCursor`: the current line is cut at the cursor column. */
  function EraseLineFromCursor(s: Screen): (r: Screen)
    requires WellFormed(s)
    ensures WellFormed(r) && r == s.(lines := r.lines) && |r.lines| == |s.lines|
    ensures r.lines[s.y] == s.lines[s.y][..Min(s.x, |s.lines[s.y]|)]
    ensures forall i :: 0 <= i < s.rows && i != s.y ==> r.lines[i] == s.lines[i]
  {
    var line := s.lines[s.y];
    if |line| > s.x then s.(lines := s.lines[s.y := line[..s.x]]) else s
  }

  /** `eraseLineToCursor`: the characters up to and including the cursor
      column are deleted and the rest of the line shifts left. */
  function EraseLineToCursor(s: Screen): (r: Screen)
    requires WellFormed(s)
    ensures WellFormed(r) && r == s.(lines := r.lines) && |r.lines| == |s.lines|
    ensures r.lines[s.y] == s.lines[s.y][Min(s.x + 1, |s.lines[s.y]|)..]
    ensures forall i :: 0 <= i < s.rows && i != s.y ==> r.lines[i] == s.lines[i]
  {
    var line := s.lines[s.y];
    s.(lines := s.lines[s.y := line[Min(s.x + 1, |line|)..]])
  }

  /** `eraseEntireLine`: the current line becomes empty. */
  function EraseEntireLine(s: Screen): (r: Screen)
    requires WellFormed(s)
    ensures WellFormed(r) && r == s.(lines := r.lines) && |r.lines| == |s.lines|
    ensures r.lines[s.y] == []
    ensures forall i :: 0 <= i < s.rows && i != s.y ==> r.lines[i] == s.lines[i]
  {
    s.(lines := s.lines[s.y := []])
  }

  /** `eraseBelow`: the current line is cut at the cursor and every line
      below it is emptied; lines above are untouched. */
  function EraseBelow(s: Screen): (r: Screen)
    requires WellFormed(s)
    ensures WellFormed(r) && r == s.(lines := r.lines) && |r.lines| == |s.lines|
    ensures r.lines[s.y] == s.lines[s.y][..Min(s.x, |s.lines[s.y]|)]
    ensures forall i :: s.y < i < s.rows ==> r.lines[i] == []
    ensures forall i :: 0 <= i < s.y ==> r.lines[i] == s.lines[i]
  {
    var t := EraseLineFromCursor(s);
    t.(lines := seq(s.rows, i requires 0 <= i < s.rows => if i > s.y then [] else t.lines[i]))
  }

  /** `eraseAbove`: the current line loses its characters up to and
      including the cursor, and every line above it is emptied. */
  function EraseAbove(s: Screen): (r: Screen)
    requires WellFormed(s)
    ensures WellFormed(r) && r == s.(lines := r.lines) && |r.lines| == |s.lines|
    ensures r.lines[s.y] == s.lines[s.y][Min(s.x + 1, |s.lines[s.y]|)..]
    ensures forall i :: 0 <= i < s.y ==> r.lines[i] == []
    ensures forall i :: s.y < i < s.rows ==> r.lines[i] == s.lines[i]
  {
    var t := EraseLineToCursor(s);
    t.(lines := seq(s.rows, i requires 0 <= i < s.rows => if i < s.y then [] else t.lines[i]))
  }

  /** `eraseInDisplay`: 0 erases below, 1 above, 2 empties every line and
      homes the cursor; any other mode changes nothing. */
  function EraseInDisplay(s: Screen, mode: int): (r: Screen)
    requires WellFormed(s)
    ensures WellFormed(r) && r.rows == s.rows && r.cols == s.cols && r.attrs == s.attrs
    ensures mode == 0 ==> r == EraseBelow(s)
    ensures mode == 1 ==> r == EraseAbove(s)
    ensures mode == 2 ==> r.x == 0 && r.y == 0 && forall i :: 0 <= i < s.rows ==> r.lines[i] == []
    ensures mode !in {0, 1, 2} ==> r == s
  {
    if mode == 0 then EraseBelow(s)
    else if mode == 1 then EraseAbove(s)
    else if mode == 2 then SetCursorPosition(s.(lines := EmptyLines(s.rows)), 0, 0)
    else s
  }

  /** `eraseInLine`: modes 0, 1, 2 erase to the end, from the start, or all of
      the current line; other lines never change, nor does anything for
      another mode. */
  function EraseInLine(s: Screen, mode: int): (r: Screen)
    requires WellFormed(s)
    ensures WellFormed(r) && r == s.(lines := r.lines) && |r.lines| == |s.lines|
    ensures forall i :: 0 <= i < s.rows && i != s.y ==> r.lines[i] == s.lines[i]
    ensures mode == 0 ==> r.lines[s.y] == s.lines[s.y][..Min(s.x, |s.lines[s.y]|)]
    ensures mode == 1 ==> r.lines[s.y] == s.lines[s.y][Min(s.x + 1, |s.lines[s.y]|)..]
    ensures mode == 2 ==> r.lines[s.y] == []
    ensures mode !in {0, 1, 2} ==> r == s
  {
    if mode == 0 then EraseLineFromCursor(s)
    else if mode == 1 then EraseLineToCursor(s)
    else if mode == 2 then EraseEntireLine(s)
    else s
  }

  // Attributes

  /** `applyGraphicRendition`: only the attributes change, to the SGR fold
      of the codes (see Attributes.SgrForeground and its siblings). */
  function ApplyGraphicRendition(s: Screen, params: seq<int>): (r: Screen)
    ensures r == s.(attrs := r.attrs) && r.attrs == Sgr(s.attrs, params)
    ensures WellFormed(s) ==> WellFormed(r)
  {
    s.(attrs := Sgr(s.attrs, params))
  }

  /** `resetAttributes`: white on clear, not bold, not underlined. */
  function ResetAttributes(s: Screen): (r: Screen)
    ensures r == s.(attrs := Default) && r.attrs == Sgr(s.attrs, [0])
  {
    s.(attrs := Default)
  }

  // Writing characters

  /** The line edit of `appendChar`: pad with blanks up to column `x`, then
      put `g` at `x`, replacing what was there or extending the line. */
  function PutGlyph(line: Line, x: nat, g: Glyph): (r: Line)
    ensures |r| == Max(|line|, x + 1)
    ensures r[x] == g
    ensures forall i :: 0 <= i < |line| && i != x ==> r[i] == line[i]
    ensures forall i :: |line| <= i < x ==> r[i] == Blank
  {
    var padded := if x > |line| then line + seq(x - |line|, _ => Blank) else line;
    if x < |padded| then padded[x := g] else padded + [g]
  }

  /** `appendChar`: the character with the current attributes lands at the
      cursor, the cursor moves one column right, wrapping to the start of the
      next row after the last column and scrolling when it leaves the last
      row. Only the cursor's line changes before the scroll. */
  function AppendChar(s: Screen, c: char): (r: Screen)
    requires WellFormed(s)
    ensures WellFormed(r) && r.rows == s.rows && r.cols == s.cols && r.attrs == s.attrs
    ensures var written := s.lines[s.y := PutGlyph(s.lines[s.y], s.x, Written(c, s.attrs))];
      if s.x + 1 < s.cols then r.lines == written && r.x == s.x + 1 && r.y == s.y
      else if s.y + 1 < s.rows then r.lines == written && r.x == 0 && r.y == s.y + 1
      else r.lines == written[1..] + [[]] && r.x == 0 && r.y == s.y
  {
    var line := PutGlyph(s.lines[s.y], s.x, Written(c, s.attrs));
    var t := s.(lines := s.lines[s.y := line], x := s.x + 1);
    if t.x >= s.cols then
      var u := t.(x := 0, y := t.y + 1);
      if u.y >= s.rows then ScrollUp(u) else u
    else t
  }

  /** `handleBackspace`: one column left, or to the last column of the
      previous row from column 0, or nowhere from the origin; then the
      character under the new cursor is deleted if the line reaches it. */
  function HandleBackspace(s: Screen): (r: Screen)
    requires WellFormed(s)
    ensures WellFormed(r) && r == s.(lines := r.lines, x := r.x, y := r.y) && |r.lines| == |s.lines|
    ensures s.x > 0 ==> r.x == s.x - 1 && r.y == s.y
    ensures s.x == 0 && s.y > 0 ==> r.x == s.cols - 1 && r.y == s.y - 1
    ensures s.x == 0 && s.y == 0 ==> r.x == 0 && r.y == 0
    ensures var line := s.lines[r.y];
      r.lines[r.y] == if r.x < |line| then line[..r.x] + line[r.x + 1..] else line
    ensures forall i :: 0 <= i < s.rows && i != r.y ==> r.lines[i] == s.lines[i]
  {
    var t := if s.x > 0 then s.(x := s.x - 1)
             else if s.y > 0 then s.(y := s.y - 1, x := s.cols - 1)
             else s;
    var line := t.lines[t.y];
    if |line| > t.x then t.(lines := t.lines[t.y := line[..t.x] + line[t.x + 1..]]) else t
  }

  /** `addCarriageReturn`. */
  function AddCarriageReturn(s: Screen): (r: Screen)
    requires WellFormed(s)
    ensures WellFormed(r) && r == s.(x := 0)
  {
    s.(x := 0)
  }

  /** `addLineFeed`: one row down, scrolling at the bottom (the cursor then
      stays on the last row). */
  function AddLineFeed(s: Screen): (r: Screen)
    requires WellFormed(s)
    ensures WellFormed(r) && r.rows == s.rows && r.cols == s.cols && r.x == s.x && r.attrs == s.attrs
    ensures s.y + 1 < s.rows ==> r == s.(y := s.y + 1)
    ensures s.y + 1 == s.rows ==> r.y == s.y && r.lines == s.lines[1..] + [[]]
  {
    var t := s.(y := s.y + 1);
    if t.y >= s.rows then ScrollUp(t) else t
  }

  /** `addNewLine`: carriage return, then line feed. */
  function AddNewLine(s: Screen): (r: Screen)
    requires WellFormed(s)
    ensures WellFormed(r) && r == AddLineFeed(AddCarriageReturn(s)) && r.x == 0
  {
    AddLineFeed(AddCarriageReturn(s))
  }

  /** Tab stops sit every 8 columns. */
  predicate IsTabStop(k: int)
  {
    k % 8 == 0
  }

  /** `advanceCursorToNextTabStop`: the first tab stop right of the cursor,
      or the last column when that stop lies beyond the grid. */
  function AdvanceCursorToNextTabStop(s: Screen): (r: Screen)
    requires WellFormed(s)
    ensures WellFormed(r) && r == s.(x := r.x) && s.x <= r.x
    ensures r.x < s.cols - 1 ==> s.x < r.x && IsTabStop(r.x)
    ensures forall k :: s.x < k < r.x ==> !IsTabStop(k)
    ensures r.x == s.cols - 1 ==> forall k :: s.x < k < s.cols ==> !IsTabStop(k) || k == s.cols - 1
  {
    s.(x := Min((s.x / 8 + 1) * 8, s.cols - 1))
  }

  // Resizing

  /** `resize`: exactly `newRows` lines, the surviving ones untouched, new
      ones empty; the cursor is pulled back into the new grid. */
  function Resize(s: Screen, newRows: int, newCols: int): (r: Screen)
    requires WellFormed(s) && 1 <= newRows && 1 <= newCols
    ensures WellFormed(r) && r.rows == newRows && r.cols == newCols && r.attrs == s.attrs
    ensures forall i :: 0 <= i < newRows ==> r.lines[i] == if i < s.rows then s.lines[i] else []
    ensures r.x == Min(s.x, newCols - 1) && r.y == Min(s.y, newRows - 1)
  {
    var lines := if newRows > |s.lines| then s.lines + EmptyLines(newRows - |s.lines|)
                 else s.lines[..newRows];
    Screen(lines, newRows, newCols, Min(s.x, newCols - 1), Min(s.y, newRows - 1), s.attrs)
  }

  // Properties relating several operations

  /** Growing the grid again after shrinking it keeps the lines both sizes
      share and leaves the others empty; the cursor stays on the grid. */
  lemma ResizeAndBack(s: Screen, rows1: int, cols1: int)
    requires WellFormed(s) && 1 <= rows1 && 1 <= cols1
    ensures var r := Resize(Resize(s, rows1, cols1), s.rows, s.cols);
      WellFormed(r) &&
      (forall i :: 0 <= i < s.rows ==> r.lines[i] == if i < rows1 then s.lines[i] else [])
  {
  }

  /** A backspace right after a character appended at the end of a line
      (away from the last column) leaves the screen as it was. */
  lemma BackspaceUndoesAppend(s: Screen, c: char)
    requires WellFormed(s) && s.x == |s.lines[s.y]| && s.x + 1 < s.cols
    ensures HandleBackspace(AppendChar(s, c)) == s
  {
    var t := AppendChar(s, c);
    var line := t.lines[t.y];
    assert line == s.lines[s.y] + [Written(c, s.attrs)];
    assert line[..s.x] + line[s.x + 1..] == s.lines[s.y];
    assert t.lines[s.y := s.lines[s.y]] == s.lines;
  }

  /** Writing several characters one after the other. */
  function Print(s: Screen, cs: seq<char>): (r: Screen)
    requires WellFormed(s)
    ensures WellFormed(r) && r.rows == s.rows && r.cols == s.cols && r.attrs == s.attrs
    decreases |cs|
  {
    if cs == [] then s else AppendChar(Print(s, cs[..|cs| - 1]), cs[|cs| - 1])
  }

  /** Text that fits before the last column is laid out left to right from
      the cursor: characters land at consecutive columns of the cursor's
      line with the current attributes, what lies left of the cursor and the
      other lines are untouched, and the cursor ends just after the text. */
  lemma {:induction false} PrintWithinLine(s: Screen, cs: seq<char>)
    requires WellFormed(s) && s.x + |cs| < s.cols
    ensures var r := Print(s, cs);
      r.x == s.x + |cs| && r.y == s.y &&
      (forall i :: 0 <= i < s.rows && i != s.y ==> r.lines[i] == s.lines[i]) &&
      |r.lines[s.y]| == (if cs == [] then |s.lines[s.y]| else Max(|s.lines[s.y]|, s.x + |cs|)) &&
      (forall k :: 0 <= k < |cs| ==> r.lines[s.y][s.x + k] == Written(cs[k], s.attrs)) &&
      (forall i :: 0 <= i < s.x && i < |s.lines[s.y]| ==> r.lines[s.y][i] == s.lines[s.y][i])
    decreases |cs|
  {
    if cs != [] {
      var init := cs[..|cs| - 1];
      PrintWithinLine(s, init);
      var p := Print(s, init);
      assert forall k :: 0 <= k < |init| ==> init[k] == cs[k];
      var g := PutGlyph(p.lines[s.y], p.x, Written(cs[|cs| - 1], s.attrs));
      assert Print(s, cs).lines == p.lines[s.y := g];
      assert |g| == Max(|p.lines[s.y]|, p.x + 1);
    }
  }
}

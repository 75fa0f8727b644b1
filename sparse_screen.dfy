/** The screen of mt/Buffer.swift as a value: a dictionary from row number
    to a line of cells, a viewport, an unclamped cursor and the current text
    attributes. Swift stops the program on an out-of-range index or an
    invalid range; the operations that can do so return `Trap` for exactly
    those inputs. The class in module SparseBuffer performs the same
    operations in place. */
module SparseScreen {
  import opened Base
  import opened Attributes

  /** `Viewport`: the first row on screen and the screen's size. */
  datatype Viewport = Viewport(topRow: int, rows: int, cols: int)

  /** `buffer`, `viewport`, `cursorPosition` and the four attribute fields. */
  datatype Screen = Screen(buffer: map<int, seq<Cell>>, viewport: Viewport, x: int, y: int, attrs: Attrs)

  /** `defaultCell`: a NUL character in the default attributes. */
  const DefaultCell := Cell('\0', Default)

  function Repeat(c: Cell, n: nat): (r: seq<Cell>)
    ensures |r| == n && forall i :: 0 <= i < n ==> r[i] == c
  {
    seq(n, _ => c)
  }

  /** The stored cells of a row; a row never written is empty. */
  function Row(buf: map<int, seq<Cell>>, row: int): seq<Cell>
  {
    if row in buf then buf[row] else []
  }

  /** `init(rows:cols:)`. */
  function Init(rows: int, cols: int): (s: Screen)
    ensures s.buffer == map[] && s.viewport == Viewport(0, rows, cols)
    ensures s.x == 0 && s.y == 0 && s.attrs == Default
  {
    Screen(map[], Viewport(0, rows, cols), 0, 0, Default)
  }

  // Cursor movement: only row 0 and column 0 bound the cursor.

  function MoveCursorUp(s: Screen, n: int): (r: Screen)
    ensures r == s.(y := r.y)
    ensures r.y == (if s.y - n >= 0 then s.y - n else 0)
  {
    s.(y := Max(s.y - n, 0))
  }

  function MoveCursorDown(s: Screen, n: int): (r: Screen)
    ensures r == s.(y := s.y + n)
  {
    s.(y := s.y + n)
  }

  function MoveCursorForward(s: Screen, n: int): (r: Screen)
    ensures r == s.(x := s.x + n)
  {
    s.(x := s.x + n)
  }

  function MoveCursorBackward(s: Screen, n: int): (r: Screen)
    ensures r == s.(x := r.x)
    ensures r.x == (if s.x - n >= 0 then s.x - n else 0)
  {
    s.(x := Max(s.x - n, 0))
  }

  /** The cursor is placed as given, with no bound at all. */
  function SetCursorPosition(s: Screen, x: int, y: int): (r: Screen)
    ensures r == s.(x := x, y := y)
  {
    s.(x := x, y := y)
  }

  // Line storage

  /** `ensureSize(forRow:forColumn:)`: the row exists and is padded with
      default cells until it has a cell at `col`; nothing else changes. */
  function EnsureSize(buf: map<int, seq<Cell>>, row: int, col: int): (r: map<int, seq<Cell>>)
    ensures row in r && r == buf[row := r[row]]
    ensures |r[row]| == Max(|Row(buf, row)|, col + 1)
    ensures r[row][..|Row(buf, row)|] == Row(buf, row)
    ensures forall i :: |Row(buf, row)| <= i < |r[row]| ==> r[row][i] == DefaultCell
  {
    var line := Row(buf, row);
    buf[row := if |line| <= col then line + Repeat(DefaultCell, col + 1 - |line|) else line]
  }

  /** `appendChar`: a cell with the current attributes is written at the
      cursor, the row growing as needed, and the cursor moves one column
      right. Traps when the cursor column is negative. */
  function AppendChar(s: Screen, c: char): (r: Outcome<Screen>)
    ensures r.Trap? <==> s.x < 0
    ensures r.Ok? ==> var t := r.value;
      t == s.(buffer := t.buffer, x := s.x + 1)
      && s.y in t.buffer && t.buffer == s.buffer[s.y := t.buffer[s.y]]
      && |t.buffer[s.y]| == Max(|Row(s.buffer, s.y)|, s.x + 1)
      && t.buffer[s.y][s.x] == Cell(c, s.attrs)
      && (forall i :: 0 <= i < |t.buffer[s.y]| && i != s.x ==>
            t.buffer[s.y][i] == if i < |Row(s.buffer, s.y)| then Row(s.buffer, s.y)[i] else DefaultCell)
  {
    if s.x < 0 then Trap
    else
      var buf := EnsureSize(s.buffer, s.y, s.x);
      Ok(s.(buffer := buf[s.y := buf[s.y][s.x := Cell(c, s.attrs)]], x := s.x + 1))
  }

  /** `handleBackspace`: one column left unless at column 0; nothing is erased. */
  function HandleBackspace(s: Screen): (r: Screen)
    ensures r == s.(x := r.x)
    ensures r.x == if s.x > 0 then s.x - 1 else s.x
  {
    if s.x > 0 then s.(x := s.x - 1) else s
  }

  function AddCarriageReturn(s: Screen): (r: Screen)
    ensures r == s.(x := 0)
  {
    s.(x := 0)
  }

  /** `addLineFeed`: one row down, the new row is replaced by an empty
      line, and the viewport's top row advances the least amount that puts
      the cursor row inside the viewport. */
  function AddLineFeed(s: Screen): (r: Screen)
    ensures r == s.(buffer := s.buffer[s.y + 1 := []], viewport := r.viewport, y := s.y + 1)
    ensures r.viewport == s.viewport.(topRow := r.viewport.topRow)
    ensures r.viewport.topRow >= s.viewport.topRow
    ensures r.y < r.viewport.topRow + r.viewport.rows
    ensures r.viewport.topRow == s.viewport.topRow || r.y == r.viewport.topRow + r.viewport.rows - 1
  {
    var y := s.y + 1;
    s.(buffer := s.buffer[y := []],
       viewport := s.viewport.(topRow := Max(s.viewport.topRow, y - s.viewport.rows + 1)),
       y := y)
  }

  function AddNewLine(s: Screen): (r: Screen)
    ensures r == AddLineFeed(s.(x := 0))
  {
    AddLineFeed(AddCarriageReturn(s))
  }

  /** `advanceCursorToNextTabStop`: `((x / 8) + 1) * 8` with Swift's
      division, which rounds toward zero. From a column `x >= 0` this is
      the first multiple of 8 after `x`; from a negative column it is a
      multiple of 8 after `x` but not always the first. */
  function AdvanceCursorToNextTabStop(s: Screen): (r: Screen)
    ensures r == s.(x := r.x)
    ensures r.x % 8 == 0 && r.x > s.x
    ensures s.x >= 0 ==> r.x <= s.x + 8
    ensures -8 < s.x < 0 ==> r.x == 8
  {
    s.(x := (TruncDiv(s.x, 8) + 1) * 8)
  }

  function ResetAttributes(s: Screen): (r: Screen)
    ensures r == s.(attrs := Default)
  {
    s.(attrs := Default)
  }

  /** `applyGraphicRendition`: the codes in order; see `Attributes.Sgr`. */
  function ApplyGraphicRendition(s: Screen, params: seq<int>): (r: Screen)
    ensures r == s.(attrs := Sgr(s.attrs, params))
  {
    s.(attrs := Sgr(s.attrs, params))
  }

  // Erasing

  /** `eraseLineFromCursor`: the row is padded to reach the cursor, then
      every cell from the cursor column to the row's end becomes the
      default cell. Traps when the cursor column is negative, which the
      range `x..<count` would index. */
  function EraseLineFromCursor(s: Screen): (r: Outcome<Screen>)
    ensures r.Trap? <==> s.x < 0
    ensures r.Ok? ==> var t := r.value;
      t == s.(buffer := t.buffer) && s.y in t.buffer && t.buffer == s.buffer[s.y := t.buffer[s.y]]
      && |t.buffer[s.y]| == Max(|Row(s.buffer, s.y)|, s.x + 1)
      && (forall i :: 0 <= i < |t.buffer[s.y]| ==>
            t.buffer[s.y][i] == if i < s.x && i < |Row(s.buffer, s.y)| then Row(s.buffer, s.y)[i] else DefaultCell)
  {
    if s.x < 0 then Trap
    else
      var buf := EnsureSize(s.buffer, s.y, s.x);
      Ok(s.(buffer := buf[s.y := buf[s.y][..s.x] + Repeat(DefaultCell, |buf[s.y]| - s.x)]))
  }

  /** `eraseLineToCursor`: the row is padded to reach the cursor, then the
      cells from column 0 to the cursor column, inclusive, become the
      default cell. Traps when the cursor column is negative, since the
      range `0...x` would be invalid. */
  function EraseLineToCursor(s: Screen): (r: Outcome<Screen>)
    ensures r.Trap? <==> s.x < 0
    ensures r.Ok? ==> var t := r.value;
      t == s.(buffer := t.buffer) && s.y in t.buffer && t.buffer == s.buffer[s.y := t.buffer[s.y]]
      && |t.buffer[s.y]| == Max(|Row(s.buffer, s.y)|, s.x + 1)
      && (forall i :: 0 <= i < |t.buffer[s.y]| ==>
            t.buffer[s.y][i] == if i > s.x then Row(s.buffer, s.y)[i] else DefaultCell)
  {
    if s.x < 0 then Trap
    else
      var buf := EnsureSize(s.buffer, s.y, s.x);
      Ok(s.(buffer := buf[s.y := Repeat(DefaultCell, s.x + 1) + buf[s.y][s.x + 1..]]))
  }

  /** `eraseEntireLine`: the row becomes exactly `cols` default cells.
      Traps when `cols` is negative, an invalid array size. */
  function EraseEntireLine(s: Screen): (r: Outcome<Screen>)
    ensures r.Trap? <==> s.viewport.cols < 0
    ensures r.Ok? ==> r.value == s.(buffer := s.buffer[s.y := Repeat(DefaultCell, s.viewport.cols)])
  {
    if s.viewport.cols < 0 then Trap
    else Ok(s.(buffer := EnsureSize(s.buffer, s.y, s.viewport.cols - 1)[s.y := Repeat(DefaultCell, s.viewport.cols)]))
  }

  /** The rows at or above `row`. */
  function RowsThrough(buf: map<int, seq<Cell>>, row: int): (r: map<int, seq<Cell>>)
    ensures forall k :: k in r <==> k in buf && k <= row
    ensures forall k :: k in r ==> r[k] == buf[k]
  {
    map k | k in buf && k <= row :: buf[k]
  }

  /** The rows at or below `row`. */
  function RowsFrom(buf: map<int, seq<Cell>>, row: int): (r: map<int, seq<Cell>>)
    ensures forall k :: k in r <==> k in buf && k >= row
    ensures forall k :: k in r ==> r[k] == buf[k]
  {
    map k | k in buf && k >= row :: buf[k]
  }

  /** `eraseBelow`: the current line from the cursor, then every row after
      the cursor row is removed. */
  function EraseBelow(s: Screen): (r: Outcome<Screen>)
    ensures r.Trap? <==> s.x < 0
    ensures r.Ok? ==> var e := EraseLineFromCursor(s).value;
      r.value == e.(buffer := RowsThrough(e.buffer, s.y))
  {
    match EraseLineFromCursor(s)
    case Trap => Trap
    case Ok(e) => Ok(e.(buffer := RowsThrough(e.buffer, e.y)))
  }

  /** `eraseAbove`: the current line up to the cursor, then every row
      before the cursor row is removed. */
  function EraseAbove(s: Screen): (r: Outcome<Screen>)
    ensures r.Trap? <==> s.x < 0
    ensures r.Ok? ==> var e := EraseLineToCursor(s).value;
      r.value == e.(buffer := RowsFrom(e.buffer, s.y))
  {
    match EraseLineToCursor(s)
    case Trap => Trap
    case Ok(e) => Ok(e.(buffer := RowsFrom(e.buffer, e.y)))
  }

  /** `eraseInDisplay(mode:)`: 0 below, 1 above, 2 every row removed, any
      other mode nothing. */
  function EraseInDisplay(s: Screen, mode: int): (r: Outcome<Screen>)
    ensures mode == 0 ==> r == EraseBelow(s)
    ensures mode == 1 ==> r == EraseAbove(s)
    ensures mode == 2 ==> r == Ok(s.(buffer := map[]))
    ensures mode !in {0, 1, 2} ==> r == Ok(s)
  {
    if mode == 0 then EraseBelow(s)
    else if mode == 1 then EraseAbove(s)
    else if mode == 2 then Ok(s.(buffer := map[]))
    else Ok(s)
  }

  /** `eraseInLine(mode:)`: 0 from the cursor, 1 to the cursor, 2 the
      whole line, any other mode nothing. */
  function EraseInLine(s: Screen, mode: int): (r: Outcome<Screen>)
    ensures mode == 0 ==> r == EraseLineFromCursor(s)
    ensures mode == 1 ==> r == EraseLineToCursor(s)
    ensures mode == 2 ==> r == EraseEntireLine(s)
    ensures mode !in {0, 1, 2} ==> r == Ok(s)
  {
    if mode == 0 then EraseLineFromCursor(s)
    else if mode == 1 then EraseLineToCursor(s)
    else if mode == 2 then EraseEntireLine(s)
    else Ok(s)
  }

  /** `resizeViewport(rows:cols:)`: the stored rows are kept as they are. */
  function ResizeViewport(s: Screen, rows: int, cols: int): (r: Screen)
    ensures r == s.(viewport := Viewport(s.viewport.topRow, rows, cols))
  {
    s.(viewport := s.viewport.(rows := rows, cols := cols))
  }

  // Properties

  /** The cursor row lies inside the viewport. */
  predicate CursorVisible(s: Screen)
  {
    s.viewport.topRow <= s.y < s.viewport.topRow + s.viewport.rows
  }

  /** A line feed keeps a visible cursor visible, scrolling the viewport
      when the cursor was on its last row. */
  lemma LineFeedKeepsCursorVisible(s: Screen)
    requires CursorVisible(s)
    ensures CursorVisible(AddLineFeed(s))
    ensures AddLineFeed(s).viewport.topRow ==
            if s.y + 1 < s.viewport.topRow + s.viewport.rows then s.viewport.topRow else s.viewport.topRow + 1
  {
  }

  /** `ensureSize` twice is `ensureSize` once. */
  lemma EnsureSizeIdempotent(buf: map<int, seq<Cell>>, row: int, col: int)
    ensures EnsureSize(EnsureSize(buf, row, col), row, col) == EnsureSize(buf, row, col)
  {
  }

  /** Writing a character and backspacing returns the cursor to where it
      was; the character stays. */
  lemma BackspaceAfterAppend(s: Screen, c: char)
    requires s.x >= 0
    ensures var t := HandleBackspace(AppendChar(s, c).value);
      t.x == s.x && t.y == s.y && t.buffer[s.y][s.x] == Cell(c, s.attrs)
  {
  }

  /** The characters `cs` stand side by side in row `y` from column `x`,
      each in the attributes `a`. */
  predicate Holds(buf: map<int, seq<Cell>>, y: int, x: nat, cs: seq<char>, a: Attrs)
  {
    y in buf && x + |cs| <= |buf[y]| && forall i :: 0 <= i < |cs| ==> buf[y][x + i] == Cell(cs[i], a)
  }

  /** Appending right after the characters `cs` written from column `x`
      keeps them and adds the new one behind them. */
  lemma AppendCharExtends(s: Screen, x: nat, cs: seq<char>, c: char)
    requires s.x == x + |cs|
    requires cs == [] || Holds(s.buffer, s.y, x, cs, s.attrs)
    ensures AppendChar(s, c).Ok?
    ensures Holds(AppendChar(s, c).value.buffer, s.y, x, cs + [c], s.attrs)
  {
    var t := AppendChar(s, c).value;
    forall i | 0 <= i < |cs| + 1
      ensures t.buffer[s.y][x + i] == Cell((cs + [c])[i], s.attrs)
    {
      if i < |cs| {
        assert x + i < |Row(s.buffer, s.y)| && x + i != s.x;
      }
    }
  }

  /** After `ESC [ 0 J` from a column `x >= 0`, no row below the cursor is
      stored, and the cursor row holds default cells from the cursor on. */
  lemma EraseBelowClears(s: Screen)
    requires s.x >= 0
    ensures var t := EraseInDisplay(s, 0).value;
      (forall k :: k in t.buffer ==> k <= s.y)
      && s.y in t.buffer
      && (forall i :: s.x <= i < |t.buffer[s.y]| ==> t.buffer[s.y][i] == DefaultCell)
      && (forall k :: k in s.buffer && k < s.y ==> k in t.buffer && t.buffer[k] == s.buffer[k])
  {
    var e := EraseLineFromCursor(s).value;
    assert e.buffer == s.buffer[s.y := e.buffer[s.y]];
  }

  /** After `ESC [ 1 J` from a column `x >= 0`, no row above the cursor is
      stored, and the cursor row holds default cells up to the cursor. */
  lemma EraseAboveClears(s: Screen)
    requires s.x >= 0
    ensures var t := EraseInDisplay(s, 1).value;
      (forall k :: k in t.buffer ==> k >= s.y)
      && s.y in t.buffer
      && (forall i :: 0 <= i <= s.x ==> t.buffer[s.y][i] == DefaultCell)
      && (forall k :: k in s.buffer && k > s.y ==> k in t.buffer && t.buffer[k] == s.buffer[k])
  {
    var e := EraseLineToCursor(s).value;
    assert e.buffer == s.buffer[s.y := e.buffer[s.y]];
  }
}

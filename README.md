# mt terminal emulator core, modelled in Dafny

`mt` is a small macOS terminal emulator written in Swift. A pseudo-terminal
runs a shell. The shell's output is fed to an ANSI escape-sequence parser,
which drives a screen buffer, and keystrokes are written back as bytes. This
project models the emulator's core and proves properties of it:

- **Screen buffers.**
  - `mt/terminal/Buffer.swift` keeps one variable-length line per row, a cursor clamped to the grid, and scrolling. It is modelled as the value `LineScreen` plus the class `LineBuffer.Buffer`.
  - `mt/Buffer.swift` keeps a dictionary from row number to cells, a viewport and an unclamped cursor. It is modelled as the value `SparseScreen` plus the class `SparseBuffer.Buffer`. Swift stops the program on an out-of-range index or an invalid range. The functions that can do this return `Trap` for exactly those inputs.
  - `mt/TerminalBuffer.swift` fills a fixed grid with a test pattern and has a write position. It is modelled as the class `Grid.TerminalBuffer`.
  - The SGR code table and the colours both buffers share are in `Attributes`.
- **Parsers.**
  - `mt/terminal/AnsiParser.swift` is a byte parser with normal, escape, CSI, OSC and SOS/PM/APC states. It drives the line buffer and is modelled as `ByteMachine.Step`/`Run` plus the class `ByteParser.AnsiParser`.
  - `mt/AnsiParser.swift` is a character parser with ground, escape, CSI entry, CSI parameter and CSI intermediate states. It drives the sparse buffer and is modelled as `CharMachine.Step`/`Run` plus the class `CharParser.AnsiParser`.
- **Pseudo-terminal.** Both `Pty.swift` files are covered:
  - the special-key byte table, the `winsize` passed at start-up and on resize, and the bytes `sendInput` writes (`Pty`);
  - the read loop, which reads at most 1023 bytes into a 1024-byte array and passes each byte to `parse(byte:)` (`PtyReader`).

Each class's methods update its fields in place. Each method is proved to
produce exactly the new state that a pure function of the old state
describes (`Model() == LineScreen.AppendChar(old(Model()), c)` and so on).
The properties are proved as lemmas about those functions. Among them:

- Encoding then parsing returns the parameters. `ESC [ p1;...;pn F` reaches the buffer operation selected by `F` with exactly `p1..pn`, in both parsers, also with intermediate characters before `F`.
- The SGR fold has a closed form: the last code that touches an attribute decides it.
- The split of the output into reads does not affect the final state.
- Erase, resize and tab-stop contracts cover contents, not just lengths.
- `sendInput` writes the UTF-8 bytes before the first NUL and nothing else.
- The arrow-key bytes, read back, are exactly the one-step cursor moves.

Some lemmas pin down what the code does as written where that may be
surprising:

- In `mt/AnsiParser.swift` an aborted control sequence keeps its parameters for the next one (`CharMachine.AbortKeepsParameters`).
- `ESC [ 0 ; 0 H` followed by a printable character stops the program under `mt/Buffer.swift` (`CharMachine.ZeroCursorPositionTraps`).

A few facts about the code that the model states as they are:

- **Arrow keys.** Left writes `ESC [ D` and Right writes `ESC [ C`.
- **Zero counts.** A cursor move with parameter 0 moves by 0; it is not taken as 1.
- **Backspace.** In `mt/terminal/Buffer.swift` backspace deletes the character under the new cursor.
- **Unclamped cursor.** In `mt/Buffer.swift` the cursor is not clamped to the viewport.
- **String terminator.** In `mt/terminal/AnsiParser.swift` an OSC string ends at ESC only when the string already ends in a backslash. The standard terminator `ESC \` therefore does not end it, and `\ ESC` does (`ByteMachine.OscStringTerminatorKept`, `ByteMachine.OscBackslashEscEnds`).
- **Canonical equivalence.** `mt/AnsiParser.swift` compares `Character`s, which Swift does up to canonical equivalence. U+037E GREEK QUESTION MARK therefore separates parameters like `;`, and U+212A KELVIN SIGN and U+1FEF GREEK VARIA end a control sequence like `K` and a backquote (`CharMachine.Canon`).

## Model

| member | source | states |
|---|---|---|
| Attributes.AnsiColor | mt/terminal/Buffer.swift:207-219 | codes 0..7 name the eight palette colours in order, any other code gives white, never clear |
| Attributes.SgrCode | mt/terminal/Buffer.swift:100-117 | one code changes only the attributes it touches: 0 restores the defaults, 1 only bold, 4 only underline, 30..37 only the foreground, 40..47 only the background |
| Attributes.Sgr | mt/terminal/Buffer.swift:100-117 | the codes in order: a trailing 0 leaves the defaults, and an attribute no code in the list touches keeps its value |
| Attributes.LastTouch | mt/terminal/Buffer.swift:100-117 | the position of the last code of the list that touches an attribute, or -1; no later code touches it |
| Attributes.SgrConcat | mt/terminal/Buffer.swift:100-117 | applying two parameter lists one after the other equals applying their concatenation |
| Attributes.SgrForeground | mt/terminal/Buffer.swift:100-117 | the foreground after a list is set by the last code among 0 and 30..37: white for 0, the palette colour for 30..37, unchanged if none occurs |
| Attributes.SgrBackground | mt/terminal/Buffer.swift:100-117 | the background after a list is set by the last code among 0 and 40..47: clear for 0, the palette colour for 40..47, unchanged if none occurs |
| Attributes.SgrBold | mt/terminal/Buffer.swift:100-117 | bold is on after a list iff the last code among 0 and 1 is 1, or neither occurs and it was on |
| Attributes.SgrUnderline | mt/terminal/Buffer.swift:100-117 | underline is on after a list iff the last code among 0 and 4 is 4, or neither occurs and it was on |
| Attributes.SgrIgnoresUnknownCodes | mt/Buffer.swift:107-128 | a list of codes outside the table leaves all four attributes unchanged |
| LineScreen.EmptyLines | mt/terminal/Buffer.swift:31 | `n` lines, all empty |
| LineScreen.Init | mt/terminal/Buffer.swift:27-32 | one empty line per row, cursor at the origin, default attributes, well formed |
| LineScreen.MoveCursorUp | mt/terminal/Buffer.swift:36-38 | only the row changes: up by `n`, or to row 0 if `n` exceeds it; the cursor stays on the grid |
| LineScreen.MoveCursorDown | mt/terminal/Buffer.swift:40-42 | only the row changes: down by `n`, or to the last row if that would leave the grid |
| LineScreen.MoveCursorForward | mt/terminal/Buffer.swift:44-46 | only the column changes: right by `n`, or to the last column if that would leave the grid |
| LineScreen.MoveCursorBackward | mt/terminal/Buffer.swift:48-50 | only the column changes: left by `n`, or to column 0 |
| LineScreen.SetCursorPosition | mt/terminal/Buffer.swift:52-55 | each axis is kept if in range, set to 0 below the grid and to the last index beyond it; nothing else changes |
| LineScreen.ScrollUp | mt/terminal/Buffer.swift:57-67 | every line moves up by one, the last line is empty, the cursor goes to the last row, and the screen is well formed again |
| LineScreen.EraseLineFromCursor | mt/terminal/Buffer.swift:260-270 | the cursor line is cut at the cursor column; every other line and the cursor are unchanged |
| LineScreen.EraseLineToCursor | mt/terminal/Buffer.swift:272-283 | the cursor line loses its characters up to and including the cursor column, and the rest shifts left; other lines are unchanged |
| LineScreen.EraseEntireLine | mt/terminal/Buffer.swift:285-290 | the cursor line becomes empty; other lines are unchanged |
| LineScreen.EraseBelow | mt/terminal/Buffer.swift:223-239 | the cursor line is cut at the cursor, every line below is empty, every line above is unchanged |
| LineScreen.EraseAbove | mt/terminal/Buffer.swift:241-258 | the cursor line loses its head up to the cursor, every line above is empty, every line below is unchanged |
| LineScreen.EraseInDisplay | mt/terminal/Buffer.swift:71-83 | mode 0 erases below, 1 above, 2 empties every line and homes the cursor, any other mode changes nothing |
| LineScreen.EraseInLine | mt/terminal/Buffer.swift:85-96 | modes 0, 1, 2 erase to the end, from the start, or all of the cursor line; other lines never change, and other modes change nothing |
| LineScreen.ApplyGraphicRendition | mt/terminal/Buffer.swift:100-117 | only the attributes change, to the SGR fold of the codes |
| LineScreen.ResetAttributes | mt/terminal/Buffer.swift:200-205 | the attributes become white on clear, not bold, not underlined, the same as SGR code 0 |
| LineScreen.PutGlyph | mt/terminal/Buffer.swift:125-149 | the line is padded with blanks up to the column and the glyph is at the column; every other slot is kept |
| LineScreen.AppendChar | mt/terminal/Buffer.swift:121-159 | the character with the current attributes is at the cursor; the cursor moves right, wraps to the next row after the last column, and scrolls once past the last row |
| LineScreen.HandleBackspace | mt/terminal/Buffer.swift:161-176 | the cursor moves left, or to the end of the previous row from column 0, or stays at the origin; the character under the new cursor is deleted; other lines are unchanged |
| LineScreen.AddCarriageReturn | mt/terminal/Buffer.swift:178-180 | only the column changes, to 0 |
| LineScreen.AddLineFeed | mt/terminal/Buffer.swift:182-187 | one row down; on the last row the lines scroll up by one and the cursor stays on the last row |
| LineScreen.AddNewLine | mt/terminal/Buffer.swift:189-192 | carriage return then line feed; the column ends at 0 |
| LineScreen.AdvanceCursorToNextTabStop | mt/terminal/Buffer.swift:194-198 | the cursor moves to the first multiple of 8 right of it, or to the last column when no such stop lies on the grid, skipping no tab stop |
| LineScreen.Resize | mt/terminal/Buffer.swift:294-309 | exactly `newRows` lines, the surviving lines unchanged, new lines empty, the cursor clamped into the new grid |
| LineScreen.ResizeAndBack | mt/terminal/Buffer.swift:294-309 | shrinking and growing back keeps the shared lines, leaves the others empty, and keeps the screen well formed |
| LineScreen.BackspaceUndoesAppend | mt/terminal/Buffer.swift:121-176 | a backspace right after appending a character at the end of a line, away from the last column, restores the screen exactly |
| LineScreen.Print | mt/terminal/Buffer.swift:121-159 | characters appended one by one keep the screen well formed, its size and its attributes |
| LineScreen.PrintWithinLine | mt/terminal/Buffer.swift:121-159 | text that fits before the last column lands at consecutive columns from the cursor with the current attributes; other lines and the part left of the cursor are unchanged, and the cursor ends after the text |
| LineBuffer.Buffer.constructor | mt/terminal/Buffer.swift:27-32 | the new buffer's fields are `LineScreen.Init(rows, cols)` |
| LineBuffer.Buffer.MoveCursorUp | mt/terminal/Buffer.swift:36-38 | the fields become `LineScreen.MoveCursorUp` of the old fields, and the buffer stays valid |
| LineBuffer.Buffer.MoveCursorDown | mt/terminal/Buffer.swift:40-42 | the fields become `LineScreen.MoveCursorDown` of the old fields |
| LineBuffer.Buffer.MoveCursorForward | mt/terminal/Buffer.swift:44-46 | the fields become `LineScreen.MoveCursorForward` of the old fields |
| LineBuffer.Buffer.MoveCursorBackward | mt/terminal/Buffer.swift:48-50 | the fields become `LineScreen.MoveCursorBackward` of the old fields |
| LineBuffer.Buffer.SetCursorPosition | mt/terminal/Buffer.swift:52-55 | the fields become `LineScreen.SetCursorPosition` of the old fields |
| LineBuffer.Buffer.ScrollUp | mt/terminal/Buffer.swift:57-67 | the fields become `LineScreen.ScrollUp` of the old fields, also when entered with the cursor below the grid |
| LineBuffer.Buffer.EraseInDisplay | mt/terminal/Buffer.swift:71-83 | the fields become `LineScreen.EraseInDisplay` of the old fields |
| LineBuffer.Buffer.EraseInLine | mt/terminal/Buffer.swift:85-96 | the fields become `LineScreen.EraseInLine` of the old fields |
| LineBuffer.Buffer.EraseBelow | mt/terminal/Buffer.swift:223-239 | the loop over the rows below the cursor leaves the fields at `LineScreen.EraseBelow` of the old fields |
| LineBuffer.Buffer.EraseAbove | mt/terminal/Buffer.swift:241-258 | the loop over the rows above the cursor leaves the fields at `LineScreen.EraseAbove` of the old fields |
| LineBuffer.Buffer.EraseLineFromCursor | mt/terminal/Buffer.swift:260-270 | the fields become `LineScreen.EraseLineFromCursor` of the old fields |
| LineBuffer.Buffer.EraseLineToCursor | mt/terminal/Buffer.swift:272-283 | the fields become `LineScreen.EraseLineToCursor` of the old fields |
| LineBuffer.Buffer.EraseEntireLine | mt/terminal/Buffer.swift:285-290 | the fields become `LineScreen.EraseEntireLine` of the old fields |
| LineBuffer.Buffer.ApplyGraphicRendition | mt/terminal/Buffer.swift:100-117 | the loop over the codes leaves the fields at `LineScreen.ApplyGraphicRendition` of the old fields |
| LineBuffer.Buffer.ResetAttributes | mt/terminal/Buffer.swift:200-205 | the fields become `LineScreen.ResetAttributes` of the old fields |
| LineBuffer.Buffer.AppendChar | mt/terminal/Buffer.swift:121-159 | the fields become `LineScreen.AppendChar` of the old fields |
| LineBuffer.Buffer.HandleBackspace | mt/terminal/Buffer.swift:161-176 | the fields become `LineScreen.HandleBackspace` of the old fields |
| LineBuffer.Buffer.AddCarriageReturn | mt/terminal/Buffer.swift:178-180 | the fields become `LineScreen.AddCarriageReturn` of the old fields |
| LineBuffer.Buffer.AddLineFeed | mt/terminal/Buffer.swift:182-187 | the fields become `LineScreen.AddLineFeed` of the old fields |
| LineBuffer.Buffer.AddNewLine | mt/terminal/Buffer.swift:189-192 | the fields become `LineScreen.AddNewLine` of the old fields |
| LineBuffer.Buffer.AdvanceCursorToNextTabStop | mt/terminal/Buffer.swift:194-198 | the fields become `LineScreen.AdvanceCursorToNextTabStop` of the old fields |
| LineBuffer.Buffer.Resize | mt/terminal/Buffer.swift:294-309 | the fields become `LineScreen.Resize` of the old fields |
| SparseScreen.Init | mt/Buffer.swift:42-44 | no stored rows, viewport at row 0 with the given size, cursor at the origin, default attributes |
| SparseScreen.MoveCursorUp | mt/Buffer.swift:47-49 | only the row changes: up by `n`, or to 0 if that would be negative |
| SparseScreen.MoveCursorDown | mt/Buffer.swift:52-54 | only the row changes, by `n`, with no lower bound |
| SparseScreen.MoveCursorForward | mt/Buffer.swift:57-59 | only the column changes, by `n`, with no right bound |
| SparseScreen.MoveCursorBackward | mt/Buffer.swift:62-64 | only the column changes: left by `n`, or to 0 if that would be negative |
| SparseScreen.SetCursorPosition | mt/Buffer.swift:67-70 | the cursor is placed as given, unbounded; nothing else changes |
| SparseScreen.EnsureSize | mt/Buffer.swift:205-212 | the row exists and reaches the column; its old cells are a prefix, and the rest are default cells; no other row changes |
| SparseScreen.AppendChar | mt/Buffer.swift:131-149 | traps iff the column is negative; otherwise the cell at the cursor holds the character with the current attributes, the row is padded with default cells, other cells and rows are unchanged, and the column advances by one |
| SparseScreen.AppendCharExtends | mt/Buffer.swift:131-149 | appending right behind characters already written from a column of at least 0 keeps them and places the new character after them, in the current attributes |
| SparseScreen.HandleBackspace | mt/Buffer.swift:151-155 | the column decreases by one unless it is at most 0; nothing is erased |
| SparseScreen.AddCarriageReturn | mt/Buffer.swift:157-159 | only the column changes, to 0 |
| SparseScreen.AddLineFeed | mt/Buffer.swift:161-167 | one row down, that row replaced by an empty line; the viewport's top row never decreases, the cursor row ends inside the viewport, and the top moves only as far as needed |
| SparseScreen.AddNewLine | mt/Buffer.swift:169-172 | a line feed from column 0 |
| SparseScreen.AdvanceCursorToNextTabStop | mt/Buffer.swift:175-179 | with Swift's division rounding toward zero: a multiple of 8 right of the cursor, at most 8 columns away from a column of at least 0, and 8 from columns -7..-1 |
| Base.TruncDiv | mt/Buffer.swift:175-179 | Swift's `/` on `Int` rounds toward zero: the remainder `a - d*q` has the sign of the dividend (at least 0 for `a >= 0`, at most 0 for `a < 0`) and is smaller than `d` in size |
| Base.TruncDivOdd | mt/Buffer.swift:175-179 | rounding toward zero is symmetric: negating the dividend negates the quotient, which Euclidean division does not do |
| SparseScreen.ResetAttributes | mt/Buffer.swift:182-187 | only the attributes change, to the defaults |
| SparseScreen.ApplyGraphicRendition | mt/Buffer.swift:107-128 | only the attributes change, to the SGR fold of the codes |
| SparseScreen.EraseLineFromCursor | mt/Buffer.swift:241-249 | traps iff the column is negative; otherwise the row is padded to reach the cursor, cells left of the cursor are kept, and the cursor cell and every later cell are default cells |
| SparseScreen.EraseLineToCursor | mt/Buffer.swift:252-260 | traps iff the column is negative; otherwise the row is padded to reach the cursor, cells up to and including the cursor are default cells, and later cells are kept |
| SparseScreen.EraseEntireLine | mt/Buffer.swift:263-266 | traps iff the viewport width is negative; otherwise the row is exactly `cols` default cells |
| SparseScreen.RowsThrough | mt/Buffer.swift:221-224 | exactly the stored rows at or above the given row, with their contents |
| SparseScreen.RowsFrom | mt/Buffer.swift:234-237 | exactly the stored rows at or below the given row, with their contents |
| SparseScreen.EraseBelow | mt/Buffer.swift:215-225 | traps iff the column is negative; otherwise the line is erased from the cursor and every row after the cursor row is removed |
| SparseScreen.EraseAbove | mt/Buffer.swift:228-238 | traps iff the column is negative; otherwise the line is erased up to the cursor and every row before the cursor row is removed |
| SparseScreen.EraseInDisplay | mt/Buffer.swift:73-87 | mode 0 erases below, 1 above, 2 removes every row, any other mode changes nothing |
| SparseScreen.EraseInLine | mt/Buffer.swift:90-104 | modes 0, 1, 2 erase from the cursor, to the cursor, or the whole line; other modes change nothing |
| SparseScreen.ResizeViewport | mt/Buffer.swift:269-272 | the viewport takes the new size, keeping its top row; the stored rows and the cursor are unchanged |
| SparseScreen.LineFeedKeepsCursorVisible | mt/Buffer.swift:161-167 | a line feed from a visible cursor keeps it visible, and the top row advances by exactly one iff the cursor was on the last visible row |
| SparseScreen.EnsureSizeIdempotent | mt/Buffer.swift:205-212 | `ensureSize` twice equals `ensureSize` once |
| SparseScreen.BackspaceAfterAppend | mt/Buffer.swift:131-155 | writing a character and then backspacing returns the cursor to where it was, and the character stays |
| SparseScreen.EraseBelowClears | mt/Buffer.swift:215-225 | after `ESC [ 0 J`: no stored row below the cursor, default cells from the cursor on, rows above are kept |
| SparseScreen.EraseAboveClears | mt/Buffer.swift:228-238 | after `ESC [ 1 J`: no stored row above the cursor, default cells up to the cursor, rows below are kept |
| SparseBuffer.Buffer.constructor | mt/Buffer.swift:42-44 | the new buffer's fields are `SparseScreen.Init(rows, cols)` |
| SparseBuffer.Buffer.MoveCursorUp | mt/Buffer.swift:47-49 | the fields become `SparseScreen.MoveCursorUp` of the old fields |
| SparseBuffer.Buffer.MoveCursorDown | mt/Buffer.swift:52-54 | the fields become `SparseScreen.MoveCursorDown` of the old fields |
| SparseBuffer.Buffer.MoveCursorForward | mt/Buffer.swift:57-59 | the fields become `SparseScreen.MoveCursorForward` of the old fields |
| SparseBuffer.Buffer.MoveCursorBackward | mt/Buffer.swift:62-64 | the fields become `SparseScreen.MoveCursorBackward` of the old fields |
| SparseBuffer.Buffer.SetCursorPosition | mt/Buffer.swift:67-70 | the fields become `SparseScreen.SetCursorPosition` of the old fields |
| SparseBuffer.Buffer.EraseInDisplay | mt/Buffer.swift:73-87 | for a mode that does not trap, the fields become `SparseScreen.EraseInDisplay` of the old fields |
| SparseBuffer.Buffer.EraseInLine | mt/Buffer.swift:90-104 | for a mode that does not trap, the fields become `SparseScreen.EraseInLine` of the old fields |
| SparseBuffer.Buffer.ApplyGraphicRendition | mt/Buffer.swift:107-128 | the loop over the codes leaves the fields at `SparseScreen.ApplyGraphicRendition` of the old fields |
| SparseBuffer.Buffer.AppendChar | mt/Buffer.swift:131-149 | from a column of at least 0, the fields become `SparseScreen.AppendChar` of the old fields |
| SparseBuffer.Buffer.HandleBackspace | mt/Buffer.swift:151-155 | the fields become `SparseScreen.HandleBackspace` of the old fields |
| SparseBuffer.Buffer.AddCarriageReturn | mt/Buffer.swift:157-159 | the fields become `SparseScreen.AddCarriageReturn` of the old fields |
| SparseBuffer.Buffer.AddLineFeed | mt/Buffer.swift:161-167 | the `while` loop raising the top row leaves the fields at `SparseScreen.AddLineFeed` of the old fields |
| SparseBuffer.Buffer.AddNewLine | mt/Buffer.swift:169-172 | the fields become `SparseScreen.AddNewLine` of the old fields |
| SparseBuffer.Buffer.AdvanceCursorToNextTabStop | mt/Buffer.swift:175-179 | the fields become `SparseScreen.AdvanceCursorToNextTabStop` of the old fields |
| SparseBuffer.Buffer.ResetAttributes | mt/Buffer.swift:182-187 | the fields become `SparseScreen.ResetAttributes` of the old fields |
| SparseBuffer.Buffer.EnsureSize | mt/Buffer.swift:205-212 | the padding loop leaves the row dictionary at `SparseScreen.EnsureSize` of the old one |
| SparseBuffer.Buffer.EraseBelow | mt/Buffer.swift:215-225 | the loop removing the filtered keys leaves the fields at `SparseScreen.EraseBelow` of the old fields |
| SparseBuffer.Buffer.EraseAbove | mt/Buffer.swift:228-238 | the loop removing the filtered keys leaves the fields at `SparseScreen.EraseAbove` of the old fields |
| SparseBuffer.Buffer.EraseLineFromCursor | mt/Buffer.swift:241-249 | the loop over the row's tail leaves the fields at `SparseScreen.EraseLineFromCursor` of the old fields |
| SparseBuffer.Buffer.EraseLineToCursor | mt/Buffer.swift:252-260 | the loop over the row's head leaves the fields at `SparseScreen.EraseLineToCursor` of the old fields |
| SparseBuffer.Buffer.EraseEntireLine | mt/Buffer.swift:263-266 | the fields become `SparseScreen.EraseEntireLine` of the old fields |
| SparseBuffer.Buffer.ResizeViewport | mt/Buffer.swift:269-272 | the fields become `SparseScreen.ResizeViewport` of the old fields |
| Grid.PatternCell | mt/TerminalBuffer.swift:37-42 | a pattern cell holds a character of `charSet` in the default attributes |
| Grid.PatternRow | mt/TerminalBuffer.swift:34-45 | row `i` of the pattern has `columns` cells, the `j`-th being the pattern cell at linear index `i * columns + j` |
| Grid.Advance | mt/TerminalBuffer.swift:56-60 | inside the grid's width the new position stays inside it and its row-major index grows by exactly one; the row grows by at most one |
| Grid.InsertOrderIsRowMajor | mt/TerminalBuffer.swift:50-61 | after `n` insertions from the origin the position has row-major index `n`, so text fills the grid in the pattern's order |
| Grid.TerminalBuffer.constructor | mt/TerminalBuffer.swift:25-48 | the nested loops leave `rows` rows of `columns` cells, row `i` being `PatternRow(i, columns)`, with the position at the origin |
| Grid.TerminalBuffer.InsertText | mt/TerminalBuffer.swift:50-61 | exactly the cell at the position takes the character in the default attributes, the size stays, and the position advances with wrap and no scroll |
| ByteMachine.Latin1 | mt/terminal/AnsiParser.swift:34 | each byte becomes the character with the same code |
| ByteMachine.IsNumber | mt/terminal/AnsiParser.swift:70 | `isNumber` on Latin-1: no numeric byte is `;`, an intermediate or a final, so the CSI branches never compete |
| ByteMachine.ParamValue | mt/terminal/AnsiParser.swift:73 | an empty buffer, or one holding a non-ASCII numeric sign, gives 0; all-digit text gives its decimal value |
| ByteMachine.HandleCsiSequence | mt/terminal/AnsiParser.swift:107-146 | `m` sets the attributes to the SGR fold and only `J` and `m` change them; any final outside `ABCDHfJKm` changes nothing; the screen stays well formed with the same size |
| ByteMachine.CsiDispatchRules | mt/terminal/AnsiParser.swift:107-146 | for every parameter list: `A`..`D` move the cursor by the first parameter or 1; `H` and `f` set column and row from the second and first parameter minus 1, each 0 when missing; `J` and `K` erase in the mode of the first parameter or 0 |
| ByteMachine.StepNormal | mt/terminal/AnsiParser.swift:36-49 | the normal state keeps the screen well formed and `oscString` empty |
| ByteMachine.NormalDispatchRules | mt/terminal/AnsiParser.swift:36-49 | for every byte: ESC on its own enters the escape state; BS, LF, CR and TAB call `handleBackspace`, `addNewLine`, `addCarriageReturn` and `advanceCursorToNextTabStop` with the parser kept; every other byte is appended as its Latin-1 character |
| ByteMachine.StepEscape | mt/terminal/AnsiParser.swift:50-68 | the escape state keeps `oscString` empty outside an OSC string |
| ByteMachine.EscapeDispatchRules | mt/terminal/AnsiParser.swift:50-68 | for every byte after ESC: `[` enters CSI with empty `params`, `paramBuffer` and intermediates; `]` enters OSC with an empty string; `P`, `_`, `^` and `X` enter SOS/PM/APC; any other byte returns to normal; no other field changes |
| ByteMachine.StepCsi | mt/terminal/AnsiParser.swift:69-86 | inside CSI the screen stays well formed and `oscString` stays empty |
| ByteMachine.StepCsiClassifies | mt/terminal/AnsiParser.swift:69-86 | inside CSI, only a final byte returns to the normal state or touches the screen and `finalChar`; an intermediate byte is appended to `intermediateChars` and no other byte changes it |
| ByteMachine.StepOsc | mt/terminal/AnsiParser.swift:87-95 | after an OSC byte, `oscString` is empty unless the parser is still in OSC |
| ByteMachine.OscTerminators | mt/terminal/AnsiParser.swift:88-95 | in OSC, BEL ends the string and clears it; ESC ends and clears it exactly when the string so far ends in a backslash, and is otherwise appended to it |
| ByteMachine.StepSosPmApc | mt/terminal/AnsiParser.swift:96-103 | the SOS/PM/APC state keeps `oscString` empty |
| ByteMachine.Step | mt/terminal/AnsiParser.swift:33-105 | `parse(byte:)` is defined for every state and byte, keeps the screen well formed, and keeps `oscString` empty outside OSC |
| ByteMachine.Run | mt/terminal/AnsiParser.swift:33-105 | any byte stream keeps the screen well formed and `oscString` empty outside OSC |
| ByteMachine.RunConcat | mt/terminal/AnsiParser.swift:33-105 | parsing `a` and then `b` equals parsing `a + b` |
| ByteMachine.SosPmApcEndsOnlyAtBel | mt/terminal/AnsiParser.swift:96-103 | since `oscString` is empty there, a SOS/PM/APC string ends only at BEL and drops every other byte |
| ByteMachine.CsiIgnoresOtherBytes | mt/terminal/AnsiParser.swift:69-86 | inside CSI, a byte that is not numeric, `;`, intermediate or final changes nothing |
| ByteMachine.ParamValueOfDigits | mt/terminal/AnsiParser.swift:73 | reading back the decimal digits of `n` gives `n` |
| ByteMachine.CsiCollectsDigits | mt/terminal/AnsiParser.swift:70-71 | inside CSI, numeric bytes only append to `paramBuffer` |
| ByteMachine.CsiCollectsParams | mt/terminal/AnsiParser.swift:69-74 | parameter bytes put all but the last number in `params` and the last one's digits in `paramBuffer` |
| ByteMachine.CloseParam | mt/terminal/AnsiParser.swift:79-82 | closing a parameter appends the value of a non-empty `paramBuffer` to `params`, leaves `params` as it is for an empty one, and empties `paramBuffer`; no other field changes |
| ByteMachine.CloseDigits | mt/terminal/AnsiParser.swift:79-82 | closing a `paramBuffer` that holds the digits of `n` appends exactly `n` |
| ByteMachine.CsiIntroducer | mt/terminal/AnsiParser.swift:50-55 | `ESC [` from the normal state enters CSI with empty `params`, `paramBuffer` and intermediates, and leaves the screen alone |
| ByteMachine.CsiFinal | mt/terminal/AnsiParser.swift:77-86 | inside CSI a final byte closes the last parameter, records the final, applies `handleCsiSequence` with the closed parameters and returns to normal |
| ByteMachine.CloseCollected | mt/terminal/AnsiParser.swift:79-82 | closing the last parameter after collecting `ps` (all but the last in `params`, the last one's digits in `paramBuffer`) gives exactly `ps` |
| ByteMachine.CsiParamsClosed | mt/terminal/AnsiParser.swift:69-82 | inside a fresh CSI, the encoded parameters keep the screen and the CSI state, and closing the last one gives exactly the encoded list |
| ByteMachine.CsiParamsAndFinal | mt/terminal/AnsiParser.swift:69-86 | inside a fresh CSI, the encoded parameters and a final byte dispatch that final with exactly the encoded list and return to normal |
| ByteMachine.CsiCollectsIntermediates | mt/terminal/AnsiParser.swift:75-76 | inside CSI, intermediate bytes are appended in order to `intermediateChars`, and nothing else changes |
| ByteMachine.CsiParamsThenIntermediates | mt/terminal/AnsiParser.swift:69-82 | inside a fresh CSI, parameter bytes then intermediate bytes stay in CSI with the screen unchanged, and closing the last parameter gives exactly the parameters with the intermediates collected |
| ByteMachine.CsiIntermediatesAndFinal | mt/terminal/AnsiParser.swift:69-86 | inside a fresh CSI, parameters, intermediates and a final byte dispatch the final with exactly the parameters and keep the intermediates |
| ByteMachine.CsiIntermediatesRoundTrip | mt/terminal/AnsiParser.swift:50-86 | from the normal state, `ESC [ p1;...;pn I1...Ik F` records exactly `p1..pn`, the intermediates and `F`, returns to normal, and applies `handleCsiSequence(p1..pn, F)` to the screen |
| ByteMachine.CsiRoundTrip | mt/terminal/AnsiParser.swift:50-86 | from the normal state, `ESC [ p1;...;pn F` records exactly `p1..pn` and `F`, returns to normal, and applies `handleCsiSequence(p1..pn, F)` to the screen |
| ByteMachine.CursorPositionExample | mt/terminal/AnsiParser.swift:125-129 | `ESC [ 5 ; 10 H` sets the cursor to row 4, column 9, clamped to the grid |
| ByteMachine.EraseDisplayExample | mt/terminal/AnsiParser.swift:130-133 | `ESC [ 2 J` empties every line and homes the cursor |
| ByteMachine.RunPrintable | mt/terminal/AnsiParser.swift:36-49 | in the normal state, bytes other than ESC, BS, LF, CR and TAB are written one by one as their Latin-1 characters, and the parser state is unchanged |
| ByteMachine.OscCollects | mt/terminal/AnsiParser.swift:87-95 | in an OSC string, bytes other than BEL and ESC are appended to `oscString` |
| ByteMachine.OscEndsAtBel | mt/terminal/AnsiParser.swift:87-95 | `ESC ] text BEL` leaves the screen untouched and the parser back in the normal state with `oscString` empty |
| ByteMachine.OscOpened | mt/terminal/AnsiParser.swift:50-95 | `ESC ] text` with no BEL or ESC in `text` holds exactly `text` as the OSC string |
| ByteMachine.OscStringTerminatorKept | mt/terminal/AnsiParser.swift:88-95 | `ESC ] text ESC \` with `text` not ending in a backslash leaves the parser in OSC with the ESC and the backslash appended to the string |
| ByteMachine.OscBackslashEscEnds | mt/terminal/AnsiParser.swift:88-95 | `ESC ] text \ ESC` returns to the normal state with the string cleared and the screen untouched |
| ByteParser.AnsiParser.constructor | mt/terminal/AnsiParser.swift:29-31 | a fresh parser in the normal state with empty fields, driving the given buffer |
| ByteParser.AnsiParser.Parse | mt/terminal/AnsiParser.swift:33-105 | the parser's fields and the buffer become `ByteMachine.Step` of their old values, and both stay valid |
| ByteParser.AnsiParser.HandleCsiSequence | mt/terminal/AnsiParser.swift:107-146 | the buffer becomes `ByteMachine.HandleCsiSequence` of its old screen |
| CharMachine.DigitValue | mt/AnsiParser.swift:102 | a digit's value is below 10 |
| CharMachine.Canon | mt/AnsiParser.swift:104-111 | exactly U+037E, U+1FEF and U+212A are replaced, by `;`, a backquote and `K`, which Swift's `Character` comparison takes them to be; the result is its own canonical form |
| CharMachine.DispatchCsi | mt/AnsiParser.swift:160-200 | finals are matched up to canonical equivalence; `m` sets the attributes to the SGR fold; no final or an unknown one changes nothing; it traps only for `J` or `K` with a negative column or width |
| CharMachine.DispatchRules | mt/AnsiParser.swift:160-200 | for every parameter list and up to canonical equivalence: `A`..`D` move the cursor by the first parameter or 1; `H` and `f` set column and row from the second and first parameter minus 1, each 0 when missing; `J` and `K` erase in the mode of the first parameter or 0 |
| CharMachine.Finish | mt/AnsiParser.swift:133-136 | a final character dispatches with the collected parameters, and if that does not trap the parser is reset to its initial fields |
| CharMachine.HandleGroundState | mt/AnsiParser.swift:68-87 | ground keeps the parser fields, except that ESC enters escape; it traps iff the character is an ASCII character other than ESC, BEL, LF, CR and TAB and the column is negative |
| CharMachine.GroundDispatchRules | mt/AnsiParser.swift:69-80 | for the control characters in ground: ESC enters escape with the screen kept, BEL changes nothing, and newline, carriage return and tab call `addNewLine`, `addCarriageReturn` and `advanceCursorToNextTabStop` with the parser kept |
| CharMachine.HandleEscapeState | mt/AnsiParser.swift:90-97 | `[` enters CSI entry and any other character returns to ground; the parameters are kept |
| CharMachine.HandleCsiEntryState | mt/AnsiParser.swift:100-118 | a final dispatches through `Finish`; any other character leaves the screen and `finalChar` alone, appends a digit's value or 0 for `;` to the parameters and an intermediate to the intermediates, and moves to CSI parameter, CSI intermediate or ground accordingly |
| CharMachine.HandleCsiParameterState | mt/AnsiParser.swift:121-140 | a digit makes the last parameter (a 0 if there is none) ten times itself plus the digit; `;` appends 0; an intermediate is appended and enters CSI intermediate; a final dispatches; anything else returns to ground; only a final touches the screen |
| CharMachine.HandleCsiIntermediateState | mt/AnsiParser.swift:143-153 | an intermediate is appended and the state kept; a final dispatches through `Finish`; anything else returns to ground with all fields kept |
| CharMachine.Step | mt/AnsiParser.swift:39-53 | between characters `finalChar` stays unset |
| CharMachine.Run | mt/AnsiParser.swift:39-53 | any character stream leaves `finalChar` unset, stopping at the first trap |
| CharMachine.RunConcat | mt/AnsiParser.swift:39-53 | parsing `a` and then `b` equals parsing `a + b`, and a trap in `a` ends both |
| CharMachine.EntryCollectsNumber | mt/AnsiParser.swift:100-103 | in CSI entry, the digits of `n` open a new parameter equal to `n` |
| CharMachine.ParameterCollectsNumber | mt/AnsiParser.swift:121-127 | in CSI parameter with a last parameter of 0, the digits of `n` make it `n` |
| CharMachine.ParameterDigit | mt/AnsiParser.swift:122-127 | in CSI parameter with at least one parameter, a digit multiplies the last parameter by 10 and adds its value; nothing else changes |
| CharMachine.ParameterSeparator | mt/AnsiParser.swift:128-129 | in CSI parameter, `;` appends a new parameter 0 and changes nothing else |
| CharMachine.CsiCollectsParams | mt/AnsiParser.swift:100-129 | from CSI entry with no parameters, the encoded parameter list leaves exactly that list collected |
| CharMachine.CsiParamsAndFinal | mt/AnsiParser.swift:100-136 | from CSI entry with no parameters, the encoded parameter list and a final character finish with exactly that list |
| CharMachine.CsiRoundTrip | mt/AnsiParser.swift:68-140 | from ground with no stale parameters, `ESC [ p1;...;pn F` dispatches `F` with exactly `p1..pn` and resets the parser, or traps exactly when that dispatch traps |
| CharMachine.RunIntroducer | mt/AnsiParser.swift:68-97 | `ESC [` from ground enters CSI entry and keeps whatever parameters are held |
| CharMachine.CsiAbortKeepsFields | mt/AnsiParser.swift:115-117 | in CSI entry or parameter, a character that is not a digit, not canonically `;`, and no intermediate or final up to canonical equivalence, returns to ground and keeps the parameters |
| CharMachine.AbortedSequence | mt/AnsiParser.swift:100-139 | `ESC [ 5 LF` returns to ground with the parameter 5 kept |
| CharMachine.AbortKeepsParameters | mt/AnsiParser.swift:137-139 | after `ESC [ 5 LF`, a following `ESC [ A` moves the cursor up by 5, because the aborted parameter survives |
| CharMachine.ZeroCursorPosition | mt/AnsiParser.swift:180-184 | `ESC [ 0 ; 0 H` puts the cursor at row and column -1 |
| CharMachine.ZeroCursorPositionTraps | mt/AnsiParser.swift:180-184 | `ESC [ 0 ; 0 H` then a printable character stops the program, because the column becomes -1 |
| CharMachine.IntermediateCollects | mt/AnsiParser.swift:108-110 | in any CSI state an intermediate is appended to the intermediates and the parser enters CSI intermediate |
| CharMachine.IntermediateAborts | mt/AnsiParser.swift:143-153 | in CSI intermediate, a character that is neither an intermediate nor a final, a digit or `;` included, returns to ground |
| CharMachine.FinalFinishes | mt/AnsiParser.swift:111-114 | in any CSI state a final dispatches through `Finish` |
| CharMachine.RunIntermediates | mt/AnsiParser.swift:143-146 | a run of intermediates is appended in order and leaves the parser in CSI intermediate |
| CharMachine.CsiParamsCollected | mt/AnsiParser.swift:100-129 | from CSI entry with no parameters, the encoded parameter list stays in a CSI state with exactly that list and the screen unchanged |
| CharMachine.CsiIntermediatesRoundTrip | mt/AnsiParser.swift:68-153 | from ground with no stale parameters, `ESC [ p1;...;pn I1...Ik F` dispatches `F` with exactly `p1..pn` and resets the parser, or traps exactly when that dispatch traps |
| CharMachine.GreekQuestionMarkSeparates | mt/AnsiParser.swift:104 | in CSI entry and parameter, U+037E has exactly the effect of `;` |
| CharMachine.CanonicalFinalsAgree | mt/AnsiParser.swift:163-199 | in any CSI state, a final and its ASCII equivalent have the same effect |
| CharMachine.KelvinSignErasesLine | mt/AnsiParser.swift:189-192 | `ESC [ 2` followed by U+212A erases the whole cursor line and resets the parser |
| CharMachine.GroundDropsNonAscii | mt/AnsiParser.swift:81-86 | in ground, a character beyond ASCII changes nothing |
| CharMachine.GroundPrints | mt/AnsiParser.swift:81-83 | in ground from a column of at least 0, a printable ASCII character does not trap and is appended to the screen; the parser is unchanged |
| CharMachine.GroundWritesText | mt/AnsiParser.swift:81-83 | from ground and a column of at least 0, printable ASCII text never traps, and is written to consecutive cells of the cursor row with the current attributes; the column advances by its length, and only the cursor row changes |
| CharParser.AnsiParser.constructor | mt/AnsiParser.swift:34-36 | a fresh parser in ground with no parameters, driving the given buffer |
| CharParser.AnsiParser.Parse | mt/AnsiParser.swift:39-53 | for a character that does not trap, the parser's fields and the buffer become `CharMachine.Step` of their old values |
| CharParser.AnsiParser.ResetParser | mt/AnsiParser.swift:56-61 | the parser fields become the initial ones and the buffer is untouched |
| CharParser.AnsiParser.HandleGroundState | mt/AnsiParser.swift:68-87 | the fields and buffer become `CharMachine.HandleGroundState` of the old ones, whose control-character effects `CharMachine.GroundDispatchRules` states and whose printable and non-ASCII cases `CharMachine.GroundPrints` and `CharMachine.GroundDropsNonAscii` state |
| CharParser.AnsiParser.HandleEscapeState | mt/AnsiParser.swift:90-97 | the fields become `CharMachine.HandleEscapeState` of the old ones |
| CharParser.AnsiParser.HandleCsiEntryState | mt/AnsiParser.swift:100-118 | the fields and buffer become `CharMachine.HandleCsiEntryState` of the old ones |
| CharParser.AnsiParser.HandleCsiParameterState | mt/AnsiParser.swift:121-140 | the fields and buffer become `CharMachine.HandleCsiParameterState` of the old ones |
| CharParser.AnsiParser.HandleCsiIntermediateState | mt/AnsiParser.swift:143-153 | the fields and buffer become `CharMachine.HandleCsiIntermediateState` of the old ones |
| CharParser.AnsiParser.Finish | mt/AnsiParser.swift:111-114 | set `finalChar`, dispatch, reset: the fields and buffer become `CharMachine.Finish` of the old ones |
| CharParser.AnsiParser.DispatchCsi | mt/AnsiParser.swift:160-200 | the buffer becomes `CharMachine.DispatchCsi` of its old screen, the final matched up to canonical equivalence |
| Pty.ControlBytes | mt/Pty.swift:113-138 | one byte for Enter, Ctrl-C, Ctrl-D, Ctrl-Z and Backspace, `ESC [` and a letter for the arrows, and an independent decoder reads each sequence back as its key |
| Pty.ControlBytesInjective | mt/terminal/Pty.swift:98-119 | different keys write different bytes |
| Pty.Written | mt/Pty.swift:141 | `write(fd, bytes, count)` hands over the first `count` bytes |
| Pty.SendSpecialKey | mt/Pty.swift:113-142 | the key's whole control sequence is written |
| Pty.WindowSize | mt/terminal/Pty.swift:60-63 | the given rows and columns with zero pixel sizes, as at start-up and on resize |
| Pty.Utf8 | mt/Pty.swift:107 | one to four bytes, with a zero byte exactly for the NUL character |
| Pty.Utf8RoundTrip | mt/Pty.swift:107 | decoding a character's UTF-8 bytes gives its code point back |
| Pty.EncodeUtf8 | mt/Pty.swift:107 | a string without NUL encodes to bytes without 0 |
| Pty.CString | mt/terminal/Pty.swift:94 | the C string ends with a terminating 0 |
| Pty.Strlen | mt/terminal/Pty.swift:95 | the index of the first 0 byte: everything before it is nonzero |
| Pty.BeforeNul | mt/Pty.swift:105-111 | the longest prefix without NUL: the whole string, or the part before its first NUL |
| Pty.SendInput | mt/Pty.swift:105-111 | the bytes written never contain 0, and followed by a 0 they are a prefix of the C string of the input |
| Pty.RestStartsWithNul | mt/Pty.swift:105-111 | the input after its text before the first NUL, terminated, encodes to bytes that start with a NUL |
| Pty.SendInputStopsAtNul | mt/Pty.swift:105-111 | `sendInput` writes the UTF-8 bytes of the input up to its first NUL, and never a zero byte |
| PtyReader.FeedRead | mt/terminal/Pty.swift:72-86 | a read of at most 1023 bytes into the 1024-byte array passes bytes `0..<bytesRead` to `parse(byte:)` in order; no byte is passed on an empty or failed read |
| PtyReader.RunChunks | mt/Pty.swift:87-100 | the parser state after a series of reads keeps the screen well formed |
| PtyReader.ReadBoundariesDoNotMatter | mt/terminal/Pty.swift:72-86 | however the output is split into reads, the final state equals one pass over all of it |
| PtyReader.ArrowBytesAsOutput | mt/terminal/Pty.swift:111-118 | an arrow key's bytes, parsed from the normal state, are the CSI sequence that moves the cursor one step in the arrow's direction, and the parser ends normal |
| PtyReader.SingleByteAsOutput | mt/terminal/Pty.swift:101-110 | a one-byte key's byte, parsed from the normal state, is handled as that control byte (Enter a new line, Backspace a backspace, the Ctrl keys a written character), and the parser ends normal |
| PtyReader.KeyBytesAsOutput | mt/terminal/Pty.swift:98-121 | a key's bytes, parsed from the normal state, have the key's effect (the arrows a one-step cursor move in their direction, Enter a new line, Backspace a backspace, the Ctrl keys a written control character) and leave the parser normal |

## Left out

- Process and I/O are not modelled: `forkpty`, `execv`, `fcntl`, `read`, `write`, `ioctl`, `usleep`, termios configuration, dispatch queues and threads. `read`'s result is a parameter of `PtyReader.FeedRead`, `write`'s argument is the value `Pty.Written` returns, and the endless `while true` loop is modelled as one pass (`FeedRead`) and as a sequence of passes (`RunChunks`).
- Rendering, fonts, views and logging are not modelled: `NSFont`, `TerminalView.refresh`, `Logger` and the debug `print` in `parse(character:)`.
- In `mt/terminal/Buffer.swift` the colours of a written character and its font weight are modelled as the four attributes. The rows are independent values, so the aliasing that `Array(repeating: NSMutableAttributedString(), count:)` creates between rows is not modelled.
- Character counts use the UTF-16 lengths of `NSAttributedString`. The model counts one slot per character.
- A Swift `Character` is modelled as one Unicode scalar. A multi-scalar grapheme such as `"\r\n"`, or a letter with a combining mark, reaches `parse(character:)` as one Character that the model does not see; the canonical equivalence of single scalars to ASCII characters is modelled by `CharMachine.Canon`.
- All integers are unbounded. Swift `Int` overflow is not modelled: a cursor near `Int.max`, `parameters[last] * 10 + digit` overflowing and trapping, and `Int(paramBuffer)` giving `nil` (so 0) for a number beyond `Int.max`.
- LineBuffer.Buffer.constructor: requires at least one row and one column. A zero or negative size, which the Swift class accepts, is not modelled, so `LineScreen.WellFormed` can demand a cursor on the grid. `LineScreen.Init`, the function it is proved against, has the same requirement.
- LineBuffer.Buffer.Resize: requires at least one row and one column, for the same reason. `LineScreen.Resize`, the function it is proved against, has the same requirement.
- LineScreen.Init: requires at least one row and one column, as `LineBuffer.Buffer.constructor` does.
- LineScreen.Resize: requires at least one row and one column, as `LineBuffer.Buffer.Resize` does.
- LineScreen.MoveCursorUp: the count is a `nat`, which is what both parsers pass. A negative count from another caller is not modelled; the same holds for `MoveCursorDown`, `MoveCursorForward` and `MoveCursorBackward`.
- SparseBuffer.Buffer.AppendChar: requires a column of at least 0. Swift stops the program otherwise, and `SparseScreen.AppendChar` states that case as `Trap`. The same holds for the erase methods of `SparseBuffer.Buffer`.
- CharParser.AnsiParser.Parse: requires a character whose step does not trap; `CharMachine.Step` gives `Trap` for the others. The same holds for the state handlers, `Finish` and `DispatchCsi`.
- Grid.TerminalBuffer.InsertText: requires the write position to lie inside the grid. Past the last row Swift stops the program on the index, and that case is not modelled as a value.
- CharMachine.HandleCsiEntryState: `Character.isNumber` is taken to be the ASCII digits `0`..`9`. Other numeric characters, which Swift counts as numbers with value 0, end the control sequence in the model. The same holds for `CharMachine.HandleCsiParameterState`. The byte parser's `isNumber` on Latin-1 is modelled exactly (`ByteMachine.IsNumber`).
- The OSC and SOS/PM/APC strings are collected or skipped, and nothing is done with them, as in the code.
- Both `Pty` classes create an `AnsiParser(buffer:)` and call `parse(byte:)`, which only the parser in `mt/terminal/AnsiParser.swift` has. `PtyReader` therefore feeds `ByteParser.AnsiParser`, which drives `LineBuffer.Buffer`. The two `Pty` files agree on the key table, the window size and `sendInput`, so `Pty` models both. The failing `cString` optional in `mt/Pty.swift` cannot fail for a Swift `String` and is not modelled.
- `configureTermios`, `deinit` and the shell path are not modelled. They have no effect on the values modelled here.

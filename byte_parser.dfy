/** The class `AnsiParser` of mt/terminal/AnsiParser.swift: the parser's
    fields are updated in place on every byte, and each dispatch calls a
    method of the LineBuffer it was built with. `Parse` is specified by
    `ByteMachine.Step`. */
module ByteParser {
  import opened Base
  import LB = LineBuffer
  import M = ByteMachine

  class AnsiParser {
    var state: M.ParserState
    var paramBuffer: seq<char>
    var params: seq<nat>
    var intermediateChars: seq<char>
    var finalChar: Option<char>
    var oscString: seq<char>
    const buffer: LB.Buffer

    /** The parser's fields and the buffer's screen. */
    function Model(): M.Machine
      reads this, buffer
    {
      M.Machine(M.Fields(state, paramBuffer, params, intermediateChars, finalChar, oscString), buffer.Model())
    }

    /** The buffer's invariant, and `oscString` empty outside OSC. */
    predicate Valid()
      reads this, buffer
    {
      buffer.Valid() && M.OscClean(Model().parser)
    }

    constructor (buffer: LB.Buffer)
      requires buffer.Valid()
      ensures this.buffer == buffer && Valid() && Model() == M.Machine(M.Initial, buffer.Model())
    {
      state := M.Normal;
      paramBuffer, params, intermediateChars := [], [], [];
      finalChar := None;
      oscString := [];
      this.buffer := buffer;
    }

    /** `parse(byte:)`. */
    method Parse(b: byte)
      requires Valid()
      modifies this, buffer
      ensures Valid() && Model() == M.Step(old(Model()), b)
    {
      var c := M.Latin1(b);
      match state
      case Normal =>
        if c == '\U{1B}' {
          state := M.Escape;
        } else if b == 0x08 {
          buffer.HandleBackspace();
        } else if c == '\n' {
          buffer.AddNewLine();
        } else if c == '\r' {
          buffer.AddCarriageReturn();
        } else if c == '\t' {
          buffer.AdvanceCursorToNextTabStop();
        } else {
          buffer.AppendChar(c);
        }
      case Escape =>
        if c == '[' {
          state := M.Csi;
          params := [];
          paramBuffer := [];
          intermediateChars := [];
        } else if c == ']' {
          state := M.Osc;
          oscString := [];
        } else if c == 'P' || c == '_' || c == '^' || c == 'X' {
          state := M.SosPmApc;
        } else {
          state := M.Normal;
        }
      case Csi =>
        if M.IsNumber(b) {
          paramBuffer := paramBuffer + [c];
        } else if c == ';' {
          params := params + [M.ParamValue(paramBuffer)];
          paramBuffer := [];
        } else if ' ' <= c <= '/' {
          intermediateChars := intermediateChars + [c];
        } else if '@' <= c <= '~' {
          if paramBuffer != [] {
            params := params + [M.ParamValue(paramBuffer)];
            paramBuffer := [];
          }
          finalChar := Some(c);
          HandleCsiSequence(params, c);
          state := M.Normal;
        }
      case Osc =>
        if c == '\U{07}' || (c == '\U{1B}' && M.EndsWithBackslash(oscString)) {
          state := M.Normal;
          oscString := [];
        } else {
          oscString := oscString + [c];
        }
      case SosPmApc =>
        if c == '\U{07}' || (c == '\U{1B}' && M.EndsWithBackslash(oscString)) {
          state := M.Normal;
        }
    }

    /** `handleCsiSequence(params:command:)`. */
    method HandleCsiSequence(params: seq<nat>, command: char)
      requires buffer.Valid()
      modifies buffer
      ensures buffer.Valid() && buffer.Model() == M.HandleCsiSequence(old(buffer.Model()), params, command)
    {
      if command == 'A' {
        buffer.MoveCursorUp(M.FirstOr(params, 1));
      } else if command == 'B' {
        buffer.MoveCursorDown(M.FirstOr(params, 1));
      } else if command == 'C' {
        buffer.MoveCursorForward(M.FirstOr(params, 1));
      } else if command == 'D' {
        buffer.MoveCursorBackward(M.FirstOr(params, 1));
      } else if command == 'H' || command == 'f' {
        var row: int := if |params| > 0 then params[0] as int - 1 else 0;
        var col: int := if |params| > 1 then params[1] as int - 1 else 0;
        buffer.SetCursorPosition(col, row);
      } else if command == 'J' {
        buffer.EraseInDisplay(M.FirstOr(params, 0));
      } else if command == 'K' {
        buffer.EraseInLine(M.FirstOr(params, 0));
      } else if command == 'm' {
        buffer.ApplyGraphicRendition(params);
      }
    }
  }
}

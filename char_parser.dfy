/** The class `AnsiParser` of mt/AnsiParser.swift: the parser's fields are
    updated in place on every character, and each dispatch calls a method
    of the SparseBuffer it was built with. `Parse` is specified by
    `CharMachine.Step`; since Swift stops the program where that function
    yields `Trap`, every method requires that its step does not trap. */
module CharParser {
  import opened Base
  import SB = SparseBuffer
  import M = CharMachine

  class AnsiParser {
    var state: M.ParserState
    var parameters: seq<nat>
    var intermediates: seq<char>
    var finalChar: Option<char>
    const buffer: SB.Buffer

    /** The parser's fields and the buffer's screen. */
    function Model(): M.Machine
      reads this, buffer
    {
      M.Machine(M.Fields(state, parameters, intermediates, finalChar), buffer.Model())
    }

    constructor (buffer: SB.Buffer)
      ensures this.buffer == buffer && Model() == M.Machine(M.Initial, buffer.Model())
    {
      state := M.Ground;
      parameters, intermediates := [], [];
      finalChar := None;
      this.buffer := buffer;
    }

    /** `parse(character:)`. */
    method Parse(c: char)
      requires M.Step(Model(), c).Ok?
      modifies this, buffer
      ensures M.Step(old(Model()), c) == Ok(Model())
    {
      match state
      case Ground => HandleGroundState(c);
      case Escape => HandleEscapeState(c);
      case CsiEntry => HandleCsiEntryState(c);
      case CsiParameter => HandleCsiParameterState(c);
      case CsiIntermediate => HandleCsiIntermediateState(c);
    }

    /** `resetParser`. */
    method ResetParser()
      modifies this
      ensures Model() == old(Model()).(parser := M.Initial)
    {
      state := M.Ground;
      parameters := [];
      intermediates := [];
      finalChar := None;
    }

    method HandleGroundState(c: char)
      requires state == M.Ground && M.HandleGroundState(Model(), c).Ok?
      modifies this, buffer
      ensures M.HandleGroundState(old(Model()), c) == Ok(Model())
    {
      if c == '\U{1B}' {
        state := M.Escape;
      } else if c == '\U{07}' {
      } else if c == '\n' {
        buffer.AddNewLine();
      } else if c == '\r' {
        buffer.AddCarriageReturn();
      } else if c == '\t' {
        buffer.AdvanceCursorToNextTabStop();
      } else if c as int < 128 {
        buffer.AppendChar(c);
      }
    }

    method HandleEscapeState(c: char)
      requires state == M.Escape
      modifies this
      ensures Model() == old(Model()).(parser := M.HandleEscapeState(old(Model()).parser, c))
    {
      if c == '[' {
        state := M.CsiEntry;
      } else {
        state := M.Ground;
      }
    }

    method HandleCsiEntryState(c: char)
      requires state == M.CsiEntry && M.HandleCsiEntryState(Model(), c).Ok?
      modifies this, buffer
      ensures M.HandleCsiEntryState(old(Model()), c) == Ok(Model())
    {
      if M.IsDigit(c) {
        parameters := parameters + [M.DigitValue(c)];
        state := M.CsiParameter;
      } else if M.IsSeparator(c) {
        parameters := parameters + [0];
        state := M.CsiParameter;
      } else if M.IsIntermediate(c) {
        intermediates := intermediates + [c];
        state := M.CsiIntermediate;
      } else if M.IsFinal(c) {
        Finish(c);
      } else {
        state := M.Ground;
      }
    }

    method HandleCsiParameterState(c: char)
      requires state == M.CsiParameter && M.HandleCsiParameterState(Model(), c).Ok?
      modifies this, buffer
      ensures M.HandleCsiParameterState(old(Model()), c) == Ok(Model())
    {
      if M.IsDigit(c) {
        if parameters == [] {
          parameters := parameters + [0];
          assert parameters == [0];
        }
        var lastIndex := |parameters| - 1;
        parameters := parameters[lastIndex := parameters[lastIndex] * 10 + M.DigitValue(c)];
      } else if M.IsSeparator(c) {
        parameters := parameters + [0];
      } else if M.IsIntermediate(c) {
        intermediates := intermediates + [c];
        state := M.CsiIntermediate;
      } else if M.IsFinal(c) {
        Finish(c);
      } else {
        state := M.Ground;
      }
    }

    method HandleCsiIntermediateState(c: char)
      requires state == M.CsiIntermediate && M.HandleCsiIntermediateState(Model(), c).Ok?
      modifies this, buffer
      ensures M.HandleCsiIntermediateState(old(Model()), c) == Ok(Model())
    {
      if M.IsIntermediate(c) {
        intermediates := intermediates + [c];
      } else if M.IsFinal(c) {
        Finish(c);
      } else {
        state := M.Ground;
      }
    }

    /** The final-character branch every CSI state shares: set `finalChar`,
        dispatch, reset. */
    method Finish(c: char)
      requires M.Finish(Model(), c).Ok?
      modifies this, buffer
      ensures M.Finish(old(Model()), c) == Ok(Model())
    {
      finalChar := Some(c);
      DispatchCsi();
      ResetParser();
    }

    /** `dispatchCSI`. */
    method DispatchCsi()
      requires M.DispatchCsi(buffer.Model(), parameters, finalChar).Ok?
      modifies buffer
      ensures M.DispatchCsi(old(buffer.Model()), parameters, finalChar) == Ok(buffer.Model())
    {
      if finalChar.None? {
        return;
      }
      var f := M.Canon(finalChar.value);
      if f == 'A' {
        buffer.MoveCursorUp(M.FirstOr(parameters, 1));
      } else if f == 'B' {
        buffer.MoveCursorDown(M.FirstOr(parameters, 1));
      } else if f == 'C' {
        buffer.MoveCursorForward(M.FirstOr(parameters, 1));
      } else if f == 'D' {
        buffer.MoveCursorBackward(M.FirstOr(parameters, 1));
      } else if f == 'H' || f == 'f' {
        var row: int := if |parameters| > 0 then parameters[0] as int - 1 else 0;
        var col: int := if |parameters| > 1 then parameters[1] as int - 1 else 0;
        buffer.SetCursorPosition(col, row);
      } else if f == 'J' {
        buffer.EraseInDisplay(M.FirstOr(parameters, 0));
      } else if f == 'K' {
        buffer.EraseInLine(M.FirstOr(parameters, 0));
      } else if f == 'm' {
        buffer.ApplyGraphicRendition(parameters);
      }
    }
  }
}

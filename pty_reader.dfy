/** The reader loop of mt/terminal/Pty.swift (mt/Pty.swift has the same
    loop): each `read` fills a 1024-byte array with at most 1023 bytes, and
    each byte read is passed to `parse(byte:)` in order. The `read` call is
    outside the model: its result is a parameter. */
module PtyReader {
  import opened Base
  import S = LineScreen
  import M = ByteMachine
  import P = ByteParser
  import Pty

  /** `bufferSize`. */
  const BufferSize := 1024

  /** One pass of the loop after `read` returned `bytesRead`, which is at
      most `bufferSize - 1`, or negative on an error: bytes
      `0..<bytesRead` go to the parser in order, and nothing happens when
      the read produced no bytes. */
  method FeedRead(parser: P.AnsiParser, bufferArray: array<byte>, bytesRead: int)
    requires parser.Valid() && bufferArray.Length == BufferSize && bytesRead <= BufferSize - 1
    modifies parser, parser.buffer
    ensures parser.Valid()
    ensures parser.Model() == M.Run(old(parser.Model()), if bytesRead > 0 then bufferArray[..bytesRead] else [])
  {
    if bytesRead > 0 {
      for i := 0 to bytesRead
        invariant parser.Valid()
        invariant parser.Model() == M.Run(old(parser.Model()), bufferArray[..i])
      {
        M.RunSnoc(old(parser.Model()), bufferArray[..i], bufferArray[i]);
        assert bufferArray[..i + 1] == bufferArray[..i] + [bufferArray[i]];
        parser.Parse(bufferArray[i]);
      }
    }
  }

  /** The bytes of several reads, in order. */
  function Flatten(chunks: seq<seq<byte>>): seq<byte>
    decreases |chunks|
  {
    if chunks == [] then [] else Flatten(chunks[..|chunks| - 1]) + chunks[|chunks| - 1]
  }

  /** The parser after several reads, one chunk after another. */
  function RunChunks(m: M.Machine, chunks: seq<seq<byte>>): (r: M.Machine)
    requires S.WellFormed(m.screen)
    ensures S.WellFormed(r.screen)
    decreases |chunks|
  {
    if chunks == [] then m else M.Run(RunChunks(m, chunks[..|chunks| - 1]), chunks[|chunks| - 1])
  }

  /** However the output is split into reads, the parser ends where one
      pass over the whole output would leave it. */
  lemma {:induction false} ReadBoundariesDoNotMatter(m: M.Machine, chunks: seq<seq<byte>>)
    requires S.WellFormed(m.screen)
    ensures RunChunks(m, chunks) == M.Run(m, Flatten(chunks))
    decreases |chunks|
  {
    if chunks != [] {
      var init := chunks[..|chunks| - 1];
      ReadBoundariesDoNotMatter(m, init);
      M.RunConcat(m, Flatten(init), chunks[|chunks| - 1]);
    }
  }

  /** What the screen does with the bytes of a key if they come back as
      output: the arrows move the cursor one step in their direction,
      Enter starts a new line, Backspace steps back, and the other control
      bytes are written as characters. */
  function KeyEffect(s: S.Screen, key: Pty.SpecialKey): S.Screen
    requires S.WellFormed(s)
  {
    match key
    case ArrowUp => S.MoveCursorUp(s, 1)
    case ArrowDown => S.MoveCursorDown(s, 1)
    case ArrowRight => S.MoveCursorForward(s, 1)
    case ArrowLeft => S.MoveCursorBackward(s, 1)
    case Enter => S.AddNewLine(s)
    case Backspace => S.HandleBackspace(s)
    case CtrlC => S.AppendChar(s, '\U{03}')
    case CtrlD => S.AppendChar(s, '\U{04}')
    case CtrlZ => S.AppendChar(s, '\U{1A}')
  }

  /** An arrow key's bytes, read back as output, are the control sequence
      that moves the cursor one step in the arrow's direction. */
  lemma ArrowBytesAsOutput(m: M.Machine, key: Pty.SpecialKey)
    requires S.WellFormed(m.screen) && m.parser.state == M.Normal && Pty.IsArrow(key)
    ensures M.Run(m, Pty.ControlBytes(key)).screen == KeyEffect(m.screen, key)
    ensures M.Run(m, Pty.ControlBytes(key)).parser.state == M.Normal
  {
    var bytes := Pty.ControlBytes(key);
    var final := bytes[2];
    assert M.EncodeCsi([], final) == bytes;
    M.CsiRoundTrip(m, [], final);
  }

  /** A one-byte key's byte, read back as output, is handled in the
      normal state by the buffer call for that control byte. */
  lemma SingleByteAsOutput(m: M.Machine, key: Pty.SpecialKey)
    requires S.WellFormed(m.screen) && m.parser.state == M.Normal && !Pty.IsArrow(key)
    ensures M.Run(m, Pty.ControlBytes(key)).screen == KeyEffect(m.screen, key)
    ensures M.Run(m, Pty.ControlBytes(key)).parser.state == M.Normal
  {
    var bytes := Pty.ControlBytes(key);
    M.RunSnoc(m, [], bytes[0]);
    assert [] + [bytes[0]] == bytes;
  }

  /** The bytes each key writes, read back by the parser in the normal
      state, have the key's effect and leave the parser in the normal
      state; in particular the arrow bytes are exactly the control
      sequences for a one-step cursor move in the same direction. */
  lemma KeyBytesAsOutput(m: M.Machine, key: Pty.SpecialKey)
    requires S.WellFormed(m.screen) && m.parser.state == M.Normal
    ensures M.Run(m, Pty.ControlBytes(key)).screen == KeyEffect(m.screen, key)
    ensures M.Run(m, Pty.ControlBytes(key)).parser.state == M.Normal
  {
    if Pty.IsArrow(key) {
      ArrowBytesAsOutput(m, key);
    } else {
      SingleByteAsOutput(m, key);
    }
  }
}

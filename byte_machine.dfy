/** The escape-sequence state machine of mt/terminal/AnsiParser.swift as a
    function: the parser's fields and the LineScreen it drives form one
    value, and `Step` is `parse(byte:)` on that value. The class in module
    ByteParser performs the same steps in place. */
module ByteMachine {
  import opened Base
  import opened Attributes
  import S = LineScreen

  /** `AnsiParser.ParserState`. */
  datatype ParserState = Normal | Escape | Csi | Osc | SosPmApc

  /** The parser's fields. The strings hold one character per byte;
      `finalChar` keeps the last final character dispatched. */
  datatype Fields = Fields(state: ParserState, paramBuffer: seq<char>, params: seq<nat>,
                           intermediateChars: seq<char>, finalChar: Option<char>, oscString: seq<char>)

  /** The parser together with the screen of the buffer it drives. */
  datatype Machine = Machine(parser: Fields, screen: S.Screen)

  /** A freshly constructed parser. */
  const Initial := Fields(Normal, [], [], [], None, [])

  const BEL: byte := 0x07
  const BS: byte := 0x08
  const TAB: byte := 0x09
  const LF: byte := 0x0A
  const CR: byte := 0x0D
  const ESC: byte := 0x1B
  const SEMICOLON: byte := 0x3B
  const LEFT_BRACKET: byte := 0x5B
  const RIGHT_BRACKET: byte := 0x5D
  const BACKSLASH: byte := 0x5C

  /** `Character(UnicodeScalar(byte))`: every byte is the Latin-1 character
      with the same code. */
  function Latin1(b: byte): (c: char)
    ensures c as int == b as int
  {
    (b as int) as char
  }

  function Latin1s(bs: seq<byte>): (cs: seq<char>)
    ensures |cs| == |bs| && forall i :: 0 <= i < |bs| ==> cs[i] == Latin1(bs[i])
  {
    seq(|bs|, i requires 0 <= i < |bs| => Latin1(bs[i]))
  }

  /** `Character.isNumber` on a Latin-1 character: the ASCII digits and the
      numeric signs superscript one, two, three and the fractions one
      quarter, one half, three quarters. */
  predicate IsNumber(b: byte)
    ensures IsNumber(b) ==> b != SEMICOLON && !IsIntermediate(b) && !IsFinal(b)
  {
    0x30 <= b <= 0x39 || b in {0xB2, 0xB3, 0xB9, 0xBC, 0xBD, 0xBE}
  }

  predicate IsIntermediate(b: byte) { 0x20 <= b <= 0x2F }

  predicate IsFinal(b: byte) { 0x40 <= b <= 0x7E }

  predicate IsAsciiDigit(c: char) { '0' <= c <= '9' }

  predicate AllAsciiDigits(cs: seq<char>)
  {
    forall i :: 0 <= i < |cs| ==> IsAsciiDigit(cs[i])
  }

  /** The value of a string of ASCII digits, read left to right. */
  function DecimalValue(cs: seq<char>): nat
    requires AllAsciiDigits(cs)
    decreases |cs|
  {
    if cs == [] then 0
    else DecimalValue(cs[..|cs| - 1]) * 10 + (cs[|cs| - 1] as int - '0' as int)
  }

  /** `Int(paramBuffer) ?? 0`: the decimal value, or 0 for an empty buffer
      or one holding a non-ASCII numeric sign. */
  function ParamValue(buf: seq<char>): (n: nat)
    ensures !AllAsciiDigits(buf) || buf == [] ==> n == 0
  {
    if buf != [] && AllAsciiDigits(buf) then DecimalValue(buf) else 0
  }

  function FirstOr(params: seq<nat>, default: nat): nat
  {
    if |params| > 0 then params[0] else default
  }

  /** `handleCsiSequence`: the buffer call a final character selects. Cursor
      moves take the first parameter or 1; the cursor position takes row and
      column from the first two parameters, 1-based, each defaulting to 0;
      the erases take the first parameter or 0; SGR takes the whole list; any
      other final leaves the screen alone. */
  function HandleCsiSequence(s: S.Screen, params: seq<nat>, command: char): (r: S.Screen)
    requires S.WellFormed(s)
    ensures S.WellFormed(r) && r.rows == s.rows && r.cols == s.cols
    ensures command !in "ABCDHfJKm" ==> r == s
    ensures command == 'm' ==> r.attrs == Sgr(s.attrs, params)
    ensures command !in "Jm" ==> r.attrs == s.attrs
  {
    if command == 'A' then S.MoveCursorUp(s, FirstOr(params, 1))
    else if command == 'B' then S.MoveCursorDown(s, FirstOr(params, 1))
    else if command == 'C' then S.MoveCursorForward(s, FirstOr(params, 1))
    else if command == 'D' then S.MoveCursorBackward(s, FirstOr(params, 1))
    else if command == 'H' || command == 'f' then
      var row: int := if |params| > 0 then (params[0] as int) - 1 else 0;
      var col: int := if |params| > 1 then (params[1] as int) - 1 else 0;
      S.SetCursorPosition(s, col, row)
    else if command == 'J' then S.EraseInDisplay(s, FirstOr(params, 0))
    else if command == 'K' then S.EraseInLine(s, FirstOr(params, 0))
    else if command == 'm' then S.ApplyGraphicRendition(s, params)
    else s
  }

  /** The dispatch rules of `handleCsiSequence`, for every parameter list:
      the buffer call each final selects and the argument it passes. */
  lemma CsiDispatchRules(s: S.Screen, params: seq<nat>, command: char)
    requires S.WellFormed(s)
    ensures var r := HandleCsiSequence(s, params, command);
      (command == 'A' ==> r == S.MoveCursorUp(s, FirstOr(params, 1)))
      && (command == 'B' ==> r == S.MoveCursorDown(s, FirstOr(params, 1)))
      && (command == 'C' ==> r == S.MoveCursorForward(s, FirstOr(params, 1)))
      && (command == 'D' ==> r == S.MoveCursorBackward(s, FirstOr(params, 1)))
      && (command in "Hf" ==>
            r == S.SetCursorPosition(s, if |params| > 1 then params[1] as int - 1 else 0,
                                        if |params| > 0 then params[0] as int - 1 else 0))
      && (command == 'J' ==> r == S.EraseInDisplay(s, FirstOr(params, 0)))
      && (command == 'K' ==> r == S.EraseInLine(s, FirstOr(params, 0)))
  {
  }

  predicate EndsWithBackslash(cs: seq<char>)
  {
    cs != [] && cs[|cs| - 1] == '\\'
  }

  /** The parser's invariant: nothing is held in `oscString` outside an OSC
      string. */
  predicate OscClean(p: Fields)
  {
    p.state != Osc ==> p.oscString == []
  }

  /** The normal state: ESC starts a sequence, the control bytes BS, LF,
      CR and TAB call the buffer, and every other byte is written as its
      Latin-1 character. */
  function StepNormal(p: Fields, s: S.Screen, b: byte): (r: Machine)
    requires S.WellFormed(s) && p.state == Normal
    ensures S.WellFormed(r.screen)
    ensures OscClean(p) ==> OscClean(r.parser)
  {
    if b == ESC then Machine(p.(state := Escape), s)
    else if b == BS then Machine(p, S.HandleBackspace(s))
    else if b == LF then Machine(p, S.AddNewLine(s))
    else if b == CR then Machine(p, S.AddCarriageReturn(s))
    else if b == TAB then Machine(p, S.AdvanceCursorToNextTabStop(s))
    else Machine(p, S.AppendChar(s, Latin1(b)))
  }

  /** After ESC: `[` opens a control sequence with fresh parameters, `]` an
      OSC string, `P`, `_`, `^` and `X` a string that is skipped; any other
      byte ends the sequence. */
  function StepEscape(p: Fields, b: byte): (r: Fields)
    requires p.state == Escape
    ensures OscClean(p) ==> OscClean(r)
  {
    if b == LEFT_BRACKET then p.(state := Csi, params := [], paramBuffer := [], intermediateChars := [])
    else if b == RIGHT_BRACKET then p.(state := Osc, oscString := [])
    else if b in {0x50, 0x5F, 0x5E, 0x58} then p.(state := SosPmApc)
    else p.(state := Normal)
  }

  /** What a final byte does before dispatching: a non-empty `paramBuffer`
      becomes the last parameter. */
  function CloseParam(p: Fields): (q: Fields)
    ensures q == p.(params := q.params, paramBuffer := [])
    ensures q.params == if p.paramBuffer != [] then p.params + [ParamValue(p.paramBuffer)] else p.params
  {
    if p.paramBuffer != [] then p.(params := p.params + [ParamValue(p.paramBuffer)], paramBuffer := []) else p
  }

  /** Inside a control sequence: numeric bytes collect in `paramBuffer`, `;`
      closes a parameter, intermediates are kept, a final byte closes a
      non-empty last parameter and dispatches; anything else is ignored.
      Only a final byte leaves the sequence or touches the screen. */
  function StepCsi(p: Fields, s: S.Screen, b: byte): (r: Machine)
    requires S.WellFormed(s) && p.state == Csi
    ensures S.WellFormed(r.screen)
    ensures OscClean(p) ==> OscClean(r.parser)
  {
    if IsNumber(b) then Machine(p.(paramBuffer := p.paramBuffer + [Latin1(b)]), s)
    else if b == SEMICOLON then
      Machine(p.(params := p.params + [ParamValue(p.paramBuffer)], paramBuffer := []), s)
    else if IsIntermediate(b) then
      Machine(p.(intermediateChars := p.intermediateChars + [Latin1(b)]), s)
    else if IsFinal(b) then
      var q := CloseParam(p);
      Machine(q.(finalChar := Some(Latin1(b)), state := Normal), HandleCsiSequence(s, q.params, Latin1(b)))
    else Machine(p, s)
  }

  /** Only a final byte leaves the control sequence or touches the screen,
      and exactly the intermediate bytes are collected. */
  lemma StepCsiClassifies(p: Fields, s: S.Screen, b: byte)
    requires S.WellFormed(s) && p.state == Csi
    ensures var r := StepCsi(p, s, b);
      r.parser.state == (if IsFinal(b) then Normal else Csi)
      && (!IsFinal(b) ==> r.screen == s && r.parser.finalChar == p.finalChar)
      && r.parser.intermediateChars == p.intermediateChars + if IsIntermediate(b) then [Latin1(b)] else []
  {
  }

  /** The normal state, byte by byte: ESC alone enters the escape state,
      BS, LF, CR and TAB call their buffer operation with the parser kept,
      and every other byte is appended as its Latin-1 character. */
  lemma NormalDispatchRules(p: Fields, s: S.Screen, b: byte)
    requires S.WellFormed(s) && p.state == Normal
    ensures var r := StepNormal(p, s, b);
      (b == ESC ==> r == Machine(p.(state := Escape), s))
      && (b == BS ==> r == Machine(p, S.HandleBackspace(s)))
      && (b == LF ==> r == Machine(p, S.AddNewLine(s)))
      && (b == CR ==> r == Machine(p, S.AddCarriageReturn(s)))
      && (b == TAB ==> r == Machine(p, S.AdvanceCursorToNextTabStop(s)))
      && (b !in {ESC, BS, LF, CR, TAB} ==> r == Machine(p, S.AppendChar(s, Latin1(b))))
  {
  }

  /** After ESC, byte by byte: `[` opens a control sequence with fresh
      parameters, `]` an empty OSC string, `P`, `_`, `^` and `X` a skipped
      string, and any other byte returns to the normal state. Only the
      fields named change. */
  lemma EscapeDispatchRules(p: Fields, b: byte)
    requires p.state == Escape
    ensures var r := StepEscape(p, b);
      (b == LEFT_BRACKET ==> r == p.(state := Csi, params := [], paramBuffer := [], intermediateChars := []))
      && (b == RIGHT_BRACKET ==> r == p.(state := Osc, oscString := []))
      && (b in {0x50, 0x5F, 0x5E, 0x58} ==> r == p.(state := SosPmApc))
      && (b !in {LEFT_BRACKET, RIGHT_BRACKET, 0x50, 0x5F, 0x5E, 0x58} ==> r == p.(state := Normal))
  {
  }

  /** The test both string states use to end: BEL, or ESC when the string
      collected so far ends in a backslash. */
  predicate EndsString(oscString: seq<char>, b: byte)
  {
    b == BEL || (b == ESC && EndsWithBackslash(oscString))
  }

  /** Inside an OSC string: the string is collected until it ends, and then
      cleared. */
  function StepOsc(p: Fields, b: byte): (r: Fields)
    ensures OscClean(r)
  {
    if EndsString(p.oscString, b) then p.(state := Normal, oscString := [])
    else p.(state := Osc, oscString := p.oscString + [Latin1(b)])
  }

  /** The two terminators inside an OSC string: BEL always ends it, and ESC
      ends it exactly when the string so far ends in a backslash; otherwise
      the ESC is kept as part of the string. */
  lemma OscTerminators(p: Fields)
    requires p.state == Osc
    ensures StepOsc(p, BEL) == p.(state := Normal, oscString := [])
    ensures StepOsc(p, ESC) ==
      if EndsWithBackslash(p.oscString) then p.(state := Normal, oscString := [])
      else p.(oscString := p.oscString + [Latin1(ESC)])
  {
  }

  /** Inside a SOS, PM or APC string: nothing is stored. */
  function StepSosPmApc(p: Fields, b: byte): (r: Fields)
    requires p.state == SosPmApc
    ensures OscClean(p) ==> OscClean(r)
  {
    if EndsString(p.oscString, b) then p.(state := Normal) else p
  }

  /** `parse(byte:)`. Defined on every state and byte; keeps the screen
      well formed and keeps `oscString` empty outside an OSC string. */
  function Step(m: Machine, b: byte): (r: Machine)
    requires S.WellFormed(m.screen)
    ensures S.WellFormed(r.screen)
    ensures OscClean(m.parser) ==> OscClean(r.parser)
  {
    match m.parser.state
    case Normal => StepNormal(m.parser, m.screen, b)
    case Escape => Machine(StepEscape(m.parser, b), m.screen)
    case Csi => StepCsi(m.parser, m.screen, b)
    case Osc => Machine(StepOsc(m.parser, b), m.screen)
    case SosPmApc => Machine(StepSosPmApc(m.parser, b), m.screen)
  }

  /** The effect of a byte stream: `parse` applied to each byte in order. */
  function Run(m: Machine, bs: seq<byte>): (r: Machine)
    requires S.WellFormed(m.screen)
    ensures S.WellFormed(r.screen)
    ensures OscClean(m.parser) ==> OscClean(r.parser)
    decreases |bs|
  {
    if bs == [] then m else Step(Run(m, bs[..|bs| - 1]), bs[|bs| - 1])
  }

  // Properties of the machine

  /** One more byte is one more step. */
  lemma RunSnoc(m: Machine, bs: seq<byte>, b: byte)
    requires S.WellFormed(m.screen)
    ensures Run(m, bs + [b]) == Step(Run(m, bs), b)
  {
    assert (bs + [b])[..|bs|] == bs;
  }

  lemma RunPair(m: Machine, b1: byte, b2: byte)
    requires S.WellFormed(m.screen)
    ensures Run(m, [b1, b2]) == Step(Step(m, b1), b2)
  {
    RunSnoc(m, [], b1);
    RunSnoc(m, [b1], b2);
    assert [] + [b1] == [b1] && [b1] + [b2] == [b1, b2];
  }

  /** Chunk boundaries do not matter: feeding `a` and then `b` is feeding
      `a + b`. */
  lemma {:induction false} RunConcat(m: Machine, a: seq<byte>, b: seq<byte>)
    requires S.WellFormed(m.screen)
    ensures Run(m, a + b) == Run(Run(m, a), b)
    decreases |b|
  {
    if b == [] {
      assert a + b == a;
    } else {
      assert (a + b)[..|a + b| - 1] == a + b[..|b| - 1];
      RunConcat(m, a, b[..|b| - 1]);
    }
  }

  /** Since `oscString` is empty outside OSC, a SOS/PM/APC string ends only
      at BEL, and every other byte is dropped. */
  lemma SosPmApcEndsOnlyAtBel(m: Machine, b: byte)
    requires S.WellFormed(m.screen) && OscClean(m.parser) && m.parser.state == SosPmApc
    ensures Step(m, b) == if b == BEL then m.(parser := m.parser.(state := Normal)) else m
  {
  }

  /** Inside a control sequence, a byte that is no digit, separator,
      intermediate or final is ignored and the sequence goes on. */
  lemma CsiIgnoresOtherBytes(m: Machine, b: byte)
    requires S.WellFormed(m.screen) && m.parser.state == Csi
    requires !IsNumber(b) && b != SEMICOLON && !IsIntermediate(b) && !IsFinal(b)
    ensures Step(m, b) == m
  {
  }

  /** The ASCII decimal digits of `n`, most significant first. */
  function DigitsOf(n: nat): (ds: seq<byte>)
    ensures ds != [] && forall i :: 0 <= i < |ds| ==> 0x30 <= ds[i] <= 0x39
    decreases n
  {
    if n < 10 then [(0x30 + n) as byte] else DigitsOf(n / 10) + [(0x30 + n % 10) as byte]
  }

  /** Reading back the digits of `n` gives `n`. */
  lemma {:induction false} ParamValueOfDigits(n: nat)
    ensures AllAsciiDigits(Latin1s(DigitsOf(n)))
    ensures ParamValue(Latin1s(DigitsOf(n))) == n
    decreases n
  {
    var cs := Latin1s(DigitsOf(n));
    if n < 10 {
      assert cs[..|cs| - 1] == [];
    } else {
      ParamValueOfDigits(n / 10);
      var prefix := cs[..|cs| - 1];
      assert prefix == Latin1s(DigitsOf(n / 10));
      assert prefix != [] && ParamValue(prefix) == DecimalValue(prefix);
      assert cs[|cs| - 1] as int == 0x30 + n % 10;
      assert DecimalValue(cs) == DecimalValue(prefix) * 10 + n % 10;
    }
  }

  /** Inside a control sequence, numeric bytes only grow `paramBuffer`. */
  lemma {:induction false} CsiCollectsDigits(m: Machine, ds: seq<byte>)
    requires S.WellFormed(m.screen) && m.parser.state == Csi
    requires forall i :: 0 <= i < |ds| ==> IsNumber(ds[i])
    ensures Run(m, ds) == m.(parser := m.parser.(paramBuffer := m.parser.paramBuffer + Latin1s(ds)))
    decreases |ds|
  {
    if ds == [] {
      assert m.parser.paramBuffer + Latin1s(ds) == m.parser.paramBuffer;
    } else {
      CsiCollectsDigits(m, ds[..|ds| - 1]);
      assert Latin1s(ds[..|ds| - 1]) + [Latin1(ds[|ds| - 1])] == Latin1s(ds);
    }
  }

  /** The parameter bytes of a control sequence: the decimal numbers
      separated by `;`. */
  function EncodeParams(ps: seq<nat>): seq<byte>
    decreases |ps|
  {
    if ps == [] then []
    else if |ps| == 1 then DigitsOf(ps[0])
    else EncodeParams(ps[..|ps| - 1]) + [SEMICOLON] + DigitsOf(ps[|ps| - 1])
  }

  /** `ESC [ params final`. */
  function EncodeCsi(ps: seq<nat>, final: byte): seq<byte>
  {
    [ESC, LEFT_BRACKET] + EncodeParams(ps) + [final]
  }

  /** Parameter bytes leave every parameter but the last in `params` and
      the last one's digits in `paramBuffer`. */
  lemma {:induction false} CsiCollectsParams(m: Machine, ps: seq<nat>)
    requires S.WellFormed(m.screen) && m.parser.state == Csi
    requires m.parser.params == [] && m.parser.paramBuffer == [] && ps != []
    ensures Run(m, EncodeParams(ps)) ==
      m.(parser := m.parser.(params := ps[..|ps| - 1], paramBuffer := Latin1s(DigitsOf(ps[|ps| - 1]))))
    decreases |ps|
  {
    if |ps| == 1 {
      CsiCollectsDigits(m, DigitsOf(ps[0]));
    } else {
      var init := ps[..|ps| - 1];
      var last := ps[|ps| - 1];
      var prev := init[|init| - 1];
      assert init[..|init| - 1] + [prev] == init;
      CsiCollectsParams(m, init);
      var m1 := Run(m, EncodeParams(init));
      assert m1 == m.(parser := m.parser.(params := init[..|init| - 1], paramBuffer := Latin1s(DigitsOf(prev))));
      ParamValueOfDigits(prev);
      var m2 := Step(m1, SEMICOLON);
      assert m2 == m.(parser := m.parser.(params := init, paramBuffer := []));
      RunSnoc(m, EncodeParams(init), SEMICOLON);
      assert Run(m, EncodeParams(init) + [SEMICOLON]) == m2;
      CsiCollectsDigits(m2, DigitsOf(last));
      RunConcat(m, EncodeParams(init) + [SEMICOLON], DigitsOf(last));
      assert EncodeParams(ps) == EncodeParams(init) + [SEMICOLON] + DigitsOf(last);
    }
  }

  /** `ESC [` from the normal state opens a control sequence with fresh
      parameters. */
  lemma CsiIntroducer(m: Machine)
    requires S.WellFormed(m.screen) && m.parser.state == Normal
    ensures Run(m, [ESC, LEFT_BRACKET]) ==
      m.(parser := m.parser.(state := Csi, params := [], paramBuffer := [], intermediateChars := []))
  {
    RunPair(m, ESC, LEFT_BRACKET);
  }

  /** A final byte closes a non-empty last parameter, records the final,
      dispatches and returns to the normal state. */
  lemma CsiFinal(m: Machine, b: byte)
    requires S.WellFormed(m.screen) && m.parser.state == Csi && IsFinal(b)
    ensures Step(m, b) == Machine(CloseParam(m.parser).(finalChar := Some(Latin1(b)), state := Normal),
                                  HandleCsiSequence(m.screen, CloseParam(m.parser).params, Latin1(b)))
  {
    assert !IsNumber(b) && b != SEMICOLON && !IsIntermediate(b);
  }

  /** Closing a last parameter held as the digits of `last` appends `last`. */
  lemma CloseDigits(p: Fields, last: nat)
    requires p.paramBuffer == Latin1s(DigitsOf(last))
    ensures CloseParam(p) == p.(params := p.params + [last], paramBuffer := [])
  {
    ParamValueOfDigits(last);
  }

  /** Closing the last parameter of the collected `ps` leaves exactly `ps`. */
  lemma CloseCollected(p: Fields, ps: seq<nat>)
    requires p.params == [] && p.paramBuffer == [] && ps != []
    ensures CloseParam(p.(params := ps[..|ps| - 1], paramBuffer := Latin1s(DigitsOf(ps[|ps| - 1])))) == p.(params := ps)
  {
    var init, last := ps[..|ps| - 1], ps[|ps| - 1];
    CloseDigits(p.(params := init, paramBuffer := Latin1s(DigitsOf(last))), last);
    assert init + [last] == ps;
  }

  /** Inside a fresh control sequence, the parameter bytes of `ps` leave
      exactly `ps` once the last parameter is closed. */
  lemma CsiParamsClosed(m: Machine, ps: seq<nat>)
    requires S.WellFormed(m.screen) && m.parser.state == Csi
    requires m.parser.params == [] && m.parser.paramBuffer == []
    ensures var m2 := Run(m, EncodeParams(ps));
      m2.screen == m.screen && m2.parser.state == Csi && CloseParam(m2.parser) == m.parser.(params := ps)
  {
    if ps == [] {
      assert Run(m, EncodeParams(ps)) == m;
    } else {
      CsiCollectsParams(m, ps);
      CloseCollected(m.parser, ps);
    }
  }

  /** Inside a fresh control sequence, the parameter bytes of `ps` and a
      final byte dispatch with exactly `ps`. */
  lemma CsiParamsAndFinal(m: Machine, ps: seq<nat>, final: byte)
    requires S.WellFormed(m.screen) && m.parser.state == Csi && IsFinal(final)
    requires m.parser.params == [] && m.parser.paramBuffer == []
    ensures Run(m, EncodeParams(ps) + [final]) ==
      Machine(m.parser.(state := Normal, params := ps, finalChar := Some(Latin1(final))),
              HandleCsiSequence(m.screen, ps, Latin1(final)))
  {
    RunSnoc(m, EncodeParams(ps), final);
    CsiParamsClosed(m, ps);
    CsiFinal(Run(m, EncodeParams(ps)), final);
  }

  /** Inside a control sequence, intermediate bytes are appended to
      `intermediateChars` as their Latin-1 characters; nothing else changes. */
  lemma {:induction false} CsiCollectsIntermediates(m: Machine, ims: seq<byte>)
    requires S.WellFormed(m.screen) && m.parser.state == Csi
    requires forall i :: 0 <= i < |ims| ==> IsIntermediate(ims[i])
    ensures Run(m, ims) == m.(parser := m.parser.(intermediateChars := m.parser.intermediateChars + Latin1s(ims)))
    decreases |ims|
  {
    if ims == [] {
      assert m.parser.intermediateChars + Latin1s(ims) == m.parser.intermediateChars;
    } else {
      var init, b := ims[..|ims| - 1], ims[|ims| - 1];
      assert init + [b] == ims;
      assert IsIntermediate(b);
      CsiCollectsIntermediates(m, init);
      RunSnoc(m, init, b);
      assert Latin1s(init) + [Latin1(b)] == Latin1s(ims);
    }
  }

  /** `ESC [ params intermediates final`. */
  function EncodeCsiIntermediates(ps: seq<nat>, ims: seq<byte>, final: byte): seq<byte>
  {
    [ESC, LEFT_BRACKET] + (EncodeParams(ps) + ims + [final])
  }

  /** Inside a fresh control sequence, parameter bytes and then intermediate
      bytes leave the parameters of `ps` to be closed and the intermediates
      collected. */
  lemma CsiParamsThenIntermediates(m: Machine, ps: seq<nat>, ims: seq<byte>)
    requires S.WellFormed(m.screen) && m.parser.state == Csi
    requires m.parser.params == [] && m.parser.paramBuffer == [] && m.parser.intermediateChars == []
    requires forall i :: 0 <= i < |ims| ==> IsIntermediate(ims[i])
    ensures var m3 := Run(m, EncodeParams(ps) + ims);
      m3.screen == m.screen && m3.parser.state == Csi
      && CloseParam(m3.parser) == m.parser.(params := ps, intermediateChars := Latin1s(ims))
  {
    CsiParamsClosed(m, ps);
    var m2 := Run(m, EncodeParams(ps));
    CsiCollectsIntermediates(m2, ims);
    RunConcat(m, EncodeParams(ps), ims);
  }

  /** Inside a fresh control sequence, parameter bytes, intermediate bytes
      and a final byte dispatch with exactly the parameters and keep the
      intermediates. */
  lemma CsiIntermediatesAndFinal(m: Machine, ps: seq<nat>, ims: seq<byte>, final: byte)
    requires S.WellFormed(m.screen) && m.parser.state == Csi && IsFinal(final)
    requires m.parser.params == [] && m.parser.paramBuffer == [] && m.parser.intermediateChars == []
    requires forall i :: 0 <= i < |ims| ==> IsIntermediate(ims[i])
    ensures Run(m, EncodeParams(ps) + ims + [final]) ==
      Machine(m.parser.(state := Normal, params := ps, intermediateChars := Latin1s(ims), finalChar := Some(Latin1(final))),
              HandleCsiSequence(m.screen, ps, Latin1(final)))
  {
    CsiParamsThenIntermediates(m, ps, ims);
    RunSnoc(m, EncodeParams(ps) + ims, final);
    CsiFinal(Run(m, EncodeParams(ps) + ims), final);
  }

  /** Round trip with intermediates: from the normal state, the bytes
      `ESC [ p1;...;pn I1...Ik final` call the buffer operation the final
      selects with exactly `p1..pn`, keep the intermediates, and return to
      the normal state. */
  lemma CsiIntermediatesRoundTrip(m: Machine, ps: seq<nat>, ims: seq<byte>, final: byte)
    requires S.WellFormed(m.screen) && m.parser.state == Normal && IsFinal(final)
    requires forall i :: 0 <= i < |ims| ==> IsIntermediate(ims[i])
    ensures Run(m, EncodeCsiIntermediates(ps, ims, final)) ==
      Machine(m.parser.(state := Normal, params := ps, paramBuffer := [], intermediateChars := Latin1s(ims),
                        finalChar := Some(Latin1(final))),
              HandleCsiSequence(m.screen, ps, Latin1(final)))
  {
    CsiIntroducer(m);
    var m1 := m.(parser := m.parser.(state := Csi, params := [], paramBuffer := [], intermediateChars := []));
    var rest := EncodeParams(ps) + ims + [final];
    CsiIntermediatesAndFinal(m1, ps, ims, final);
    RunConcat(m, [ESC, LEFT_BRACKET], rest);
  }

  /** Round trip with the encoder: from the normal state, the bytes
      `ESC [ p1;...;pn final` call the buffer operation the final selects
      with exactly the parameters `p1..pn`, and return to the normal state. */
  lemma CsiRoundTrip(m: Machine, ps: seq<nat>, final: byte)
    requires S.WellFormed(m.screen) && m.parser.state == Normal && IsFinal(final)
    ensures Run(m, EncodeCsi(ps, final)) ==
      Machine(m.parser.(state := Normal, params := ps, paramBuffer := [], intermediateChars := [],
                        finalChar := Some(Latin1(final))),
              HandleCsiSequence(m.screen, ps, Latin1(final)))
  {
    CsiIntroducer(m);
    var m1 := Run(m, [ESC, LEFT_BRACKET]);
    CsiParamsAndFinal(m1, ps, final);
    assert EncodeCsi(ps, final) == [ESC, LEFT_BRACKET] + (EncodeParams(ps) + [final]);
    RunConcat(m, [ESC, LEFT_BRACKET], EncodeParams(ps) + [final]);
  }

  /** `ESC [ 5 ; 10 H` puts the cursor on row 4, column 9 (clamped to the grid). */
  lemma CursorPositionExample(m: Machine)
    requires S.WellFormed(m.screen) && m.parser.state == Normal
    ensures Run(m, [ESC, LEFT_BRACKET, 0x35, SEMICOLON, 0x31, 0x30, 0x48]).screen ==
            S.SetCursorPosition(m.screen, 9, 4)
  {
    assert DigitsOf(10) == [0x31, 0x30];
    assert EncodeCsi([5, 10], 0x48) == [ESC, LEFT_BRACKET, 0x35, SEMICOLON, 0x31, 0x30, 0x48];
    assert HandleCsiSequence(m.screen, [5, 10], 'H') == S.SetCursorPosition(m.screen, 9, 4);
    CsiRoundTrip(m, [5, 10], 0x48);
  }

  /** `ESC [ 2 J` empties every line and homes the cursor. */
  lemma EraseDisplayExample(m: Machine)
    requires S.WellFormed(m.screen) && m.parser.state == Normal
    ensures var r := Run(m, [ESC, LEFT_BRACKET, 0x32, 0x4A]).screen;
      r.x == 0 && r.y == 0 && forall i :: 0 <= i < r.rows ==> r.lines[i] == []
  {
    assert EncodeCsi([2], 0x4A) == [ESC, LEFT_BRACKET, 0x32, 0x4A];
    CsiRoundTrip(m, [2], 0x4A);
  }

  /** A byte the normal state writes as a character. */
  predicate Printable(b: byte)
  {
    b != ESC && b != BS && b != LF && b != CR && b != TAB
  }

  /** In the normal state, a stream without ESC, BS, LF, CR or TAB (BEL and
      bytes 0x80-0xFF included) is written to the screen character by
      character, and the parser stays normal. */
  lemma {:induction false} RunPrintable(m: Machine, bs: seq<byte>)
    requires S.WellFormed(m.screen) && m.parser.state == Normal
    requires forall i :: 0 <= i < |bs| ==> Printable(bs[i])
    ensures Run(m, bs) == Machine(m.parser, S.Print(m.screen, Latin1s(bs)))
    decreases |bs|
  {
    if bs != [] {
      RunPrintable(m, bs[..|bs| - 1]);
      assert Latin1s(bs)[..|bs| - 1] == Latin1s(bs[..|bs| - 1]);
    }
  }

  /** In an OSC string, bytes other than BEL and ESC are collected. */
  lemma {:induction false} OscCollects(m: Machine, text: seq<byte>)
    requires S.WellFormed(m.screen) && m.parser.state == Osc
    requires forall i :: 0 <= i < |text| ==> text[i] != BEL && text[i] != ESC
    ensures Run(m, text) == m.(parser := m.parser.(oscString := m.parser.oscString + Latin1s(text)))
    decreases |text|
  {
    if text == [] {
      assert m.parser.oscString + Latin1s(text) == m.parser.oscString;
    } else {
      OscCollects(m, text[..|text| - 1]);
      assert Latin1s(text[..|text| - 1]) + [Latin1(text[|text| - 1])] == Latin1s(text);
    }
  }

  /** `ESC ] text BEL` is consumed whole: the screen is untouched and the
      parser is back in the normal state with `oscString` cleared. */
  lemma OscEndsAtBel(m: Machine, text: seq<byte>)
    requires S.WellFormed(m.screen) && m.parser.state == Normal
    requires forall i :: 0 <= i < |text| ==> text[i] != BEL && text[i] != ESC
    ensures Run(m, [ESC, RIGHT_BRACKET] + text + [BEL]) == m.(parser := m.parser.(oscString := []))
  {
    var m1 := Step(Step(m, ESC), RIGHT_BRACKET);
    assert m1 == m.(parser := m.parser.(state := Osc, oscString := []));
    RunPair(m, ESC, RIGHT_BRACKET);
    RunConcat(m, [ESC, RIGHT_BRACKET], text);
    OscCollects(m1, text);
    RunSnoc(m, [ESC, RIGHT_BRACKET] + text, BEL);
  }

  /** `ESC ] text`, with no terminator in `text`, holds `text` as the OSC
      string. */
  lemma OscOpened(m: Machine, text: seq<byte>)
    requires S.WellFormed(m.screen) && m.parser.state == Normal
    requires forall i :: 0 <= i < |text| ==> text[i] != BEL && text[i] != ESC
    ensures Run(m, [ESC, RIGHT_BRACKET] + text) == m.(parser := m.parser.(state := Osc, oscString := Latin1s(text)))
  {
    var m1 := m.(parser := m.parser.(state := Osc, oscString := []));
    RunPair(m, ESC, RIGHT_BRACKET);
    OscCollects(m1, text);
    RunConcat(m, [ESC, RIGHT_BRACKET], text);
    assert m1.parser.oscString + Latin1s(text) == Latin1s(text);
  }

  /** `ESC ] text ESC \\` does not end the OSC string when `text` does not
      end in a backslash: the ESC and the backslash join the string and the
      parser stays in it. */
  lemma OscStringTerminatorKept(m: Machine, text: seq<byte>)
    requires S.WellFormed(m.screen) && m.parser.state == Normal
    requires forall i :: 0 <= i < |text| ==> text[i] != BEL && text[i] != ESC
    requires text == [] || text[|text| - 1] != BACKSLASH
    ensures Run(m, [ESC, RIGHT_BRACKET] + text + [ESC, BACKSLASH]) ==
      m.(parser := m.parser.(state := Osc, oscString := Latin1s(text) + [Latin1(ESC), Latin1(BACKSLASH)]))
  {
    var m2 := m.(parser := m.parser.(state := Osc, oscString := Latin1s(text)));
    OscOpened(m, text);
    assert !EndsWithBackslash(Latin1s(text));
    OscTerminators(m2.parser);
    var m3 := m2.(parser := m2.parser.(oscString := Latin1s(text) + [Latin1(ESC)]));
    assert Step(m2, ESC) == m3;
    assert Step(m3, BACKSLASH) == m3.(parser := m3.parser.(oscString := m3.parser.oscString + [Latin1(BACKSLASH)]));
    RunPair(m2, ESC, BACKSLASH);
    RunConcat(m, [ESC, RIGHT_BRACKET] + text, [ESC, BACKSLASH]);
  }

  /** `ESC ] text \\ ESC` ends the OSC string at the ESC: the parser is
      back in the normal state with `oscString` cleared and the screen
      untouched. */
  lemma OscBackslashEscEnds(m: Machine, text: seq<byte>)
    requires S.WellFormed(m.screen) && m.parser.state == Normal
    requires forall i :: 0 <= i < |text| ==> text[i] != BEL && text[i] != ESC
    ensures Run(m, [ESC, RIGHT_BRACKET] + text + [BACKSLASH, ESC]) == m.(parser := m.parser.(oscString := []))
  {
    var m2 := m.(parser := m.parser.(state := Osc, oscString := Latin1s(text)));
    OscOpened(m, text);
    var m3 := m2.(parser := m2.parser.(oscString := Latin1s(text) + [Latin1(BACKSLASH)]));
    assert Step(m2, BACKSLASH) == m3;
    assert EndsWithBackslash(m3.parser.oscString);
    OscTerminators(m3.parser);
    RunPair(m2, BACKSLASH, ESC);
    RunConcat(m, [ESC, RIGHT_BRACKET] + text, [BACKSLASH, ESC]);
  }
}

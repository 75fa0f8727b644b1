/** The escape-sequence state machine of mt/AnsiParser.swift as a
    function: the parser's fields and the SparseScreen it drives form one
    value, and `Step` is `parse(character:)` on that value. A step that
    makes the buffer stop the program yields `Trap`. The class in module
    CharParser performs the same steps in place. */
module CharMachine {
  import opened Base
  import opened Attributes
  import S = SparseScreen

  /** `ParserState`. */
  datatype ParserState = Ground | Escape | CsiEntry | CsiParameter | CsiIntermediate

  /** The parser's fields. */
  datatype Fields = Fields(state: ParserState, parameters: seq<nat>, intermediates: seq<char>,
                           finalChar: Option<char>)

  /** The parser together with the screen of the buffer it drives. */
  datatype Machine = Machine(parser: Fields, screen: S.Screen)

  /** A freshly constructed parser, and the fields after `resetParser`. */
  const Initial := Fields(Ground, [], [], None)

  const ESC := '\U{1B}'
  const BEL := '\U{07}'

  predicate IsDigit(c: char) { '0' <= c <= '9' }

  function DigitValue(c: char): (d: nat)
    requires IsDigit(c)
    ensures d < 10
  {
    c as int - '0' as int
  }

  /** Swift compares `Character`s up to canonical equivalence, and three
      single scalars are canonically equivalent to an ASCII character:
      U+037E GREEK QUESTION MARK to `;`, U+1FEF GREEK VARIA to a backquote
      and U+212A KELVIN SIGN to `K`. `Canon` gives that ASCII character for
      them and leaves every other character alone. No control character, no
      digit and neither `[` nor an intermediate has such an equivalent. */
  function Canon(c: char): (r: char)
    ensures r != c <==> c in "\U{037E}\U{1FEF}\U{212A}"
    ensures r != c ==> r in ";`K"
    ensures Canon(r) == r
  {
    if c == '\U{037E}' then ';'
    else if c == '\U{1FEF}' then '`'
    else if c == '\U{212A}' then 'K'
    else c
  }

  /** `character == ";"`. */
  predicate IsSeparator(c: char) { Canon(c) == ';' }

  /** `character >= " " && character <= "/"`. */
  predicate IsIntermediate(c: char) { ' ' <= Canon(c) <= '/' }

  /** `character >= "@" && character <= "~"`. */
  predicate IsFinal(c: char) { '@' <= Canon(c) <= '~' }

  function FirstOr(parameters: seq<nat>, default: nat): nat
  {
    if |parameters| > 0 then parameters[0] else default
  }

  /** `dispatchCSI`: the buffer call the final character selects, matched
      up to canonical equivalence; nothing happens without a final
      character or for an unknown one. Cursor moves take the first parameter
      or 1, the cursor position takes row and column from the first two
      parameters, 1-based, each defaulting to 0, the erases take the first
      parameter or 0 and SGR the whole list. Only the erases can stop the
      program. */
  function DispatchCsi(s: S.Screen, parameters: seq<nat>, finalChar: Option<char>): (r: Outcome<S.Screen>)
    ensures finalChar.None? ==> r == Ok(s)
    ensures finalChar.Some? && Canon(finalChar.value) !in "ABCDHfJKm" ==> r == Ok(s)
    ensures finalChar.Some? && Canon(finalChar.value) == 'm' ==> r == Ok(s.(attrs := Sgr(s.attrs, parameters)))
    ensures r.Trap? ==> finalChar.Some? && Canon(finalChar.value) in "JK" && (s.x < 0 || s.viewport.cols < 0)
  {
    match finalChar
    case None => Ok(s)
    case Some(c) =>
      var f := Canon(c);
      if f == 'A' then Ok(S.MoveCursorUp(s, FirstOr(parameters, 1)))
      else if f == 'B' then Ok(S.MoveCursorDown(s, FirstOr(parameters, 1)))
      else if f == 'C' then Ok(S.MoveCursorForward(s, FirstOr(parameters, 1)))
      else if f == 'D' then Ok(S.MoveCursorBackward(s, FirstOr(parameters, 1)))
      else if f == 'H' || f == 'f' then
        var row: int := if |parameters| > 0 then parameters[0] as int - 1 else 0;
        var col: int := if |parameters| > 1 then parameters[1] as int - 1 else 0;
        Ok(S.SetCursorPosition(s, col, row))
      else if f == 'J' then S.EraseInDisplay(s, FirstOr(parameters, 0))
      else if f == 'K' then S.EraseInLine(s, FirstOr(parameters, 0))
      else if f == 'm' then Ok(S.ApplyGraphicRendition(s, parameters))
      else Ok(s)
  }

  /** The dispatch rules of `dispatchCSI`, for every parameter list: the
      buffer call each final selects, up to canonical equivalence, and the
      argument it passes. */
  lemma DispatchRules(s: S.Screen, parameters: seq<nat>, c: char)
    ensures var r, f := DispatchCsi(s, parameters, Some(c)), Canon(c);
      (f == 'A' ==> r == Ok(S.MoveCursorUp(s, FirstOr(parameters, 1))))
      && (f == 'B' ==> r == Ok(S.MoveCursorDown(s, FirstOr(parameters, 1))))
      && (f == 'C' ==> r == Ok(S.MoveCursorForward(s, FirstOr(parameters, 1))))
      && (f == 'D' ==> r == Ok(S.MoveCursorBackward(s, FirstOr(parameters, 1))))
      && (f in "Hf" ==>
            r == Ok(S.SetCursorPosition(s, if |parameters| > 1 then parameters[1] as int - 1 else 0,
                                           if |parameters| > 0 then parameters[0] as int - 1 else 0)))
      && (f == 'J' ==> r == S.EraseInDisplay(s, FirstOr(parameters, 0)))
      && (f == 'K' ==> r == S.EraseInLine(s, FirstOr(parameters, 0)))
  {
  }

  /** A final character: `finalChar` is set, `dispatchCSI` runs, and
      `resetParser` clears every field. */
  function Finish(m: Machine, c: char): (r: Outcome<Machine>)
    ensures r.Ok? ==> r.value.parser == Initial
    ensures r == match DispatchCsi(m.screen, m.parser.parameters, Some(c))
                 case Trap => Trap
                 case Ok(s) => Ok(Machine(Initial, s))
  {
    var p := m.parser.(finalChar := Some(c));
    match DispatchCsi(m.screen, p.parameters, p.finalChar)
    case Trap => Trap
    case Ok(s) => Ok(Machine(Initial, s))
  }

  /** `handleGroundState`: ESC starts a sequence, BEL is ignored, newline,
      carriage return and tab call the buffer, other ASCII characters are
      written, and all other characters are dropped. */
  function HandleGroundState(m: Machine, c: char): (r: Outcome<Machine>)
    requires m.parser.state == Ground
    ensures r.Ok? ==> r.value.parser == m.parser || (c == ESC && r.value.parser == m.parser.(state := Escape))
    ensures r.Trap? <==> c as int < 128 && c !in [ESC, BEL, '\n', '\r', '\t'] && m.screen.x < 0
  {
    var p, s := m.parser, m.screen;
    if c == ESC then Ok(Machine(p.(state := Escape), s))
    else if c == BEL then Ok(m)
    else if c == '\n' then Ok(Machine(p, S.AddNewLine(s)))
    else if c == '\r' then Ok(Machine(p, S.AddCarriageReturn(s)))
    else if c == '\t' then Ok(Machine(p, S.AdvanceCursorToNextTabStop(s)))
    else if c as int < 128 then
      match S.AppendChar(s, c)
      case Trap => Trap
      case Ok(t) => Ok(Machine(p, t))
    else Ok(m)
  }

  /** The control characters of the ground state, one by one: ESC enters
      the escape state, BEL changes nothing, and newline, carriage return
      and tab call their buffer operation with the parser kept. */
  lemma GroundDispatchRules(m: Machine, c: char)
    requires m.parser.state == Ground
    ensures var r := HandleGroundState(m, c);
      (c == ESC ==> r == Ok(m.(parser := m.parser.(state := Escape))))
      && (c == BEL ==> r == Ok(m))
      && (c == '\n' ==> r == Ok(m.(screen := S.AddNewLine(m.screen))))
      && (c == '\r' ==> r == Ok(m.(screen := S.AddCarriageReturn(m.screen))))
      && (c == '\t' ==> r == Ok(m.(screen := S.AdvanceCursorToNextTabStop(m.screen))))
  {
  }

  /** `handleEscapeState`: `[` opens a control sequence; anything else
      returns to ground. Parameters are not touched. */
  function HandleEscapeState(p: Fields, c: char): (r: Fields)
    ensures r == p.(state := if c == '[' then CsiEntry else Ground)
  {
    if c == '[' then p.(state := CsiEntry) else p.(state := Ground)
  }

  /** `handleCsiEntryState`: a digit starts a parameter, `;` adds a 0
      parameter, an intermediate is collected; a final dispatches, and any
      other character returns to ground keeping what was collected. Only a
      final touches the screen or `finalChar`. */
  function HandleCsiEntryState(m: Machine, c: char): (r: Outcome<Machine>)
    requires m.parser.state == CsiEntry
    ensures IsFinal(c) ==> r == Finish(m, c)
    ensures !IsFinal(c) ==> r.Ok? && r.value.screen == m.screen && r.value.parser.finalChar == m.parser.finalChar
    ensures !IsFinal(c) ==> (r.value.parser.state ==
      if IsDigit(c) || IsSeparator(c) then CsiParameter else if IsIntermediate(c) then CsiIntermediate else Ground)
    ensures !IsFinal(c) ==> (r.value.parser.parameters ==
      m.parser.parameters + if IsDigit(c) then [DigitValue(c)] else if IsSeparator(c) then [0] else [])
    ensures !IsFinal(c) ==> (r.value.parser.intermediates ==
      m.parser.intermediates + if IsIntermediate(c) then [c] else [])
  {
    var p, s := m.parser, m.screen;
    if IsDigit(c) then Ok(Machine(p.(parameters := p.parameters + [DigitValue(c)], state := CsiParameter), s))
    else if IsSeparator(c) then Ok(Machine(p.(parameters := p.parameters + [0], state := CsiParameter), s))
    else if IsIntermediate(c) then Ok(Machine(p.(intermediates := p.intermediates + [c], state := CsiIntermediate), s))
    else if IsFinal(c) then Finish(m, c)
    else Ok(Machine(p.(state := Ground), s))
  }

  /** `handleCsiParameterState`: a digit extends the last parameter in
      decimal (starting one if there is none), `;` starts a new parameter
      at 0; intermediates, finals and other characters as in entry. */
  function HandleCsiParameterState(m: Machine, c: char): (r: Outcome<Machine>)
    requires m.parser.state == CsiParameter
    ensures IsFinal(c) ==> r == Finish(m, c)
    ensures !IsFinal(c) ==> r.Ok? && r.value.screen == m.screen && r.value.parser.finalChar == m.parser.finalChar
    ensures !IsFinal(c) ==> (r.value.parser.state ==
      if IsDigit(c) || IsSeparator(c) then CsiParameter else if IsIntermediate(c) then CsiIntermediate else Ground)
    ensures IsDigit(c) ==> var ps := if m.parser.parameters == [] then [0] else m.parser.parameters;
      r.value.parser.parameters == ps[|ps| - 1 := ps[|ps| - 1] * 10 + DigitValue(c)]
    ensures IsSeparator(c) ==> r.value.parser.parameters == m.parser.parameters + [0]
    ensures !IsFinal(c) && !IsDigit(c) && !IsSeparator(c) ==> r.value.parser.parameters == m.parser.parameters
    ensures !IsFinal(c) ==> (r.value.parser.intermediates ==
      m.parser.intermediates + if IsIntermediate(c) then [c] else [])
  {
    var p, s := m.parser, m.screen;
    if IsDigit(c) then
      var ps := if p.parameters == [] then [0] else p.parameters;
      var last := |ps| - 1;
      Ok(Machine(p.(parameters := ps[last := ps[last] * 10 + DigitValue(c)]), s))
    else if IsSeparator(c) then Ok(Machine(p.(parameters := p.parameters + [0]), s))
    else if IsIntermediate(c) then Ok(Machine(p.(intermediates := p.intermediates + [c], state := CsiIntermediate), s))
    else if IsFinal(c) then Finish(m, c)
    else Ok(Machine(p.(state := Ground), s))
  }

  /** `handleCsiIntermediateState`: only further intermediates or a final
      are accepted; anything else returns to ground. */
  function HandleCsiIntermediateState(m: Machine, c: char): (r: Outcome<Machine>)
    requires m.parser.state == CsiIntermediate
    ensures IsFinal(c) ==> r == Finish(m, c)
    ensures IsIntermediate(c) ==> r == Ok(m.(parser := m.parser.(intermediates := m.parser.intermediates + [c])))
    ensures !IsFinal(c) && !IsIntermediate(c) ==> r == Ok(m.(parser := m.parser.(state := Ground)))
  {
    var p, s := m.parser, m.screen;
    if IsIntermediate(c) then Ok(Machine(p.(intermediates := p.intermediates + [c]), s))
    else if IsFinal(c) then Finish(m, c)
    else Ok(Machine(p.(state := Ground), s))
  }

  /** `parse(character:)`. Between characters `finalChar` is always unset. */
  function Step(m: Machine, c: char): (r: Outcome<Machine>)
    ensures m.parser.finalChar.None? && r.Ok? ==> r.value.parser.finalChar.None?
  {
    match m.parser.state
    case Ground => HandleGroundState(m, c)
    case Escape => Ok(Machine(HandleEscapeState(m.parser, c), m.screen))
    case CsiEntry => HandleCsiEntryState(m, c)
    case CsiParameter => HandleCsiParameterState(m, c)
    case CsiIntermediate => HandleCsiIntermediateState(m, c)
  }

  /** The effect of a character stream: `parse` on each character in
      order, stopping at the first trap. */
  function Run(m: Machine, cs: seq<char>): (r: Outcome<Machine>)
    ensures m.parser.finalChar.None? && r.Ok? ==> r.value.parser.finalChar.None?
    decreases |cs|
  {
    if cs == [] then Ok(m)
    else match Run(m, cs[..|cs| - 1])
      case Trap => Trap
      case Ok(m1) => Step(m1, cs[|cs| - 1])
  }

  // Properties of the machine

  /** Feeding `a` and then `b` is feeding `a + b`; a trap in `a` stops both. */
  lemma {:induction false} RunConcat(m: Machine, a: seq<char>, b: seq<char>)
    ensures Run(m, a + b) == if Run(m, a).Trap? then Trap else Run(Run(m, a).value, b)
    decreases |b|
  {
    if b == [] {
      assert a + b == a;
    } else {
      assert (a + b)[..|a + b| - 1] == a + b[..|b| - 1];
      RunConcat(m, a, b[..|b| - 1]);
    }
  }

  lemma RunSnoc(m: Machine, cs: seq<char>, c: char)
    ensures Run(m, cs + [c]) == if Run(m, cs).Trap? then Trap else Step(Run(m, cs).value, c)
  {
    assert (cs + [c])[..|cs|] == cs;
  }

  lemma RunPair(m: Machine, c1: char, c2: char)
    requires Step(m, c1).Ok?
    ensures Run(m, [c1, c2]) == Step(Step(m, c1).value, c2)
  {
    RunSnoc(m, [], c1);
    RunSnoc(m, [c1], c2);
    assert [] + [c1] == [c1] && [c1] + [c2] == [c1, c2];
  }

  /** The ASCII decimal digits of `n`, most significant first. */
  function DecimalChars(n: nat): (ds: seq<char>)
    ensures ds != [] && forall i :: 0 <= i < |ds| ==> IsDigit(ds[i])
    decreases n
  {
    if n < 10 then [('0' as int + n) as char] else DecimalChars(n / 10) + [('0' as int + n % 10) as char]
  }

  /** In csiEntry, the digits of `n` open a new parameter `n`. */
  lemma {:induction false} EntryCollectsNumber(m: Machine, n: nat)
    requires m.parser.state == CsiEntry
    ensures Run(m, DecimalChars(n)) ==
      Ok(m.(parser := m.parser.(state := CsiParameter, parameters := m.parser.parameters + [n])))
    decreases n
  {
    if n >= 10 {
      var c := ('0' as int + n % 10) as char;
      EntryCollectsNumber(m, n / 10);
      var ps: seq<nat> := m.parser.parameters + [n / 10];
      var m1 := m.(parser := m.parser.(state := CsiParameter, parameters := ps));
      ParameterDigit(m1, c);
      RunSnoc(m, DecimalChars(n / 10), c);
      assert ps[|ps| - 1 := ((n / 10) * 10 + n % 10) as nat] == m.parser.parameters + [n];
    } else {
      RunSnoc(m, [], ('0' as int + n) as char);
      assert [] + [('0' as int + n) as char] == DecimalChars(n);
    }
  }

  /** In csiParameter with some parameter, a digit extends the last one. */
  lemma ParameterDigit(m: Machine, c: char)
    requires m.parser.state == CsiParameter && |m.parser.parameters| > 0 && IsDigit(c)
    ensures var ps := m.parser.parameters;
      Step(m, c) == Ok(m.(parser := m.parser.(parameters := ps[|ps| - 1 := ps[|ps| - 1] * 10 + DigitValue(c)])))
  {
  }

  /** In csiParameter with a last parameter 0, the digits of `n` make it `n`. */
  lemma {:induction false} ParameterCollectsNumber(m: Machine, n: nat)
    requires m.parser.state == CsiParameter && |m.parser.parameters| > 0
    requires m.parser.parameters[|m.parser.parameters| - 1] == 0
    ensures Run(m, DecimalChars(n)) ==
      Ok(m.(parser := m.parser.(parameters := m.parser.parameters[|m.parser.parameters| - 1 := n])))
    decreases n
  {
    var ps := m.parser.parameters;
    var last := |ps| - 1;
    if n >= 10 {
      var q: nat := n / 10;
      var d := ('0' as int + n % 10) as char;
      ParameterCollectsNumber(m, q);
      var after: seq<nat> := ps[last := q];
      var m1 := m.(parser := m.parser.(parameters := after));
      assert Run(m, DecimalChars(q)) == Ok(m1);
      assert DecimalChars(n) == DecimalChars(q) + [d];
      RunSnoc(m, DecimalChars(q), d);
      assert DigitValue(d) == n % 10;
      ParameterDigit(m1, d);
      var v: nat := q * 10 + n % 10;
      assert v == n;
      assert after[last := v] == ps[last := n];
    } else {
      var d := ('0' as int + n) as char;
      var ps0: seq<nat> := ps[last := 0 * 10 + DigitValue(d)];
      RunSnoc(m, [], d);
      assert [] + [d] == DecimalChars(n);
      ParameterDigit(m, d);
      assert ps0 == ps[last := n];
    }
  }

  /** The parameter characters of a control sequence: the decimal numbers
      separated by `;`. */
  function EncodeParams(ps: seq<nat>): seq<char>
    decreases |ps|
  {
    if ps == [] then []
    else if |ps| == 1 then DecimalChars(ps[0])
    else EncodeParams(ps[..|ps| - 1]) + [';'] + DecimalChars(ps[|ps| - 1])
  }

  /** `ESC [ params final`. */
  function EncodeCsi(ps: seq<nat>, final: char): seq<char>
  {
    [ESC, '['] + EncodeParams(ps) + [final]
  }

  /** In csiParameter, `;` opens a new parameter 0. */
  lemma ParameterSeparator(m: Machine)
    requires m.parser.state == CsiParameter
    ensures Step(m, ';') == Ok(m.(parser := m.parser.(parameters := m.parser.parameters + [0])))
  {
  }

  /** From csiEntry with no parameters, the parameter characters of `ps`
      leave exactly `ps` collected. */
  lemma {:induction false} CsiCollectsParams(m: Machine, ps: seq<nat>)
    requires m.parser.state == CsiEntry && m.parser.parameters == [] && ps != []
    ensures Run(m, EncodeParams(ps)) == Ok(m.(parser := m.parser.(state := CsiParameter, parameters := ps)))
    decreases |ps|
  {
    if |ps| == 1 {
      EntryCollectsNumber(m, ps[0]);
      assert [] + [ps[0]] == ps;
    } else {
      var init := ps[..|ps| - 1];
      var last := ps[|ps| - 1];
      assert init + [last] == ps;
      CsiCollectsParams(m, init);
      var m1 := m.(parser := m.parser.(state := CsiParameter, parameters := init));
      var m2 := m.(parser := m.parser.(state := CsiParameter, parameters := init + [0]));
      ParameterSeparator(m1);
      RunSnoc(m, EncodeParams(init), ';');
      assert Run(m, EncodeParams(init) + [';']) == Ok(m2);
      ParameterCollectsNumber(m2, last);
      RunConcat(m, EncodeParams(init) + [';'], DecimalChars(last));
      assert (init + [0])[|init| := last] == ps;
    }
  }

  /** From csiEntry with no parameters, the parameter characters of `ps`
      and a final character dispatch that final with exactly `ps`. */
  lemma CsiParamsAndFinal(m: Machine, ps: seq<nat>, final: char)
    requires m.parser.state == CsiEntry && m.parser.parameters == [] && IsFinal(final)
    ensures Run(m, EncodeParams(ps) + [final]) == Finish(m.(parser := m.parser.(parameters := ps)), final)
  {
    RunSnoc(m, EncodeParams(ps), final);
    if ps != [] {
      CsiCollectsParams(m, ps);
      var m2 := m.(parser := m.parser.(state := CsiParameter, parameters := ps));
      assert Run(m, EncodeParams(ps)) == Ok(m2);
      FinalFinishes(m2, final);
    } else {
      assert EncodeParams(ps) == [];
      assert Run(m, EncodeParams(ps)) == Ok(m);
      FinalFinishes(m, final);
    }
  }

  /** `ESC [` from ground opens a control sequence and keeps whatever
      parameters the parser holds. */
  lemma {:induction false} RunIntroducer(m: Machine)
    requires m.parser.state == Ground
    ensures Run(m, [ESC, '[']) == Ok(m.(parser := m.parser.(state := CsiEntry)))
  {
    RunPair(m, ESC, '[');
  }

  /** Round trip with the encoder: from ground with no stale parameters,
      `ESC [ p1;...;pn final` dispatches the final with exactly `p1..pn`
      and resets the parser. */
  lemma CsiRoundTrip(m: Machine, ps: seq<nat>, final: char)
    requires m.parser.state == Ground && m.parser.parameters == [] && IsFinal(final)
    ensures Run(m, EncodeCsi(ps, final)) ==
      match DispatchCsi(m.screen, ps, Some(final))
      case Trap => Trap
      case Ok(s) => Ok(Machine(Initial, s))
  {
    RunIntroducer(m);
    var m1 := m.(parser := m.parser.(state := CsiEntry));
    CsiParamsAndFinal(m1, ps, final);
    assert EncodeCsi(ps, final) == [ESC, '['] + (EncodeParams(ps) + [final]);
    RunConcat(m, [ESC, '['], EncodeParams(ps) + [final]);
  }

  /** Inside csiEntry or csiParameter, a character that is no digit, `;`,
      intermediate or final returns to ground and keeps the parameters. */
  lemma CsiAbortKeepsFields(m: Machine, c: char)
    requires m.parser.state == CsiEntry || m.parser.state == CsiParameter
    requires !IsDigit(c) && !IsSeparator(c) && !IsIntermediate(c) && !IsFinal(c)
    ensures Step(m, c) == Ok(m.(parser := m.parser.(state := Ground)))
  {
  }

  /** `ESC [ 5 LF` leaves the control sequence with the parameter 5 kept. */
  lemma AbortedSequence(s: S.Screen)
    ensures Run(Machine(Initial, s), [ESC, '[', '5', '\n']) == Ok(Machine(Fields(Ground, [5], [], None), s))
  {
    var m := Machine(Initial, s);
    var m1 := Machine(Fields(CsiEntry, [], [], None), s);
    var m3 := Machine(Fields(CsiParameter, [5], [], None), s);
    RunIntroducer(m);
    assert Run(m, [ESC, '[']) == Ok(m1);
    assert DecimalChars(5) == ['5'];
    EntryCollectsNumber(m1, 5);
    var empty: seq<nat> := [];
    assert empty + [5] == [5];
    assert Run(m1, ['5']) == Ok(m3);
    RunConcat(m, [ESC, '['], ['5']);
    assert [ESC, '['] + ['5'] == [ESC, '[', '5'];
    CsiAbortKeepsFields(m3, '\n');
    RunSnoc(m, [ESC, '[', '5'], '\n');
    assert [ESC, '[', '5'] + ['\n'] == [ESC, '[', '5', '\n'];
  }

  /** A control sequence cut short by a character that is no digit, `;`,
      intermediate or final returns to ground with its parameters kept:
      after `ESC [ 5 LF`, a following `ESC [ A` moves the cursor up by 5. */
  lemma AbortKeepsParameters(s: S.Screen)
    ensures Run(Machine(Initial, s), [ESC, '[', '5', '\n', ESC, '[', 'A']) ==
            Ok(Machine(Initial, S.MoveCursorUp(s, 5)))
  {
    var m := Machine(Initial, s);
    var m4 := Machine(Fields(Ground, [5], [], None), s);
    var m5 := Machine(Fields(CsiEntry, [5], [], None), s);
    var prefix := [ESC, '[', '5', '\n'];
    AbortedSequence(s);
    RunIntroducer(m4);
    RunConcat(m, prefix, [ESC, '[']);
    assert prefix + [ESC, '['] == [ESC, '[', '5', '\n', ESC, '['];
    assert Step(m5, 'A') == Ok(Machine(Initial, S.MoveCursorUp(s, 5)));
    RunSnoc(m, prefix + [ESC, '['], 'A');
    assert prefix + [ESC, '['] + ['A'] == [ESC, '[', '5', '\n', ESC, '[', 'A'];
  }

  /** `ESC [ 0 ; 0 H` puts the cursor at row and column -1. */
  lemma ZeroCursorPosition(s: S.Screen)
    ensures Run(Machine(Initial, s), EncodeCsi([0, 0], 'H')) == Ok(Machine(Initial, S.SetCursorPosition(s, -1, -1)))
  {
    assert DispatchCsi(s, [0, 0], Some('H')) == Ok(S.SetCursorPosition(s, -1, -1));
    CsiRoundTrip(Machine(Initial, s), [0, 0], 'H');
  }

  /** `ESC [ 0 ; 0 H` puts the cursor at column -1, so the next printable
      character stops the program on a negative index. */
  lemma ZeroCursorPositionTraps(s: S.Screen)
    ensures Run(Machine(Initial, s), EncodeCsi([0, 0], 'H') + ['A']) == Trap
  {
    var m := Machine(Initial, s);
    var moved := S.SetCursorPosition(s, -1, -1);
    ZeroCursorPosition(s);
    assert Step(Machine(Initial, moved), 'A') == Trap;
    RunSnoc(m, EncodeCsi([0, 0], 'H'), 'A');
  }

  /** In ground, characters beyond ASCII are dropped. */
  lemma GroundDropsNonAscii(m: Machine, c: char)
    requires m.parser.state == Ground && c as int >= 128
    ensures Step(m, c) == Ok(m)
  {
  }

  /** A character ground writes to the screen. */
  predicate Printable(c: char)
  {
    c as int < 128 && c != ESC && c != BEL && c != '\n' && c != '\r' && c != '\t'
  }

  /** In ground and from a column `x >= 0`, a printable character is
      appended to the screen and the parser stays as it is. */
  lemma GroundPrints(m: Machine, c: char)
    requires m.parser.state == Ground && m.screen.x >= 0 && Printable(c)
    ensures S.AppendChar(m.screen, c).Ok?
    ensures Step(m, c) == Ok(m.(screen := S.AppendChar(m.screen, c).value))
  {
  }

  /** In ground and from a column `x >= 0`, printable characters are
      written side by side on the cursor row, starting at the cursor,
      without wrapping; the column advances by their number and nothing
      else but the cursor row changes. */
  lemma {:induction false} GroundWritesText(m: Machine, cs: seq<char>)
    requires m.parser.state == Ground && m.screen.x >= 0
    requires forall i :: 0 <= i < |cs| ==> Printable(cs[i])
    ensures Run(m, cs).Ok?
    ensures var t := Run(m, cs).value;
      t.parser == m.parser && t.screen == m.screen.(buffer := t.screen.buffer, x := m.screen.x + |cs|)
      && (cs != [] ==> S.Holds(t.screen.buffer, m.screen.y, m.screen.x, cs, m.screen.attrs))
    decreases |cs|
  {
    if cs != [] {
      var init, c := cs[..|cs| - 1], cs[|cs| - 1];
      assert init + [c] == cs;
      assert Printable(c);
      GroundWritesText(m, init);
      var m1 := Run(m, init).value;
      S.AppendCharExtends(m1.screen, m.screen.x, init, c);
      GroundPrints(m1, c);
      RunSnoc(m, init, c);
    }
  }

  // Intermediates

  /** A control-sequence state: csiEntry, csiParameter or csiIntermediate. */
  predicate InCsi(m: Machine)
  {
    m.parser.state == CsiEntry || m.parser.state == CsiParameter || m.parser.state == CsiIntermediate
  }

  /** In any control-sequence state an intermediate character is collected,
      and the parser is then in csiIntermediate. */
  lemma IntermediateCollects(m: Machine, c: char)
    requires InCsi(m) && IsIntermediate(c)
    ensures Step(m, c) == Ok(m.(parser := m.parser.(intermediates := m.parser.intermediates + [c], state := CsiIntermediate)))
  {
  }

  /** Once in csiIntermediate, a character that is neither an intermediate
      nor a final returns to ground; digits and `;` are no longer accepted. */
  lemma IntermediateAborts(m: Machine, c: char)
    requires m.parser.state == CsiIntermediate && !IsIntermediate(c) && !IsFinal(c)
    ensures Step(m, c) == Ok(m.(parser := m.parser.(state := Ground)))
  {
  }

  /** In any control-sequence state a final character dispatches. */
  lemma FinalFinishes(m: Machine, c: char)
    requires InCsi(m) && IsFinal(c)
    ensures Step(m, c) == Finish(m, c)
  {
  }

  /** A run of intermediates is collected in order. */
  lemma {:induction false} RunIntermediates(m: Machine, cs: seq<char>)
    requires InCsi(m) && forall i :: 0 <= i < |cs| ==> IsIntermediate(cs[i])
    ensures Run(m, cs) == Ok(m.(parser := m.parser.(intermediates := m.parser.intermediates + cs,
                                                    state := if cs == [] then m.parser.state else CsiIntermediate)))
    decreases |cs|
  {
    if cs == [] {
      assert m.parser.intermediates + cs == m.parser.intermediates;
    } else {
      var init, c := cs[..|cs| - 1], cs[|cs| - 1];
      assert init + [c] == cs;
      assert IsIntermediate(c);
      RunIntermediates(m, init);
      var m1 := m.(parser := m.parser.(intermediates := m.parser.intermediates + init,
                                       state := if init == [] then m.parser.state else CsiIntermediate));
      IntermediateCollects(m1, c);
      RunSnoc(m, init, c);
      assert m.parser.intermediates + init + [c] == m.parser.intermediates + cs;
    }
  }

  /** `ESC [ params intermediates final`. */
  function EncodeCsiIntermediates(ps: seq<nat>, cs: seq<char>, final: char): seq<char>
  {
    [ESC, '['] + EncodeParams(ps) + cs + [final]
  }

  /** From csiEntry with no parameters, the parameter characters of `ps`
      leave exactly `ps` collected in a control-sequence state. */
  lemma CsiParamsCollected(m: Machine, ps: seq<nat>)
    requires m.parser.state == CsiEntry && m.parser.parameters == []
    ensures var r := Run(m, EncodeParams(ps));
      r.Ok? && InCsi(r.value) && r.value.screen == m.screen && r.value.parser.parameters == ps
  {
    if ps != [] {
      CsiCollectsParams(m, ps);
    } else {
      assert EncodeParams(ps) == [];
    }
  }

  /** Round trip with intermediates: from ground with no stale parameters,
      `ESC [ p1;...;pn I1...Ik final` dispatches the final with exactly
      `p1..pn`, whatever the intermediates, and resets the parser. */
  lemma CsiIntermediatesRoundTrip(m: Machine, ps: seq<nat>, cs: seq<char>, final: char)
    requires m.parser.state == Ground && m.parser.parameters == [] && IsFinal(final)
    requires forall i :: 0 <= i < |cs| ==> IsIntermediate(cs[i])
    ensures Run(m, EncodeCsiIntermediates(ps, cs, final)) ==
      match DispatchCsi(m.screen, ps, Some(final))
      case Trap => Trap
      case Ok(s) => Ok(Machine(Initial, s))
  {
    var a := [ESC, '['] + EncodeParams(ps);
    RunIntroducer(m);
    var m1 := m.(parser := m.parser.(state := CsiEntry));
    CsiParamsCollected(m1, ps);
    var m2 := Run(m1, EncodeParams(ps)).value;
    RunConcat(m, [ESC, '['], EncodeParams(ps));
    assert Run(m, a) == Ok(m2);
    RunIntermediates(m2, cs);
    var m3 := Run(m2, cs).value;
    RunConcat(m, a, cs);
    assert Run(m, a + cs) == Ok(m3);
    FinalFinishes(m3, final);
    RunSnoc(m, a + cs, final);
    assert EncodeCsiIntermediates(ps, cs, final) == a + cs + [final];
  }

  // Canonical equivalence

  /** In csiEntry and csiParameter, GREEK QUESTION MARK separates
      parameters exactly as `;` does. */
  lemma GreekQuestionMarkSeparates(m: Machine)
    requires m.parser.state == CsiEntry || m.parser.state == CsiParameter
    ensures Step(m, '\U{037E}') == Step(m, ';')
  {
  }

  /** In a control-sequence state, a final character and its ASCII
      equivalent have the same effect. */
  lemma CanonicalFinalsAgree(m: Machine, c: char)
    requires InCsi(m) && IsFinal(c)
    ensures Step(m, c) == Step(m, Canon(c))
  {
    FinalFinishes(m, c);
    FinalFinishes(m, Canon(c));
  }

  /** KELVIN SIGN ends a control sequence as `K` does: `ESC [ 2 KELVIN`
      erases the whole cursor line. */
  lemma KelvinSignErasesLine(s: S.Screen)
    ensures Run(Machine(Initial, s), [ESC, '[', '2', '\U{212A}']) ==
      match S.EraseInLine(s, 2)
      case Trap => Trap
      case Ok(t) => Ok(Machine(Initial, t))
  {
    assert Canon('\U{212A}') == 'K';
    assert DispatchCsi(s, [2], Some('\U{212A}')) == S.EraseInLine(s, 2);
    assert DecimalChars(2) == ['2'];
    assert EncodeCsi([2], '\U{212A}') == [ESC, '[', '2', '\U{212A}'];
    CsiRoundTrip(Machine(Initial, s), [2], '\U{212A}');
  }
}

/** Colours, text attributes, character cells and the SGR code table
    (Select Graphic Rendition, section 8.3.117 of ECMA-48) that both screen
    buffers implement in `applyGraphicRendition`, `resetAttributes` and
    `ansiColor`. */
module Attributes {

  /** The colours the buffers use, standing for `NSColor` values. */
  datatype Color = Black | Red | Green | Yellow | Blue | Magenta | Cyan | White | Clear

  /** Position of a colour in the ANSI 8-colour palette; `Clear` has none. */
  function PaletteIndex(c: Color): int
  {
    match c
    case Black => 0
    case Red => 1
    case Green => 2
    case Yellow => 3
    case Blue => 4
    case Magenta => 5
    case Cyan => 6
    case White => 7
    case Clear => -1
  }

  /** `ansiColor`: codes 0..7 name the palette in order; anything else is white. */
  function AnsiColor(code: int): (c: Color)
    ensures c != Clear
    ensures 0 <= code <= 7 ==> PaletteIndex(c) == code
    ensures !(0 <= code <= 7) ==> c == White
  {
    if code == 0 then Black
    else if code == 1 then Red
    else if code == 2 then Green
    else if code == 3 then Yellow
    else if code == 4 then Blue
    else if code == 5 then Magenta
    else if code == 6 then Cyan
    else White
  }

  /** The current text attributes: foreground, background, bold, underline. */
  datatype Attrs = Attrs(fg: Color, bg: Color, bold: bool, underline: bool)

  /** What `resetAttributes` restores and what a fresh buffer starts with. */
  const Default := Attrs(White, Clear, false, false)

  /** A `CharacterCell`: one character with the attributes it was written with. */
  datatype Cell = Cell(ch: char, attrs: Attrs)

  /** One iteration of the `for code in params` loop of `applyGraphicRendition`. */
  function SgrCode(a: Attrs, code: int): (r: Attrs)
    ensures code == 0 ==> r == Default
    ensures !Touches(Foreground, code) ==> r.fg == a.fg
    ensures !Touches(Background, code) ==> r.bg == a.bg
    ensures !Touches(Weight, code) ==> r.bold == a.bold
    ensures !Touches(Underline, code) ==> r.underline == a.underline
  {
    if code == 0 then Default
    else if code == 1 then a.(bold := true)
    else if code == 4 then a.(underline := true)
    else if 30 <= code <= 37 then a.(fg := AnsiColor(code - 30))
    else if 40 <= code <= 47 then a.(bg := AnsiColor(code - 40))
    else a
  }

  /** `applyGraphicRendition`: the codes applied left to right. A field no
      code touches is kept, and a trailing reset restores the defaults. */
  function Sgr(a: Attrs, codes: seq<int>): (r: Attrs)
    ensures codes != [] && codes[|codes| - 1] == 0 ==> r == Default
    ensures (forall i :: 0 <= i < |codes| ==> !Touches(Foreground, codes[i])) ==> r.fg == a.fg
    ensures (forall i :: 0 <= i < |codes| ==> !Touches(Background, codes[i])) ==> r.bg == a.bg
    ensures (forall i :: 0 <= i < |codes| ==> !Touches(Weight, codes[i])) ==> r.bold == a.bold
    ensures (forall i :: 0 <= i < |codes| ==> !Touches(Underline, codes[i])) ==> r.underline == a.underline
    decreases |codes|
  {
    if codes == [] then a
    else SgrCode(Sgr(a, codes[..|codes| - 1]), codes[|codes| - 1])
  }

  /** The four attributes an SGR code can change. */
  datatype Field = Foreground | Background | Weight | Underline

  /** Does `code` change field `f`? A reset (0) changes every field. */
  predicate Touches(f: Field, code: int)
  {
    code == 0 ||
    match f
    case Foreground => 30 <= code <= 37
    case Background => 40 <= code <= 47
    case Weight => code == 1
    case Underline => code == 4
  }

  /** Index of the last code that changes `f`, or -1 when none does. */
  function LastTouch(f: Field, codes: seq<int>): (i: int)
    ensures -1 <= i < |codes|
    ensures 0 <= i ==> Touches(f, codes[i])
    ensures forall j :: i < j < |codes| ==> !Touches(f, codes[j])
    decreases |codes|
  {
    if codes == [] then -1
    else if Touches(f, codes[|codes| - 1]) then |codes| - 1
    else LastTouch(f, codes[..|codes| - 1])
  }

  /** Applying two parameter lists one after the other is applying their
      concatenation: `ESC[1m ESC[31m` has the effect of `ESC[1;31m`. */
  lemma {:induction false} SgrConcat(a: Attrs, c1: seq<int>, c2: seq<int>)
    ensures Sgr(a, c1 + c2) == Sgr(Sgr(a, c1), c2)
    decreases |c2|
  {
    if c2 == [] {
      assert c1 + c2 == c1;
    } else {
      assert (c1 + c2)[..|c1 + c2| - 1] == c1 + c2[..|c2| - 1];
      SgrConcat(a, c1, c2[..|c2| - 1]);
    }
  }

  /** The last code that touches the foreground decides it: a reset gives
      white, 30..37 the palette colour; with no such code it is unchanged. */
  lemma {:induction false} SgrForeground(a: Attrs, codes: seq<int>)
    ensures var i := LastTouch(Foreground, codes);
      Sgr(a, codes).fg == if i < 0 then a.fg else if codes[i] == 0 then White else AnsiColor(codes[i] - 30)
    decreases |codes|
  {
    if codes != [] {
      var init := codes[..|codes| - 1];
      SgrForeground(a, init);
      if !Touches(Foreground, codes[|codes| - 1]) {
        var i := LastTouch(Foreground, init);
        assert i >= 0 ==> init[i] == codes[i];
      }
    }
  }

  /** The last code that touches the background decides it: a reset gives
      clear, 40..47 the palette colour; with no such code it is unchanged. */
  lemma {:induction false} SgrBackground(a: Attrs, codes: seq<int>)
    ensures var i := LastTouch(Background, codes);
      Sgr(a, codes).bg == if i < 0 then a.bg else if codes[i] == 0 then Clear else AnsiColor(codes[i] - 40)
    decreases |codes|
  {
    if codes != [] {
      var init := codes[..|codes| - 1];
      SgrBackground(a, init);
      if !Touches(Background, codes[|codes| - 1]) {
        var i := LastTouch(Background, init);
        assert i >= 0 ==> init[i] == codes[i];
      }
    }
  }

  /** Bold is on after the list exactly when the last code among 0 and 1 is
      1, or when neither occurs and it was on before. */
  lemma {:induction false} SgrBold(a: Attrs, codes: seq<int>)
    ensures var i := LastTouch(Weight, codes);
      Sgr(a, codes).bold == if i < 0 then a.bold else codes[i] == 1
    decreases |codes|
  {
    if codes != [] {
      var init := codes[..|codes| - 1];
      SgrBold(a, init);
      if !Touches(Weight, codes[|codes| - 1]) {
        var i := LastTouch(Weight, init);
        assert i >= 0 ==> init[i] == codes[i];
      }
    }
  }

  /** Underline is on after the list exactly when the last code among 0 and
      4 is 4, or when neither occurs and it was on before. */
  lemma {:induction false} SgrUnderline(a: Attrs, codes: seq<int>)
    ensures var i := LastTouch(Underline, codes);
      Sgr(a, codes).underline == if i < 0 then a.underline else codes[i] == 4
    decreases |codes|
  {
    if codes != [] {
      var init := codes[..|codes| - 1];
      SgrUnderline(a, init);
      if !Touches(Underline, codes[|codes| - 1]) {
        var i := LastTouch(Underline, init);
        assert i >= 0 ==> init[i] == codes[i];
      }
    }
  }

  /** A list made only of codes outside the table leaves the attributes alone. */
  lemma SgrIgnoresUnknownCodes(a: Attrs, codes: seq<int>)
    requires forall j :: 0 <= j < |codes| ==> !Touches(Foreground, codes[j]) && !Touches(Background, codes[j])
                                              && !Touches(Weight, codes[j]) && !Touches(Underline, codes[j])
    ensures Sgr(a, codes) == a
  {
    SgrForeground(a, codes);
    SgrBackground(a, codes);
    SgrBold(a, codes);
    SgrUnderline(a, codes);
  }
}

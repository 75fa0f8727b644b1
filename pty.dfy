/** The pure parts of mt/Pty.swift and mt/terminal/Pty.swift, which agree
    on all of them: the bytes each special key writes, the window size
    handed to the pseudo-terminal, and the bytes `sendInput` writes. */
module Pty {
  import opened Base

  /** `SpecialKey`. */
  datatype SpecialKey = Enter | CtrlC | CtrlD | CtrlZ | Backspace
                      | ArrowUp | ArrowDown | ArrowLeft | ArrowRight

  predicate IsArrow(key: SpecialKey)
  {
    key.ArrowUp? || key.ArrowDown? || key.ArrowLeft? || key.ArrowRight?
  }

  /** The key a control-byte sequence stands for, read independently of
      the table below: a single control byte, or `ESC [` and a letter. */
  function KeyOf(bs: seq<byte>): Option<SpecialKey>
  {
    if bs == [0x0A] then Some(Enter)
    else if bs == [0x03] then Some(CtrlC)
    else if bs == [0x04] then Some(CtrlD)
    else if bs == [0x1A] then Some(CtrlZ)
    else if bs == [0x08] then Some(Backspace)
    else if |bs| == 3 && bs[0] == 0x1B && bs[1] == 0x5B then
      if bs[2] == 0x41 then Some(ArrowUp)
      else if bs[2] == 0x42 then Some(ArrowDown)
      else if bs[2] == 0x44 then Some(ArrowLeft)
      else if bs[2] == 0x43 then Some(ArrowRight)
      else None
    else None
  }

  /** The `controlBytes` table of `sendSpecialKey`. Each key has its own
      sequence: one byte for the control keys, `ESC [` and a letter for the
      arrows. */
  function ControlBytes(key: SpecialKey): (r: seq<byte>)
    ensures |r| == (if IsArrow(key) then 3 else 1)
    ensures IsArrow(key) ==> r[0] == 0x1B && r[1] == 0x5B
    ensures KeyOf(r) == Some(key)
  {
    match key
    case Enter => [0x0A]
    case CtrlC => [0x03]
    case CtrlD => [0x04]
    case CtrlZ => [0x1A]
    case Backspace => [0x08]
    case ArrowUp => [0x1B, 0x5B, 0x41]
    case ArrowDown => [0x1B, 0x5B, 0x42]
    case ArrowLeft => [0x1B, 0x5B, 0x44]
    case ArrowRight => [0x1B, 0x5B, 0x43]
  }

  /** Different keys write different bytes. */
  lemma ControlBytesInjective(k1: SpecialKey, k2: SpecialKey)
    ensures ControlBytes(k1) == ControlBytes(k2) ==> k1 == k2
  {
    assert KeyOf(ControlBytes(k1)) == Some(k1);
    assert KeyOf(ControlBytes(k2)) == Some(k2);
  }

  /** The bytes `write(fd, bytes, count)` hands to the pseudo-terminal. */
  function Written(bytes: seq<byte>, count: nat): (r: seq<byte>)
    requires count <= |bytes|
    ensures |r| == count && r == bytes[..count]
  {
    bytes[..count]
  }

  /** `sendSpecialKey`: one write of `controlBytes.count` bytes, which is
      the whole sequence. */
  function SendSpecialKey(key: SpecialKey): (r: seq<byte>)
    ensures r == ControlBytes(key)
  {
    var controlBytes := ControlBytes(key);
    Written(controlBytes, |controlBytes|)
  }

  /** The C `struct winsize`. */
  datatype WinSize = WinSize(wsRow: u16, wsCol: u16, wsXPixel: u16, wsYPixel: u16)

  /** The window size built by `init` and by `resizePty`: the rows and
      columns given, and no pixel size. */
  function WindowSize(rows: u16, cols: u16): (w: WinSize)
    ensures w.wsRow == rows && w.wsCol == cols && w.wsXPixel == 0 && w.wsYPixel == 0
  {
    WinSize(rows, cols, 0, 0)
  }

  /** The UTF-8 encoding of one Unicode scalar value. */
  function Utf8(c: char): (r: seq<byte>)
    ensures 1 <= |r| <= 4
    ensures c != '\0' <==> 0 !in r
  {
    var cp := c as int;
    if cp < 0x80 then
      assert c == '\0' <==> cp == 0;
      [cp as byte]
    else if cp < 0x800 then [(0xC0 + cp / 0x40) as byte, (0x80 + cp % 0x40) as byte]
    else if cp < 0x1_0000 then
      [(0xE0 + cp / 0x1000) as byte, (0x80 + cp / 0x40 % 0x40) as byte, (0x80 + cp % 0x40) as byte]
    else
      [(0xF0 + cp / 0x4_0000) as byte, (0x80 + cp / 0x1000 % 0x40) as byte,
       (0x80 + cp / 0x40 % 0x40) as byte, (0x80 + cp % 0x40) as byte]
  }

  /** The code point a UTF-8 sequence of one to four bytes encodes. */
  function Utf8Value(bs: seq<byte>): int
    requires 1 <= |bs| <= 4
  {
    if |bs| == 1 then bs[0] as int
    else if |bs| == 2 then (bs[0] as int - 0xC0) * 0x40 + (bs[1] as int - 0x80)
    else if |bs| == 3 then
      ((bs[0] as int - 0xE0) * 0x40 + (bs[1] as int - 0x80)) * 0x40 + (bs[2] as int - 0x80)
    else
      (((bs[0] as int - 0xF0) * 0x40 + (bs[1] as int - 0x80)) * 0x40 + (bs[2] as int - 0x80)) * 0x40
        + (bs[3] as int - 0x80)
  }

  /** Decoding the encoding of a character gives the character back. */
  lemma Utf8RoundTrip(c: char)
    ensures Utf8Value(Utf8(c)) == c as int
  {
    var cp := c as int;
    if cp >= 0x1_0000 {
      assert cp / 0x40 == (cp / 0x1000) * 0x40 + cp / 0x40 % 0x40;
      assert cp / 0x1000 == (cp / 0x4_0000) * 0x40 + cp / 0x1000 % 0x40;
    } else if cp >= 0x800 {
      assert cp / 0x40 == (cp / 0x1000) * 0x40 + cp / 0x40 % 0x40;
    }
  }

  /** The UTF-8 bytes of a string. */
  function EncodeUtf8(s: seq<char>): (r: seq<byte>)
    ensures '\0' !in s ==> 0 !in r
    decreases |s|
  {
    if s == [] then [] else Utf8(s[0]) + EncodeUtf8(s[1..])
  }

  /** `cString(using: .utf8)`: the UTF-8 bytes and a terminating NUL. */
  function CString(s: seq<char>): (r: seq<byte>)
    ensures r != [] && r[|r| - 1] == 0
  {
    EncodeUtf8(s) + [0]
  }

  /** `strlen`: the number of bytes before the first NUL. */
  function Strlen(bs: seq<byte>): (n: nat)
    requires 0 in bs
    ensures n < |bs| && bs[n] == 0 && 0 !in bs[..n]
    decreases |bs|
  {
    if bs[0] == 0 then 0 else 1 + Strlen(bs[1..])
  }

  /** The characters before the first NUL. */
  function BeforeNul(s: seq<char>): (r: seq<char>)
    ensures '\0' !in r
    ensures r == s || (|r| < |s| && s[|r|] == '\0')
    ensures r == s[..|r|]
    decreases |s|
  {
    if s == [] || s[0] == '\0' then [] else [s[0]] + BeforeNul(s[1..])
  }

  /** `sendInput`: one write of `strlen` bytes of the C string. */
  function SendInput(input: seq<char>): (r: seq<byte>)
    ensures 0 !in r
    ensures r + [0] <= CString(input)
  {
    var inputCStr := CString(input);
    Written(inputCStr, Strlen(inputCStr))
  }

  lemma {:induction false} EncodeUtf8Concat(a: seq<char>, b: seq<char>)
    ensures EncodeUtf8(a + b) == EncodeUtf8(a) + EncodeUtf8(b)
    decreases |a|
  {
    if a != [] {
      assert (a + b)[0] == a[0] && (a + b)[1..] == a[1..] + b;
      EncodeUtf8Concat(a[1..], b);
      calc {
        EncodeUtf8(a + b);
        Utf8(a[0]) + EncodeUtf8(a[1..] + b);
        Utf8(a[0]) + (EncodeUtf8(a[1..]) + EncodeUtf8(b));
        (Utf8(a[0]) + EncodeUtf8(a[1..])) + EncodeUtf8(b);
      }
    } else {
      assert a + b == b;
    }
  }

  lemma {:induction false} StrlenAfterNulFree(a: seq<byte>, b: seq<byte>)
    requires 0 !in a && 0 in b
    ensures Strlen(a + b) == |a| + Strlen(b)
    decreases |a|
  {
    if a != [] {
      assert (a + b)[0] == a[0] && a[0] != 0 && (a + b)[1..] == a[1..] + b;
      StrlenAfterNulFree(a[1..], b);
    } else {
      assert a + b == b;
    }
  }

  /** What follows the text before the first NUL, with the terminator
      appended, encodes to bytes starting with a NUL. */
  lemma RestStartsWithNul(input: seq<char>)
    ensures var rest := input[|BeforeNul(input)|..];
      EncodeUtf8(rest) + [0] != [] && (EncodeUtf8(rest) + [0])[0] == 0
  {
    var rest := input[|BeforeNul(input)|..];
    if rest != [] {
      assert rest[0] == '\0';
    }
  }

  /** `sendInput` writes the UTF-8 bytes of the input up to, and not
      including, its first NUL character; what follows the NUL is never
      written, and no NUL byte is. */
  lemma SendInputStopsAtNul(input: seq<char>)
    ensures SendInput(input) == EncodeUtf8(BeforeNul(input))
    ensures 0 !in SendInput(input)
  {
    var pre := BeforeNul(input);
    var rest := input[|pre|..];
    assert input == pre + rest;
    EncodeUtf8Concat(pre, rest);
    var cs := CString(input);
    assert cs == EncodeUtf8(pre) + (EncodeUtf8(rest) + [0]);
    RestStartsWithNul(input);
    StrlenAfterNulFree(EncodeUtf8(pre), EncodeUtf8(rest) + [0]);
    assert cs[..|EncodeUtf8(pre)|] == EncodeUtf8(pre);
  }
}

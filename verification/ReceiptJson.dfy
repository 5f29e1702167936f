/** Emitted strings mean their texts under section 7 of RFC 8259, read by a decoder of all its escapes. */
module ReceiptJson {
  import opened Wrappers
  import opened Bytes
  import opened ReceiptTokens

  /** The value of a hexadecimal digit, in either case. */
  function DigitValue(b: int): Option<int> {
    if '0' as int <= b <= '9' as int then Some(b - '0' as int)
    else if 'a' as int <= b <= 'f' as int then Some(10 + b - 'a' as int)
    else if 'A' as int <= b <= 'F' as int then Some(10 + b - 'A' as int)
    else None
  }

  /** The code unit that four digits spell. */
  function CodeUnit(code: seq<uint8>): Option<int> {
    if |code| < 4 then None
    else
      match (DigitValue(code[0]), DigitValue(code[1]), DigitValue(code[2]), DigitValue(code[3]))
      case (Some(a), Some(b), Some(c), Some(d)) => Some(((a * 16 + b) * 16 + c) * 16 + d)
      case _ => None
  }

  /** The character that a two-character escape stands for. */
  function Escaped(letter: uint8): Option<int> {
    if letter as int == '"' as int then Some('"' as int)
    else if letter as int == '\\' as int then Some('\\' as int)
    else if letter as int == '/' as int then Some('/' as int)
    else if letter as int == 'b' as int then Some(0x8)
    else if letter as int == 'f' as int then Some(0xC)
    else if letter as int == 'n' as int then Some(0xA)
    else if letter as int == 'r' as int then Some(0xD)
    else if letter as int == 't' as int then Some(0x9)
    else None
  }

  predicate HighSurrogate(unit: int) {
    0xD800 <= unit < 0xDC00
  }

  predicate LowSurrogate(unit: int) {
    0xDC00 <= unit < 0xE000
  }

  function Escape(): seq<uint8> {
    AsciiBytes("\\u")
  }

  /** The first character of an ASCII string body, and how many bytes spell it. */
  function FirstChar(code: seq<uint8>): Option<(int, nat)> {
    if code == [] || code[0] < 0x20 || code[0] as int == '"' as int then None
    else if code[0] as int != '\\' as int then Some((code[0], 1))
    else if |code| >= 2 && code[1] as int != 'u' as int then
      match Escaped(code[1])
      case Some(c) => Some((c, 2))
      case None => None
    else
      match CodeUnit(code[if |code| < 2 then |code| else 2..])
      case None => None
      case Some(unit) =>
        if LowSurrogate(unit) then None
        else if !HighSurrogate(unit) then Some((unit, 6))
        else if |code| < 12 || code[6..8] != Escape() then None
        else
          match CodeUnit(code[8..])
          case Some(low) =>
            if LowSurrogate(low) then Some((0x10000 + (unit - 0xD800) * 0x400 + (low - 0xDC00), 12)) else None
          case None => None
  }

  /** The scalar values of a string body that runs to its closing quote. */
  function Meaning(code: seq<uint8>): Option<seq<int>>
    decreases |code|
  {
    if |code| == 1 && code[0] as int == '"' as int then Some([])
    else
      match FirstChar(code)
      case None => None
      case Some((c, size)) =>
        if size == 0 || size > |code| then None
        else
          match Meaning(code[size..])
          case None => None
          case Some(rest) => Some([c] + rest)
  }

  lemma HexDigitMeans(d: int)
    requires 0 <= d < 16
    ensures DigitValue(HexDigit(d)) == Some(d)
  {
  }

  /** The digits of `v`, most significant first. */
  lemma FourDigits(v: uint16) returns (a: int, b: int, c: int, d: int)
    ensures 0 <= a < 16 && 0 <= b < 16 && 0 <= c < 16 && 0 <= d < 16
    ensures ((a * 16 + b) * 16 + c) * 16 + d == v
    ensures Hex4(v) == [HexDigit(a), HexDigit(b), HexDigit(c), HexDigit(d)]
  {
    var q1 := v / 16;
    var q2 := q1 / 16;
    var q3 := q2 / 16;
    assert DropDigits(v, 1) == q1 && DropDigits(v, 2) == q2 && DropDigits(v, 3) == q3;
    a, b, c, d := q3 % 16, q2 % 16, q1 % 16, v % 16;
    hide HexDigit, DropDigits;
    assert HexCode(v, 1) == [HexDigit(d)];
    assert HexCode(v, 2) == [HexDigit(c)] + HexCode(v, 1);
    assert HexCode(v, 3) == [HexDigit(b)] + HexCode(v, 2);
    assert HexCode(v, 4) == [HexDigit(a)] + HexCode(v, 3);
  }

  lemma FourDigitsMean(v: uint16, rest: seq<uint8>)
    ensures CodeUnit(Hex4(v) + rest) == Some(v)
  {
    var a, b, c, d := FourDigits(v);
    HexDigitMeans(a);
    HexDigitMeans(b);
    HexDigitMeans(c);
    HexDigitMeans(d);
    hide Hex4, DigitValue, HexDigit;
    var code := Hex4(v) + rest;
    assert code[0] == Hex4(v)[0] && code[1] == Hex4(v)[1] && code[2] == Hex4(v)[2] && code[3] == Hex4(v)[3];
  }

  lemma UnitMeansItself(c: Scalar, rest: seq<uint8>)
    requires c <= 0xFFFF
    ensures FirstChar([BACKSLASH, LETTER_U] + Hex4(c) + rest) == Some((c, 6))
  {
    hide Hex4, CodeUnit, Escaped;
    var code := [BACKSLASH, LETTER_U] + Hex4(c) + rest;
    assert code[0] == BACKSLASH && code[1] == LETTER_U;
    assert code[2..] == Hex4(c) + rest;
    FourDigitsMean(c, rest);
  }

  lemma PairMeansItself(high: uint16, low: uint16, rest: seq<uint8>)
    requires HighSurrogate(high) && LowSurrogate(low)
    ensures FirstChar([BACKSLASH, LETTER_U] + Hex4(high) + [BACKSLASH, LETTER_U] + Hex4(low) + rest)
            == Some((0x10000 + (high - 0xD800) * 0x400 + (low - 0xDC00), 12))
  {
    hide Hex4, CodeUnit, Escaped;
    var code := [BACKSLASH, LETTER_U] + Hex4(high) + [BACKSLASH, LETTER_U] + Hex4(low) + rest;
    assert code[0] == BACKSLASH && code[1] == LETTER_U;
    assert code[2..] == Hex4(high) + ([BACKSLASH, LETTER_U] + Hex4(low) + rest);
    assert code[6..8] == [BACKSLASH, LETTER_U] == Escape();
    assert code[8..] == Hex4(low) + rest;
    FourDigitsMean(high, [BACKSLASH, LETTER_U] + Hex4(low) + rest);
    FourDigitsMean(low, rest);
  }

  lemma ShortMeansItself(c: Scalar, letter: uint8, rest: seq<uint8>)
    requires ShortEscape(c) == Some(letter)
    ensures FirstChar([BACKSLASH, letter] + rest) == Some((c, 2))
  {
    hide CodeUnit;
    var code := [BACKSLASH, letter] + rest;
    assert code[0] == BACKSLASH && code[1] == letter;
    assert Escaped(letter) == Some(c);
    hide Escaped, ShortEscape;
  }

  lemma PlainMeansItself(c: Scalar, rest: seq<uint8>)
    requires ShortEscape(c).None? && Printable(c)
    ensures FirstChar([c] + rest) == Some((c, 1))
  {
    hide CodeUnit, Escaped;
  }

  /** Whatever follows, the emission of a character means that character. */
  lemma CharMeansItself(c: Scalar, rest: seq<uint8>)
    ensures FirstChar(EmitChar(c) + rest) == Some((c, |EmitChar(c)|))
  {
    hide Hex4, FirstChar, ShortEscape;
    if ShortEscape(c).Some? {
      ShortMeansItself(c, ShortEscape(c).value, rest);
    } else if Printable(c) {
      PlainMeansItself(c, rest);
    } else if c <= 0xFFFF {
      UnitMeansItself(c, rest);
    } else {
      var scalar := c - 0x1_0000;
      var high, low := 0xD800 + scalar / 1024, 0xDC00 + scalar % 1024;
      PairMeansItself(high, low, rest);
      assert EmitChar(c) == [BACKSLASH, LETTER_U] + Hex4(high) + [BACKSLASH, LETTER_U] + Hex4(low);
    }
  }

  /** An emitted string, after its opening quote, means its text. */
  lemma StringMeansItsText(text: Text)
    ensures EmitString(text)[0] as int == '"' as int
    ensures Meaning(EmitString(text)[1..]) == Some(text)
  {
    assert EmitString(text)[1..] == EmitChars(text);
    CharsMeanThemselves(text);
  }

  lemma {:induction false} CharsMeanThemselves(text: Text)
    ensures Meaning(EmitChars(text)) == Some(text)
  {
    if text != [] {
      var c, rest := text[0], text[1..];
      CharsMeanThemselves(rest);
      CharMeansItself(c, EmitChars(rest));
      hide EmitChar, FirstChar;
      assert EmitChars(text) == EmitChar(c) + EmitChars(rest);
      assert EmitChars(text)[|EmitChar(c)|..] == EmitChars(rest);
      assert text == [c] + rest;
    }
  }
}
